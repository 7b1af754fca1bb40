/** The names of the meeting room's broadcast events (src/lib/supabase.ts):
    `broadcastEvents` is built by folding the array of upper-case event
    names into an object that maps every name to its lower-case form. The
    accumulator object is updated in place, one property per step. */
module BroadcastEvents {
  import opened Text

  /** `eventsArray`, in source order. */
  const Events: seq<string> :=
    ["JOIN_RESPONSE", "CONNECTION_REQUEST", "CONNECTION_RESPONSE", "CHAT_MESSAGE", "LEAVE"]

  predicate Distinct(s: seq<string>) {
    forall i, j :: 0 <= i < j < |s| ==> s[i] != s[j]
  }

  predicate NoLowerCase(s: string) {
    forall i :: 0 <= i < |s| ==> !IsLowerAscii(s[i])
  }

  /** The object the fold is meant to build: every name mapped to its
      lower-case form. */
  function LowerCaseTable(names: seq<string>): (table: map<string, string>)
    ensures table.Keys == set k | k in names
    ensures forall k :: k in table ==> table[k] == Lower(k)
  {
    map k | k in names :: Lower(k)
  }

  /** A JavaScript object used as a dictionary: its own property names in
      insertion order, and the value of each. */
  class EventObject {
    var keys: seq<string>
    var values: map<string, string>

    ghost predicate Valid()
      reads this
    {
      Distinct(keys) && (set k | k in keys) == values.Keys
    }

    /** `{}` */
    constructor ()
      ensures Valid() && keys == [] && values == map[]
    {
      keys := [];
      values := map[];
    }

    /** `obj[key] = value`: a new property is appended to the key order,
        an existing one keeps its place; no other property changes. This is
        the order of JavaScript objects for keys that are not array indices
        (see `EventNamesNotIndices`). */
    method Assign(key: string, value: string)
      requires Valid()
      modifies this
      ensures Valid()
      ensures values == old(values)[key := value]
      ensures keys == if key in old(values) then old(keys) else old(keys) + [key]
    {
      if key !in values {
        keys := keys + [key];
      }
      values := values[key := value];
    }
  }

  /** One fold step adds one entry and keeps the earlier ones. */
  lemma TableSnoc(names: seq<string>, x: string)
    ensures LowerCaseTable(names + [x]) == LowerCaseTable(names)[x := Lower(x)]
  {
    var l, r := LowerCaseTable(names + [x]), LowerCaseTable(names)[x := Lower(x)];
    assert l.Keys == r.Keys by {
      assert (set k | k in names + [x]) == (set k | k in names) + {x};
    }
  }

  /** `eventsArray.reduce((acc, event) => { acc[event] = event.toLowerCase();
      return acc; }, {})` over any list of names. */
  method Build(names: seq<string>) returns (acc: EventObject)
    ensures fresh(acc) && acc.Valid()
    ensures acc.values == LowerCaseTable(names)
    ensures Distinct(names) ==> acc.keys == names
  {
    acc := new EventObject();
    var i := 0;
    while i < |names|
      invariant 0 <= i <= |names|
      invariant acc.Valid()
      invariant acc.values == LowerCaseTable(names[..i])
      invariant Distinct(names) ==> acc.keys == names[..i]
    {
      assert names[..i + 1] == names[..i] + [names[i]];
      TableSnoc(names[..i], names[i]);
      assert Distinct(names) ==> names[i] !in acc.values;
      acc.Assign(names[i], Lower(names[i]));
      i := i + 1;
    }
    assert names[..i] == names;
  }

  /** Lower-casing is one-to-one on names without lower-case letters. */
  lemma LowerInjective(a: string, b: string)
    requires NoLowerCase(a) && NoLowerCase(b)
    requires Lower(a) == Lower(b)
    ensures a == b
  {
    assert |a| == |b|;
    forall i | 0 <= i < |a| ensures a[i] == b[i] {
      assert LowerChar(a[i]) == Lower(a)[i] == Lower(b)[i] == LowerChar(b[i]);
    }
  }

  /** Different names without lower-case letters get different values, and
      no value holds an upper-case letter. */
  lemma TableValuesDistinct(names: seq<string>)
    requires forall i :: 0 <= i < |names| ==> NoLowerCase(names[i])
    ensures forall k1, k2 :: k1 in LowerCaseTable(names) && k2 in LowerCaseTable(names) && k1 != k2
                             ==> LowerCaseTable(names)[k1] != LowerCaseTable(names)[k2]
    ensures forall k :: k in LowerCaseTable(names) ==> !exists i :: 0 <= i < |k| && IsUpperAscii(LowerCaseTable(names)[k][i])
  {
    var t := LowerCaseTable(names);
    forall k1, k2 | k1 in t && k2 in t && k1 != k2 ensures t[k1] != t[k2] {
      if t[k1] == t[k2] {
        LowerInjective(k1, k2);
      }
    }
  }

  /** The five event names have five different lengths. */
  lemma EventNameLengths()
    ensures forall i, j :: 0 <= i < j < |Events| ==> |Events[i]| != |Events[j]|
  {
    assert |Events[0]| == 13 && |Events[1]| == 18 && |Events[2]| == 19;
    assert |Events[3]| == 12 && |Events[4]| == 5;
  }

  /** A canonical decimal numeral, the form of every array-index key, which
      JavaScript lists before the other keys. */
  predicate IndexLike(k: string) {
    k != [] && AllDigits(k) && (k[0] != '0' || |k| == 1)
  }

  /** No event name looks like an array index, so insertion order is the key
      order of `broadcastEvents`. */
  lemma EventNamesNotIndices()
    ensures forall i :: 0 <= i < |Events| ==> !IndexLike(Events[i])
  {
    forall i | 0 <= i < |Events| ensures !IndexLike(Events[i]) {
      assert Events[i][0] == 'J' || Events[i][0] == 'C' || Events[i][0] == 'L';
    }
  }

  /** The keys of the event table are the five event names. */
  lemma EventTableKeys()
    ensures LowerCaseTable(Events).Keys == {"JOIN_RESPONSE", "CONNECTION_REQUEST",
                                            "CONNECTION_RESPONSE", "CHAT_MESSAGE", "LEAVE"}
  {
    var keys := set k | k in Events;
    assert keys == {Events[0], Events[1], Events[2], Events[3], Events[4]} by {
      forall k ensures k in keys <==> k in {Events[0], Events[1], Events[2], Events[3], Events[4]} {
        if k in Events {
          var i :| 0 <= i < |Events| && Events[i] == k;
        }
      }
    }
  }

  /** The event names are pairwise different, and so are the values of the
      table (the event names sent on the wire). */
  lemma EventTableShape()
    ensures Distinct(Events)
    ensures forall i, j :: 0 <= i < j < |Events| ==> Lower(Events[i]) != Lower(Events[j])
  {
    EventNameLengths();
    forall i, j | 0 <= i < j < |Events| ensures Lower(Events[i]) != Lower(Events[j]) {
      assert |Lower(Events[i])| == |Events[i]| != |Events[j]| == |Lower(Events[j])|;
    }
  }

  /** `broadcastEvents`: the keys are the five event names in the order of
      `eventsArray`, each mapped to its lower-case form. */
  method MakeBroadcastEvents() returns (acc: EventObject)
    ensures fresh(acc) && acc.Valid()
    ensures acc.keys == Events
    ensures acc.values == LowerCaseTable(Events)
  {
    EventTableShape();
    acc := Build(Events);
  }
}
