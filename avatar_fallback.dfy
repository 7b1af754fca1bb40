/** The initials shown in place of a missing avatar picture
    (`getUserAvatarFallback` in src/lib/utils.ts). The name is split on runs
    of white space; the first two pieces decide the result. */
module AvatarFallback {
  import opened Text

  predicate NoSpace(s: string) {
    forall i :: 0 <= i < |s| ==> !IsSpace(s[i])
  }

  /** Index of the first white-space character, or |s| when there is none. */
  function FirstSpace(s: string): (i: nat)
    ensures i <= |s|
    ensures NoSpace(s[..i])
    ensures i < |s| ==> IsSpace(s[i])
  {
    if s == [] || IsSpace(s[0]) then 0 else 1 + FirstSpace(s[1..])
  }

  /** Index just past the run of white space that starts at `i`. */
  function SpaceRunEnd(s: string, i: nat): (j: nat)
    requires i <= |s|
    ensures i <= j <= |s|
    ensures AllSpaces(s[i..j])
    ensures j < |s| ==> !IsSpace(s[j])
    decreases |s| - i
  {
    if i < |s| && IsSpace(s[i]) then SpaceRunEnd(s, i + 1) else i
  }

  /** `s.split(/\s+/)`: the pieces between maximal runs of white space. A
      leading run gives an empty first piece and a trailing run an empty last
      piece; the empty string gives one empty piece. */
  function Split(s: string): (pieces: seq<string>)
    ensures |pieces| >= 1 && pieces[0] == s[..FirstSpace(s)]
    ensures forall k :: 0 <= k < |pieces| ==> NoSpace(pieces[k])
    ensures forall k :: 0 < k < |pieces| - 1 ==> pieces[k] != []
    ensures FirstSpace(s) == |s| ==> pieces == [s]
    decreases |s|
  {
    var i := FirstSpace(s);
    if i == |s| then [s]
    else
      var j := SpaceRunEnd(s, i);
      var rest := Split(s[j..]);
      assert j < |s| ==> FirstSpace(s[j..]) > 0;
      [s[..i]] + rest
  }

  /** Splitting a word, a run of white space and a remainder that does not
      start with white space gives the word followed by the remainder's pieces. */
  lemma {:induction false} SplitCons(w: string, sep: string, t: string)
    requires NoSpace(w) && sep != [] && AllSpaces(sep)
    requires t == [] || !IsSpace(t[0])
    ensures Split(w + sep + t) == [w] + Split(t)
  {
    var s := w + sep + t;
    FirstSpaceOfWord(w, sep + t);
    assert s == w + (sep + t);
    RunEndOfSep(s, |w|, |w| + |sep|);
    assert s[..|w|] == w;
    assert s[|w| + |sep|..] == t;
  }

  lemma {:induction false} FirstSpaceOfWord(w: string, t: string)
    requires NoSpace(w) && t != [] && IsSpace(t[0])
    ensures FirstSpace(w + t) == |w|
    decreases |w|
  {
    var s := w + t;
    if w != [] {
      assert s[0] == w[0] && !IsSpace(w[0]);
      assert s[1..] == w[1..] + t;
      assert NoSpace(w[1..]) by {
        forall i | 0 <= i < |w| - 1 ensures !IsSpace(w[1..][i]) {
          assert w[1..][i] == w[i + 1];
        }
      }
      FirstSpaceOfWord(w[1..], t);
      assert FirstSpace(s) == 1 + FirstSpace(s[1..]);
    } else {
      assert s == t && IsSpace(s[0]);
    }
  }

  lemma {:induction false} RunEndOfSep(s: string, i: nat, j: nat)
    requires i <= j <= |s|
    requires AllSpaces(s[i..j]) && (j == |s| || !IsSpace(s[j]))
    ensures SpaceRunEnd(s, i) == j
    decreases j - i
  {
    if i < j {
      assert IsSpace(s[i..j][0]);
      assert s[i + 1..j] == s[i..j][1..];
      RunEndOfSep(s, i + 1, j);
    }
  }

  /** `getUserAvatarFallback(name)`. An empty first piece gives `''`; a
      non-empty second piece gives both initials; otherwise the first one or
      two characters of the first piece, upper-cased. */
  function Fallback(name: string): (r: string)
    ensures |r| <= 2
    ensures forall i :: 0 <= i < |r| ==> !IsLowerAscii(r[i])
    ensures r == [] <==> name == [] || IsSpace(name[0])
  {
    var pieces := Split(name);
    var first := pieces[0];
    if first == [] then []
    else if |pieces| >= 2 && pieces[1] != [] then [UpperChar(first[0]), UpperChar(pieces[1][0])]
    else Upper(first[..if |first| < 2 then |first| else 2])
  }

  /** Two words: the upper-cased initial of each; whatever follows the
      second word's white-space terminator never matters. */
  lemma TwoWords(first: string, sep: string, second: string, rest: string)
    requires first != [] && NoSpace(first) && second != [] && NoSpace(second)
    requires sep != [] && AllSpaces(sep)
    requires rest == [] || IsSpace(rest[0])
    ensures Fallback(first + sep + second + rest) == [UpperChar(first[0]), UpperChar(second[0])]
  {
    assert first + sep + second + rest == first + sep + (second + rest);
    SplitCons(first, sep, second + rest);
    if rest == [] {
      assert second + rest == second;
    } else {
      FirstSpaceOfWord(second, rest);
      assert (second + rest)[..|second|] == second;
    }
  }

  /** One word, possibly followed by white space: its first two characters
      (one for a one-letter word), upper-cased. */
  lemma OneWord(w: string, trail: string)
    requires w != [] && NoSpace(w) && AllSpaces(trail)
    ensures Fallback(w + trail) == Upper(w[..if |w| < 2 then |w| else 2])
  {
    if trail == [] {
      assert w + trail == w;
      assert FirstSpace(w) == |w|;
    } else {
      SplitCons(w, trail, []);
      assert w + trail + [] == w + trail;
      assert Split([]) == [[]];
    }
  }

  function Concat(pieces: seq<string>): string {
    if pieces == [] then [] else pieces[0] + Concat(pieces[1..])
  }

  function RemoveSpaces(s: string): string {
    if s == [] then [] else (if IsSpace(s[0]) then [] else [s[0]]) + RemoveSpaces(s[1..])
  }

  lemma {:induction false} RemoveSpacesAppend(a: string, b: string)
    ensures RemoveSpaces(a + b) == RemoveSpaces(a) + RemoveSpaces(b)
  {
    if a != [] {
      assert (a + b)[0] == a[0];
      assert (a + b)[1..] == a[1..] + b;
      RemoveSpacesAppend(a[1..], b);
    } else {
      assert a + b == b;
    }
  }

  /** Splitting loses exactly the white space: the pieces joined back
      together are the input with every white-space character removed. */
  lemma {:induction false} SplitLosesOnlySpaces(s: string)
    ensures Concat(Split(s)) == RemoveSpaces(s)
    decreases |s|, 1
  {
    var i := FirstSpace(s);
    if i == |s| {
      NoSpaceKept(s[..i]);
      assert s[..i] == s;
      assert Split(s) == [s];
      ConcatCons(s, []);
    } else {
      SplitLosesAtSpace(s);
    }
  }

  lemma {:induction false} SplitLosesAtSpace(s: string)
    requires FirstSpace(s) < |s|
    ensures Concat(Split(s)) == RemoveSpaces(s)
    decreases |s|, 0
  {
    var i := FirstSpace(s);
    var j := SpaceRunEnd(s, i);
    var u, v, w := s[..i], s[i..j], s[j..];
    assert u + v + w == s;
    assert Split(s) == [u] + Split(w);
    ConcatCons(u, Split(w));
    SplitLosesOnlySpaces(w);
    NoSpaceKept(u);
    SpacesRemoved(v);
    RemoveSpacesAppend(u, v);
    RemoveSpacesAppend(u + v, w);
    assert RemoveSpaces(u + v) == u;
  }

  lemma ConcatCons(x: string, rest: seq<string>)
    ensures Concat([x] + rest) == x + Concat(rest)
  {
    assert ([x] + rest)[1..] == rest;
  }

  lemma {:induction false} NoSpaceKept(w: string)
    requires NoSpace(w)
    ensures RemoveSpaces(w) == w
  {
    if w != [] { NoSpaceKept(w[1..]); }
  }

  lemma {:induction false} SpacesRemoved(w: string)
    requires AllSpaces(w)
    ensures RemoveSpaces(w) == []
  {
    if w != [] { SpacesRemoved(w[1..]); }
  }
}
