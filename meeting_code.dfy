/** The meeting code handed out when a room is created (`generateMeetingCode`
    in src/server/db/meeting.ts): three slices of the decimal text of a random
    number, joined by dashes. The random text is a parameter here. */
module MeetingCode {
  import opened Text

  function Min(a: int, b: int): int { if a < b then a else b }

  /** JavaScript `s.slice(from, to)` for non-negative bounds: both bounds are
      clamped to the length and an empty range gives the empty string. */
  function Slice(s: string, from: nat, to: nat): (r: string)
    ensures |r| == if Min(from, |s|) < Min(to, |s|) then Min(to, |s|) - Min(from, |s|) else 0
    ensures forall k :: 0 <= k < |r| ==> r[k] == s[from + k]
  {
    var a := Min(from, |s|);
    var b := Min(to, |s|);
    if a < b then s[a..b] else []
  }

  /** `${num.slice(2, 5)}-${num.slice(5, 8)}-${num.slice(8, 11)}` */
  function Code(num: string): (code: string)
    ensures |code| == 2 + (if |num| <= 2 then 0 else Min(|num|, 11) - 2)
    ensures |num| >= 11 ==> code[3] == '-' && code[7] == '-'
  {
    Slice(num, 2, 5) + "-" + Slice(num, 5, 8) + "-" + Slice(num, 8, 11)
  }

  /** The two leading characters (the `0.` of the random number's text) and
      everything from index 11 on never influence the code: it is a function
      of `num[2..11]` alone (clamped to the length). */
  lemma CodeIgnoresOutside(a: string, b: string)
    requires a[Min(2, |a|)..Min(11, |a|)] == b[Min(2, |b|)..Min(11, |b|)]
    ensures Code(a) == Code(b)
  {
    var wa, wb := a[Min(2, |a|)..Min(11, |a|)], b[Min(2, |b|)..Min(11, |b|)];
    assert Min(|a|, 11) == Min(|b|, 11) || (|a| <= 2 && |b| <= 2) by {
      assert |wa| == |wb|;
    }
    SliceOfWindow(a, 2, 5);
    SliceOfWindow(a, 5, 8);
    SliceOfWindow(a, 8, 11);
    SliceOfWindow(b, 2, 5);
    SliceOfWindow(b, 5, 8);
    SliceOfWindow(b, 8, 11);
  }

  /** A slice inside [2, 11) reads only the window `s[2..11]` (clamped). */
  lemma SliceOfWindow(s: string, from: nat, to: nat)
    requires 2 <= from <= to <= 11
    ensures var w := s[Min(2, |s|)..Min(11, |s|)];
            Slice(s, from, to) == Slice(w, from - 2, to - 2)
  {
    var w := s[Min(2, |s|)..Min(11, |s|)];
    var r, q := Slice(s, from, to), Slice(w, from - 2, to - 2);
    assert |r| == |q|;
    forall k | 0 <= k < |r| ensures r[k] == q[k] {
      assert q[k] == w[from - 2 + k];
    }
  }

  /** Removes every dash. */
  function Undash(s: string): (r: string)
    ensures |r| <= |s|
  {
    if s == [] then [] else (if s[0] == '-' then [] else [s[0]]) + Undash(s[1..])
  }

  lemma {:induction false} UndashAppend(a: string, b: string)
    ensures Undash(a + b) == Undash(a) + Undash(b)
  {
    if a == [] {
      assert a + b == b;
    } else {
      assert (a + b)[0] == a[0];
      assert (a + b)[1..] == a[1..] + b;
      UndashAppend(a[1..], b);
    }
  }

  lemma {:induction false} UndashNoDash(s: string)
    requires forall k :: 0 <= k < |s| ==> s[k] != '-'
    ensures Undash(s) == s
  {
    if s != [] { UndashNoDash(s[1..]); }
  }

  /** Deleting the two inserted dashes gives back the characters the code was
      cut from, `num[2..11]` clamped to the length, when those contain no
      dash (what follows index 10 does not matter). */
  lemma CodeUndash(num: string)
    requires forall k :: 2 <= k < 11 && k < |num| ==> num[k] != '-'
    ensures Undash(Code(num)) == num[Min(2, |num|)..Min(11, |num|)]
  {
    var s1, s2, s3 := Slice(num, 2, 5), Slice(num, 5, 8), Slice(num, 8, 11);
    UndashNoDash(s1);
    UndashNoDash(s2);
    UndashNoDash(s3);
    assert Undash("-") == [];
    calc {
      Undash(Code(num));
      Undash(s1 + "-" + s2 + "-" + s3);
      { UndashAppend(s1 + "-" + s2 + "-", s3); }
      Undash(s1 + "-" + s2 + "-") + s3;
      { UndashAppend(s1 + "-" + s2, "-"); }
      Undash(s1 + "-" + s2) + s3;
      { UndashAppend(s1 + "-", s2); }
      Undash(s1 + "-") + s2 + s3;
      { UndashAppend(s1, "-"); }
      s1 + s2 + s3;
      { SliceJoin(num, 2, 5, 8); SliceJoin(num, 2, 8, 11); }
      Slice(num, 2, 11);
    }
  }

  /** Adjacent slices join into one. */
  lemma SliceJoin(s: string, a: nat, b: nat, c: nat)
    requires a <= b <= c
    ensures Slice(s, a, b) + Slice(s, b, c) == Slice(s, a, c)
  {
  }

  /** The shape `ddd-ddd-ddd` that meeting codes are meant to have. */
  predicate WellFormedCode(code: string) {
    |code| == 11 && code[3] == '-' && code[7] == '-'
    && AllDigits(code[..3]) && AllDigits(code[4..7]) && AllDigits(code[8..])
  }

  /** The code is well formed exactly when the random text has at least 11
      characters and characters 2 to 10 are digits. */
  lemma CodeWellFormedIff(num: string)
    ensures WellFormedCode(Code(num)) <==> |num| >= 11 && AllDigits(num[2..11])
  {
    var code := Code(num);
    if |num| >= 11 {
      assert code[..3] == num[2..5];
      assert code[4..7] == num[5..8];
      assert code[8..] == num[8..11];
      if WellFormedCode(code) {
        forall k | 2 <= k < 11 ensures IsDigit(num[k]) {
          if k < 5 { assert num[k] == code[..3][k - 2]; }
          else if k < 8 { assert num[k] == code[4..7][k - 5]; }
          else { assert num[k] == code[8..][k - 8]; }
        }
      }
      if AllDigits(num[2..11]) {
        var d := num[2..11];
        forall k | 0 <= k < 3 ensures IsDigit(code[..3][k]) && IsDigit(code[4..7][k]) && IsDigit(code[8..][k]) {
          assert code[..3][k] == d[k];
          assert code[4..7][k] == d[k + 3];
          assert code[8..][k] == d[k + 6];
        }
      }
    }
  }

  /** A short random text gives a short code with no padding: the number
      one half, whose text is `0.5`, gives `5--`. */
  lemma ShortTextShortCode()
    ensures Code("0.5") == "5--"
    ensures !WellFormedCode(Code("0.5"))
  {
  }

  /** The text of a random number below 10^-6 is in exponent form. With few
      significant digits its `e` or `-` falls within characters 2 to 10 and
      reaches the code: `1.2e-7` gives `2e--7-` (not well formed, and whose
      dashes deleted give `2e7` rather than `2e-7`), and `5e-7` gives `-7--`
      (see `SingleDigitExponentCode`). */
  lemma ExponentTextCode()
    ensures Code("1.2e-7") == "2e--7-"
    ensures !WellFormedCode(Code("1.2e-7"))
    ensures Undash(Code("1.2e-7")) == "2e7" != "1.2e-7"[2..]
  {
    var num := "1.2e-7";
    assert Slice(num, 2, 5) == "2e-";
    assert Slice(num, 5, 8) == "7";
    assert Slice(num, 8, 11) == [];
    var code := Code(num);
    assert code == "2e--7-";
    assert !IsDigit(code[1]);
    UndashAppend("2e", "--7-");
    UndashAppend("--", "7-");
    UndashAppend("7", "-");
    assert Undash("2e") == "2e" by { UndashAppend("2", "e"); }
    assert Undash("--") == [] by { UndashAppend("-", "-"); }
  }

  /** With the usual 16 or 17 significant digits, exponent form stays behind
      index 10 and the code is well formed. */
  lemma LongExponentTextCode()
    ensures Code("1.2345678901234567e-7") == "234-567-890"
    ensures WellFormedCode(Code("1.2345678901234567e-7"))
  {
    var num := "1.2345678901234567e-7";
    assert Slice(num, 2, 5) == "234" by { assert num[2..5] == "234"; }
    assert Slice(num, 5, 8) == "567" by { assert num[5..8] == "567"; }
    assert Slice(num, 8, 11) == "890" by { assert num[8..11] == "890"; }
    var code := Code(num);
    assert code == "234-567-890";
    assert code[..3] == "234" && code[4..7] == "567" && code[8..] == "890";
  }

  /** `5e-7`: the exponent itself lands in the code, which has a leading
      dash and no well-formed group. */
  lemma SingleDigitExponentCode()
    ensures Code("5e-7") == "-7--"
    ensures !WellFormedCode(Code("5e-7"))
  {
    var num := "5e-7";
    assert Slice(num, 2, 5) == "-7" by { assert num[2..4] == "-7"; }
    assert Slice(num, 5, 8) == [];
    assert Slice(num, 8, 11) == [];
  }
}
