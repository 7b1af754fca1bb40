/** The avatar picture address rewrite (`getOriginalAvatar` in
    src/components/user-avatar.tsx): avatars served by Google or Cloudinary
    are asked for at 360 pixels instead of the size recorded in the address;
    every other address is used as it is. */
module AvatarUrl {
  import opened Text

  const GoogleHost := "lh3.googleusercontent.com"
  const CloudinaryHost := "res.cloudinary.com"

  /** The two global replacements: `/=s\d+(-c)?/g` on the whole address for
      Google and `/w_\d+/g` on the path for Cloudinary. A match is the two
      characters `c0 c1`, one or more digits, and for the Google pattern an
      optional `-c`; it is replaced by `c0 c1 360`. */
  datatype Pattern = Pattern(c0: char, c1: char, dashC: bool)

  const Size := Pattern('=', 's', true)
  const Width := Pattern('w', '_', false)

  predicate ValidPattern(p: Pattern) {
    p == Size || p == Width
  }

  function Replacement(p: Pattern): string {
    [p.c0, p.c1] + "360"
  }

  /** Number of leading digits (the greedy `\d+`). */
  function DigitRun(s: string): (n: nat)
    ensures n <= |s|
    ensures AllDigits(s[..n])
    ensures n < |s| ==> !IsDigit(s[n])
  {
    if s != [] && IsDigit(s[0]) then 1 + DigitRun(s[1..]) else 0
  }

  /** Length of the match of the pattern at the start of `s`, or 0 when
      there is none. */
  function MatchAt(p: Pattern, s: string): (n: nat)
    ensures n <= |s|
    ensures n > 0 ==> n >= 3 && s[0] == p.c0 && s[1] == p.c1 && IsDigit(s[2])
  {
    if |s| >= 3 && s[0] == p.c0 && s[1] == p.c1 && IsDigit(s[2]) then
      var n := 2 + DigitRun(s[2..]);
      if p.dashC && StartsWith(s[n..], "-c") then n + 2 else n
    else 0
  }

  /** `s.replace(pattern, replacement)` with the global flag: scanning left
      to right, every match is replaced and scanning resumes after it. */
  function ReplaceAll(p: Pattern, s: string): string
    decreases |s|
  {
    if s == [] then []
    else
      var n := MatchAt(p, s);
      if n > 0 then Replacement(p) + ReplaceAll(p, s[n..])
      else [s[0]] + ReplaceAll(p, s[1..])
  }

  /** The address as the URL object holds it: `href` is
      `protocol + '//' + hostname + (':' + port) + pathname + tail`, where
      `tail` is the search and hash parts. */
  datatype Url = Url(protocol: string, hostname: string, port: string, pathname: string, tail: string)

  function Prefix(u: Url): string {
    u.protocol + "//" + u.hostname + (if u.port == [] then [] else ":" + u.port)
  }

  function Href(u: Url): string {
    Prefix(u) + u.pathname + u.tail
  }

  /** The specification of `getOriginalAvatar`, whose argument is the
      address `Href(u)`. */
  function OriginalAvatar(u: Url): (r: string)
    ensures u.hostname != GoogleHost && u.hostname != CloudinaryHost ==> r == Href(u)
    ensures u.hostname == CloudinaryHost ==>
              r == Href(Url(u.protocol, u.hostname, u.port, ReplaceAll(Width, u.pathname), u.tail))
  {
    if u.hostname == GoogleHost then ReplaceAll(Size, Href(u))
    else if u.hostname == CloudinaryHost then Href(u.(pathname := ReplaceAll(Width, u.pathname)))
    else Href(u)
  }

  /** The URL object of `getOriginalAvatar`, whose `pathname` the
      Cloudinary branch reassigns before reading `href`. */
  class UrlObject {
    var protocol: string
    var hostname: string
    var port: string
    var pathname: string
    var tail: string

    function Value(): Url
      reads this
    {
      Url(protocol, hostname, port, pathname, tail)
    }

    function HrefOf(): string
      reads this
    {
      Href(Value())
    }

    /** `new URL(imageSrc)`, from the already parsed parts. */
    constructor (u: Url)
      ensures Value() == u
    {
      protocol, hostname, port, pathname, tail := u.protocol, u.hostname, u.port, u.pathname, u.tail;
    }
  }

  /** `getOriginalAvatar(imageSrc)` with `imageSrc == Href(u)`. */
  method GetOriginalAvatar(u: Url) returns (r: string)
    ensures r == OriginalAvatar(u)
  {
    var src := new UrlObject(u);
    var imageSrc := Href(u);
    if src.hostname == GoogleHost {
      r := ReplaceAll(Size, imageSrc);
    } else if src.hostname == CloudinaryHost {
      src.pathname := ReplaceAll(Width, src.pathname);
      r := src.HrefOf();
    } else {
      r := imageSrc;
    }
  }

  // ---------------------------------------------------------------------
  // Properties of the global replacement.

  /** A string in which the pattern matches nowhere is left unchanged. */
  lemma {:induction false} NoMatchUnchanged(p: Pattern, s: string)
    requires forall i :: 0 <= i < |s| ==> MatchAt(p, s[i..]) == 0
    ensures ReplaceAll(p, s) == s
    decreases |s|
  {
    if s != [] {
      assert s[0..] == s;
      forall i | 0 <= i < |s| - 1 ensures MatchAt(p, s[1..][i..]) == 0 {
        assert s[1..][i..] == s[i + 1..];
      }
      NoMatchUnchanged(p, s[1..]);
    }
  }

  /** The first character of the result: the replacement's when the pattern
      matches at the start, the input's otherwise. */
  lemma HeadOfReplace(p: Pattern, t: string)
    requires t != []
    ensures ReplaceAll(p, t) != []
    ensures ReplaceAll(p, t)[0] == if MatchAt(p, t) > 0 then p.c0 else t[0]
  {
  }

  lemma DigitRunAppend(a: string, b: string)
    requires b == [] || !IsDigit(b[0])
    ensures DigitRun(a + b) == DigitRun(a)
    decreases |a|
  {
    if a == [] {
      assert a + b == b;
    } else {
      assert (a + b)[1..] == a[1..] + b;
      DigitRunAppend(a[1..], b);
    }
  }

  /** What may follow a match so that re-scanning the replacement finds
      exactly the replacement again: no digit, and for the Google pattern
      no `-c`. */
  predicate Clean(p: Pattern, t: string) {
    (t == [] || !IsDigit(t[0])) && (!p.dashC || !StartsWith(t, "-c"))
  }

  /** Every match in `s` is followed by a clean remainder. */
  predicate Tame(p: Pattern, s: string)
    decreases |s|
  {
    if s == [] then true
    else
      var n := MatchAt(p, s);
      if n > 0 then Clean(p, s[n..]) && Tame(p, s[n..]) else Tame(p, s[1..])
  }

  /** The Cloudinary pattern has no optional part, so its greedy digit run
      always leaves a clean remainder. */
  lemma {:induction false} WidthAlwaysTame(s: string)
    ensures Tame(Width, s)
    decreases |s|
  {
    if s != [] {
      var n := MatchAt(Width, s);
      if n > 0 {
        assert s[n..] == s[2..][DigitRun(s[2..])..];
        WidthAlwaysTame(s[n..]);
      } else {
        WidthAlwaysTame(s[1..]);
      }
    }
  }

  /** A clean remainder stays clean once replaced. */
  lemma CleanAfterReplace(p: Pattern, t: string)
    requires ValidPattern(p) && Clean(p, t)
    ensures Clean(p, ReplaceAll(p, t))
  {
    if t != [] {
      HeadOfReplace(p, t);
      var r := ReplaceAll(p, t);
      if p.dashC && StartsWith(r, "-c") {
        assert MatchAt(p, t) == 0;
        assert r == [t[0]] + ReplaceAll(p, t[1..]);
        if t[1..] != [] {
          HeadOfReplace(p, t[1..]);
        }
        assert false;
      }
    }
  }

  /** Re-scanning a replacement followed by a clean string matches exactly
      the replacement. */
  lemma MatchOfReplacement(p: Pattern, v: string)
    requires ValidPattern(p) && Clean(p, v)
    ensures MatchAt(p, Replacement(p) + v) == 5
  {
    var x := Replacement(p) + v;
    assert x[2..] == "360" + v;
    DigitRunAppend("360", v);
    assert x[5..] == v;
  }

  /** Prepending a character the pattern did not match at leaves no match
      once the rest has been replaced. */
  lemma NoMatchAfterReplace(p: Pattern, s: string)
    requires ValidPattern(p) && s != [] && MatchAt(p, s) == 0
    ensures MatchAt(p, [s[0]] + ReplaceAll(p, s[1..])) == 0
  {
    var u := ReplaceAll(p, s[1..]);
    var x := [s[0]] + u;
    if s[0] == p.c0 && |x| >= 3 {
      assert |s| >= 2;
      HeadOfReplace(p, s[1..]);
      if MatchAt(p, s[1..]) == 0 && s[1] == p.c1 {
        assert u == [s[1]] + ReplaceAll(p, s[2..]);
        assert |s| >= 3;
        HeadOfReplace(p, s[2..]);
      }
    }
  }

  /** Replacing twice is replacing once, for strings whose matches are
      followed by a clean remainder. */
  lemma {:induction false} ReplaceIdempotent(p: Pattern, s: string)
    requires ValidPattern(p) && Tame(p, s)
    ensures ReplaceAll(p, ReplaceAll(p, s)) == ReplaceAll(p, s)
    decreases |s|
  {
    if s != [] {
      var n := MatchAt(p, s);
      if n > 0 {
        var t := s[n..];
        var v := ReplaceAll(p, t);
        CleanAfterReplace(p, t);
        MatchOfReplacement(p, v);
        assert (Replacement(p) + v)[5..] == v;
        ReplaceIdempotent(p, t);
      } else {
        NoMatchAfterReplace(p, s);
        var v := ReplaceAll(p, s[1..]);
        assert ([s[0]] + v)[1..] == v;
        ReplaceIdempotent(p, s[1..]);
      }
    }
  }

  // ---------------------------------------------------------------------
  // Replacing in the whole address is replacing in its parts.

  predicate NoChar(s: string, c: char) {
    forall i :: 0 <= i < |s| ==> s[i] != c
  }

  /** A character that cannot extend a match reaching the end of a part. */
  predicate Boundary(p: Pattern, b: string) {
    b == [] || (!IsDigit(b[0]) && b[0] != p.c0 && b[0] != p.c1 && b[0] != '-' && b[0] != 'c')
  }

  lemma {:induction false} ReplaceAfterInert(p: Pattern, a: string, b: string)
    requires NoChar(a, p.c0)
    ensures ReplaceAll(p, a + b) == a + ReplaceAll(p, b)
    decreases |a|
  {
    if a == [] {
      assert a + b == b;
    } else {
      assert (a + b)[0] == a[0];
      assert (a + b)[1..] == a[1..] + b;
      ReplaceAfterInert(p, a[1..], b);
    }
  }

  /** `-c` is not found across the end of a part followed by a boundary. */
  lemma DashCBeforeBoundary(p: Pattern, r: string, b: string)
    requires b != [] && Boundary(p, b)
    ensures StartsWith(r + b, "-c") == StartsWith(r, "-c")
  {
    if |r| == 0 {
      assert (r + b)[0] == b[0];
    } else if |r| == 1 {
      assert (r + b)[1] == b[0];
    } else {
      assert (r + b)[..2] == r[..2];
    }
  }

  /** A match at the start of `x` is not lengthened by a boundary after it. */
  lemma MatchingBeforeBoundary(p: Pattern, x: string, b: string)
    requires |x| >= 3 && x[0] == p.c0 && x[1] == p.c1 && IsDigit(x[2])
    requires b != [] && Boundary(p, b)
    ensures MatchAt(p, x + b) == MatchAt(p, x)
  {
    var y := x + b;
    assert y[0] == x[0] && y[1] == x[1] && y[2] == x[2];
    assert y[2..] == x[2..] + b;
    DigitRunAppend(x[2..], b);
    var n := 2 + DigitRun(x[2..]);
    assert y[n..] == x[n..] + b;
    if p.dashC {
      DashCBeforeBoundary(p, x[n..], b);
    }
  }

  lemma MatchBeforeBoundary(p: Pattern, x: string, b: string)
    requires x != [] && Boundary(p, b)
    ensures MatchAt(p, x + b) == MatchAt(p, x)
  {
    var y := x + b;
    if b == [] {
      assert y == x;
    } else if |x| >= 3 {
      assert y[..3] == x[..3];
      if x[0] == p.c0 && x[1] == p.c1 && IsDigit(x[2]) {
        MatchingBeforeBoundary(p, x, b);
      }
    } else if |x| == 1 {
      assert |y| < 2 || y[1] == b[0];
    } else {
      assert |y| < 3 || y[2] == b[0];
    }
  }

  /** The first step of the scan over `a + b` is the first step over `a`
      when `b` starts at a boundary. */
  lemma ReplaceAppendHead(p: Pattern, a: string, b: string)
    requires a != [] && Boundary(p, b)
    ensures MatchAt(p, a) > 0 ==>
              ReplaceAll(p, a + b) == Replacement(p) + ReplaceAll(p, a[MatchAt(p, a)..] + b)
    ensures MatchAt(p, a) == 0 ==> ReplaceAll(p, a + b) == [a[0]] + ReplaceAll(p, a[1..] + b)
  {
    var y := a + b;
    MatchBeforeBoundary(p, a, b);
    var n := MatchAt(p, a);
    if n > 0 {
      assert y[n..] == a[n..] + b;
    } else {
      assert y[0] == a[0];
      assert y[1..] == a[1..] + b;
    }
  }

  /** Replacing in `a + b` is replacing in `a` and in `b` when `b` starts at
      a boundary: no match straddles the seam. */
  lemma {:induction false} ReplaceSplits(p: Pattern, a: string, b: string)
    requires Boundary(p, b)
    ensures ReplaceAll(p, a + b) == ReplaceAll(p, a) + ReplaceAll(p, b)
    decreases |a|, 1
  {
    if a == [] {
      assert a + b == b;
    } else if MatchAt(p, a) > 0 {
      ReplaceSplitsAfterMatch(p, a, b);
    } else {
      ReplaceSplitsAfterChar(p, a, b);
    }
  }

  lemma {:induction false} ReplaceSplitsAfterMatch(p: Pattern, a: string, b: string)
    requires Boundary(p, b) && a != [] && MatchAt(p, a) > 0
    ensures ReplaceAll(p, a + b) == ReplaceAll(p, a) + ReplaceAll(p, b)
    decreases |a|, 0
  {
    ReplaceAppendHead(p, a, b);
    var n := MatchAt(p, a);
    ReplaceSplits(p, a[n..], b);
    var r, s, t := Replacement(p), ReplaceAll(p, a[n..]), ReplaceAll(p, b);
    assert r + (s + t) == (r + s) + t;
  }

  lemma {:induction false} ReplaceSplitsAfterChar(p: Pattern, a: string, b: string)
    requires Boundary(p, b) && a != [] && MatchAt(p, a) == 0
    ensures ReplaceAll(p, a + b) == ReplaceAll(p, a) + ReplaceAll(p, b)
    decreases |a|, 0
  {
    ReplaceAppendHead(p, a, b);
    ReplaceSplits(p, a[1..], b);
    var r, s, t := [a[0]], ReplaceAll(p, a[1..]), ReplaceAll(p, b);
    assert r + (s + t) == (r + s) + t;
  }

  /** An address whose parts the URL parser would give back from `Href`:
      no `=` before the path, and a search or hash part that is empty or
      starts with `?` or `#`. */
  predicate WellFormed(u: Url) {
    NoChar(Prefix(u), '=')
    && (u.tail == [] || u.tail[0] == '?' || u.tail[0] == '#')
  }

  /** The parts of the address that `getOriginalAvatar` returns. */
  function Rewritten(u: Url): Url {
    if u.hostname == GoogleHost then
      u.(pathname := ReplaceAll(Size, u.pathname), tail := ReplaceAll(Size, u.tail))
    else if u.hostname == CloudinaryHost then u.(pathname := ReplaceAll(Width, u.pathname))
    else u
  }

  /** Replacing in a prefix without the pattern's first character, a part
      and a part starting at a boundary is replacing in the two parts. */
  lemma ReplaceInParts(p: Pattern, pre: string, path: string, tail: string)
    requires NoChar(pre, p.c0) && Boundary(p, tail)
    ensures ReplaceAll(p, pre + path + tail) == pre + ReplaceAll(p, path) + ReplaceAll(p, tail)
  {
    assert pre + path + tail == pre + (path + tail);
    ReplaceAfterInert(p, pre, path + tail);
    ReplaceSplits(p, path, tail);
  }

  /** For Google the replacement over the whole address only touches the
      path and the search and hash parts; host and protocol are kept. */
  lemma GoogleRewriteParts(u: Url)
    requires WellFormed(u) && u.hostname == GoogleHost
    ensures OriginalAvatar(u) == Href(Rewritten(u))
  {
    assert Boundary(Size, u.tail);
    ReplaceInParts(Size, Prefix(u), u.pathname, u.tail);
    assert Prefix(Rewritten(u)) == Prefix(u);
  }

  /** The rewrite is idempotent: rewriting the address it returns (whose
      parts are `Rewritten(u)`: same host, still well formed when it was)
      gives the same address again. Only for Google does this need the
      parts to be well formed and every `=s<digits>-c` to be followed by
      neither a digit nor another `-c`; see `GoogleRewriteNotIdempotent`
      for what happens otherwise. */
  lemma RewriteIdempotent(u: Url)
    requires u.hostname == GoogleHost ==> WellFormed(u) && Tame(Size, u.pathname) && Tame(Size, u.tail)
    ensures Href(Rewritten(u)) == OriginalAvatar(u)
    ensures Rewritten(u).hostname == u.hostname
    ensures WellFormed(u) ==> WellFormed(Rewritten(u))
    ensures OriginalAvatar(Rewritten(u)) == OriginalAvatar(u)
  {
    var v := Rewritten(u);
    if u.hostname == GoogleHost {
      GoogleRewriteParts(u);
      if u.tail != [] { HeadOfReplace(Size, u.tail); }
      assert Prefix(v) == Prefix(u);
      GoogleRewriteParts(v);
      ReplaceIdempotent(Size, u.pathname);
      ReplaceIdempotent(Size, u.tail);
    } else if u.hostname == CloudinaryHost {
      WidthAlwaysTame(u.pathname);
      ReplaceIdempotent(Width, u.pathname);
      assert Prefix(v) == Prefix(u);
    }
  }

  /** A Google address with no `=s<digits>` anywhere is returned as it is. */
  lemma GoogleWithoutSizeUnchanged(u: Url)
    requires u.hostname == GoogleHost
    requires forall i :: 0 <= i < |Href(u)| ==> MatchAt(Size, Href(u)[i..]) == 0
    ensures OriginalAvatar(u) == Href(u)
  {
    NoMatchUnchanged(Size, Href(u));
  }

  /** Host matching is exact: a host that only ends with one of the two
      (a sub-domain, or a look-alike such as `evil` + the Google host) is
      left alone. */
  lemma SubdomainNotRewritten(u: Url, pre: string)
    requires pre != [] && (u.hostname == pre + GoogleHost || u.hostname == pre + CloudinaryHost)
    ensures OriginalAvatar(u) == Href(u)
  {
    if u.hostname == pre + CloudinaryHost && |pre| == 7 {
      assert u.hostname[7] == CloudinaryHost[0] == 'r';
      assert GoogleHost[7] == 'g';
    }
    assert u.hostname != GoogleHost && u.hostname != CloudinaryHost;
  }

  lemma ReplaceDashC()
    ensures ReplaceAll(Size, "-c") == "-c"
  {
    assert MatchAt(Size, "-c") == 0 && MatchAt(Size, "c") == 0;
    assert "-c"[1..] == "c";
    assert "c"[1..] == [];
  }

  lemma FirstPass()
    ensures ReplaceAll(Size, "=s1-c-c") == "=s360-c"
  {
    var s := "=s1-c-c";
    assert DigitRun(s[2..]) == 1;
    assert MatchAt(Size, s) == 5;
    assert s[5..] == "-c";
    ReplaceDashC();
  }

  lemma SecondPass()
    ensures ReplaceAll(Size, "=s360-c") == "=s360"
  {
    var t := "=s360-c";
    assert DigitRun("-c") == 0;
    assert DigitRun("0-c") == 1 by { assert "0-c"[1..] == "-c"; }
    assert DigitRun("60-c") == 2 by { assert "60-c"[1..] == "0-c"; }
    assert DigitRun("360-c") == 3 by { assert "360-c"[1..] == "60-c"; }
    assert t[2..] == "360-c";
    assert MatchAt(Size, t) == 7;
    assert t[7..] == [];
  }

  /** `=s1-c-c` becomes `=s360-c` on the first pass and `=s360` on the
      second: the Google rewrite is not idempotent in general. */
  lemma GoogleRewriteNotIdempotent()
    ensures ReplaceAll(Size, "=s1-c-c") == "=s360-c"
    ensures ReplaceAll(Size, ReplaceAll(Size, "=s1-c-c")) != ReplaceAll(Size, "=s1-c-c")
  {
    FirstPass();
    SecondPass();
  }
}
