/** Character classes and string operations of the JavaScript runtime that the
    modelled helpers rely on: `String.prototype.trim`, the regular-expression
    class `\s`, and `toUpperCase`/`toLowerCase` restricted to ASCII. */
module Text {

  /** ECMAScript WhiteSpace and LineTerminator code points: the set that both
      `trim()` strips and the regular-expression class `\s` matches. */
  predicate IsSpace(c: char) {
    c == '\t' || c == '\n' || c == '\U{000B}' || c == '\U{000C}' || c == '\r' || c == ' '
    || c == '\U{00A0}' || c == '\U{1680}' || ('\U{2000}' <= c <= '\U{200A}')
    || c == '\U{2028}' || c == '\U{2029}' || c == '\U{202F}' || c == '\U{205F}'
    || c == '\U{3000}' || c == '\U{FEFF}'
  }

  predicate IsAsciiLetter(c: char) {
    ('a' <= c <= 'z') || ('A' <= c <= 'Z')
  }

  predicate IsLowerAscii(c: char) { 'a' <= c <= 'z' }

  predicate IsUpperAscii(c: char) { 'A' <= c <= 'Z' }

  predicate IsDigit(c: char) { '0' <= c <= '9' }

  predicate AllLetters(s: string) {
    forall i :: 0 <= i < |s| ==> IsAsciiLetter(s[i])
  }

  predicate AllSpaces(s: string) {
    forall i :: 0 <= i < |s| ==> IsSpace(s[i])
  }

  predicate AllDigits(s: string) {
    forall i :: 0 <= i < |s| ==> IsDigit(s[i])
  }

  /** `s.startsWith(prefix)`. */
  function StartsWith(s: string, prefix: string): bool {
    |prefix| <= |s| && s[..|prefix|] == prefix
  }

  /** `toUpperCase` of one character, for the ASCII range. */
  function UpperChar(c: char): (u: char)
    ensures !IsLowerAscii(u)
    ensures !IsLowerAscii(c) ==> u == c
    ensures IsAsciiLetter(c) <==> IsAsciiLetter(u)
  {
    if IsLowerAscii(c) then (c as int - 32) as char else c
  }

  /** `toLowerCase` of one character, for the ASCII range. */
  function LowerChar(c: char): (l: char)
    ensures !IsUpperAscii(l)
    ensures !IsUpperAscii(c) ==> l == c
  {
    if IsUpperAscii(c) then (c as int + 32) as char else c
  }

  function Upper(s: string): (u: string)
    ensures |u| == |s|
    ensures forall i :: 0 <= i < |s| ==> u[i] == UpperChar(s[i])
  {
    if s == [] then [] else [UpperChar(s[0])] + Upper(s[1..])
  }

  function Lower(s: string): (l: string)
    ensures |l| == |s|
    ensures forall i :: 0 <= i < |s| ==> l[i] == LowerChar(s[i])
  {
    if s == [] then [] else [LowerChar(s[0])] + Lower(s[1..])
  }

  /** The number of white-space characters at the start of `s`. */
  function LeadingSpaces(s: string): (n: nat)
    ensures n <= |s|
  {
    if |s| > 0 && IsSpace(s[0]) then 1 + LeadingSpaces(s[1..]) else 0
  }

  /** The length of `s` without its trailing white space. */
  function TrailingStart(s: string): (n: nat)
    ensures n <= |s|
  {
    if |s| > 0 && IsSpace(s[|s| - 1]) then TrailingStart(s[..|s| - 1]) else |s|
  }

  /** Strips the leading white space. */
  function TrimStart(s: string): string {
    s[LeadingSpaces(s)..]
  }

  /** Strips the trailing white space. */
  function TrimEnd(s: string): string {
    s[..TrailingStart(s)]
  }

  /** `String.prototype.trim`. */
  function Trim(s: string): string {
    TrimEnd(TrimStart(s))
  }

  /** The leading white space is all white space, and what follows it does
      not start with white space. */
  lemma {:induction false} LeadingSpacesShape(s: string)
    ensures AllSpaces(s[..LeadingSpaces(s)])
    ensures LeadingSpaces(s) == |s| || !IsSpace(s[LeadingSpaces(s)])
  {
    if |s| > 0 && IsSpace(s[0]) {
      LeadingSpacesShape(s[1..]);
      var n := LeadingSpaces(s[1..]);
      forall i | 0 <= i < n + 1 ensures IsSpace(s[i]) {
        if i > 0 { assert s[i] == s[1..][..n][i - 1]; }
      }
    }
  }

  /** The trailing white space is all white space, and what comes before it
      does not end with white space. */
  lemma {:induction false} TrailingStartShape(s: string)
    ensures AllSpaces(s[TrailingStart(s)..])
    ensures TrailingStart(s) == 0 || !IsSpace(s[TrailingStart(s) - 1])
  {
    if |s| > 0 && IsSpace(s[|s| - 1]) {
      var p := s[..|s| - 1];
      TrailingStartShape(p);
      var n := TrailingStart(p);
      forall i | n <= i < |s| ensures IsSpace(s[i]) {
        if i < |s| - 1 { assert s[i] == p[n..][i - n]; }
      }
      if n > 0 { assert s[n - 1] == p[n - 1]; }
    }
  }

  /** The trimmed string is the slice of the input between a white-space
      prefix and a white-space suffix, and it neither starts nor ends with
      white space. */
  lemma TrimShape(s: string)
    ensures var t := Trim(s);
            exists i :: 0 <= i <= |s| - |t| && t == s[i..i + |t|]
                        && AllSpaces(s[..i]) && AllSpaces(s[i + |t|..])
    ensures var t := Trim(s); t == [] || (!IsSpace(t[0]) && !IsSpace(t[|t| - 1]))
  {
    var i := LeadingSpaces(s);
    var a := s[i..];
    var j := TrailingStart(a);
    var t := a[..j];
    assert Trim(s) == t;
    LeadingSpacesShape(s);
    TrailingStartShape(a);
    assert t == s[i..i + j];
    assert s[i + j..] == a[j..];
    if t != [] {
      assert t[0] == a[0] == s[i];
      assert t[|t| - 1] == a[j - 1];
    }
  }

  /** Trimming twice is trimming once. */
  lemma TrimIdempotent(s: string)
    ensures Trim(Trim(s)) == Trim(s)
  {
    TrimShape(s);
    TrimOfTrimmed(Trim(s));
  }

  /** The trimmed string is empty exactly when the input is all white space. */
  lemma TrimEmptyIff(s: string)
    ensures Trim(s) == [] <==> AllSpaces(s)
  {
    TrimShape(s);
  }

  /** A string with no white space at either end is its own trim. */
  lemma TrimOfTrimmed(s: string)
    requires s == [] || (!IsSpace(s[0]) && !IsSpace(s[|s| - 1]))
    ensures Trim(s) == s
  {
    if s != [] {
      assert LeadingSpaces(s) == 0;
      assert s[0..] == s;
      assert TrailingStart(s) == |s|;
    }
  }
}
