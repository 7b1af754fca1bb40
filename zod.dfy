/** The part of the zod validation library that the form schemas use: a
    string schema runs its checks in declaration order, `trim` rewrites the
    value for the checks after it, every failing check adds an issue (the
    checks do not stop at the first failure), and the parsed value is the
    rewritten string. A missing value gives a "required" issue and a value of
    another type an "invalid type" issue. */
module Zod {
  import opened Text

  /** A form field as it reaches the schema. */
  datatype Value = Undefined | Str(s: string) | Bool(b: bool) | OtherType

  /** The checks of a string schema: `.trim()`, `.min(n)`, `.max(n)`,
      `.regex(/^[a-zA-Z]+$/)`, `.regex(/^[a-zA-Z ]+$/)` and `.email()`. */
  datatype Check = Trim | MinLen(n: nat) | MaxLen(n: nat) | Letters | LettersOrSpaces | Email

  datatype IssueCode = Required | InvalidType | TooSmall(min: nat) | TooBig(max: nat) | InvalidRegex | InvalidEmail

  datatype Issue = Issue(field: string, code: IssueCode)

  datatype Result<T> = Ok(value: T) | Err(issues: seq<Issue>)

  /** What a string schema gives back: its issues and the (trimmed) value. */
  datatype Checked = Checked(issues: seq<IssueCode>, data: string)

  predicate IsLetterOrSpace(c: char) {
    IsAsciiLetter(c) || c == ' '
  }

  /** Whether one non-rewriting check accepts `t`; `isEmail` stands for the
      library's e-mail pattern. `trim` rewrites the value instead of testing
      it, and `RunChecks` handles it before it would ask here, so its arm is
      never consulted. */
  predicate Holds(c: Check, t: string, isEmail: string -> bool) {
    match c
    case Trim => true
    case MinLen(n) => |t| >= n
    case MaxLen(n) => |t| <= n
    case Letters => |t| >= 1 && AllLetters(t)
    case LettersOrSpaces => |t| >= 1 && forall i :: 0 <= i < |t| ==> IsLetterOrSpace(t[i])
    case Email => isEmail(t)
  }

  /** The issue a failing check reports. `trim` never fails (see `Holds`),
      so the value of its arm is never reported. */
  function IssueFor(c: Check): IssueCode {
    match c
    case Trim => InvalidType
    case MinLen(n) => TooSmall(n)
    case MaxLen(n) => TooBig(n)
    case Letters => InvalidRegex
    case LettersOrSpaces => InvalidRegex
    case Email => InvalidEmail
  }

  /** The check loop of a string schema over the value `data`. */
  function RunChecks(cs: seq<Check>, data: string, isEmail: string -> bool): Checked
    decreases |cs|
  {
    if cs == [] then Checked([], data)
    else if cs[0] == Trim then RunChecks(cs[1..], Text.Trim(data), isEmail)
    else
      var rest := RunChecks(cs[1..], data, isEmail);
      Checked((if Holds(cs[0], data, isEmail) then [] else [IssueFor(cs[0])]) + rest.issues, rest.data)
  }

  predicate NoTrim(cs: seq<Check>) {
    forall i :: 0 <= i < |cs| ==> cs[i] != Trim
  }

  /** Without a `trim`, the checks keep the value as it is and report an
      issue exactly when one of them fails, one issue per failing check. */
  lemma {:induction false} RunChecksNoTrim(cs: seq<Check>, t: string, isEmail: string -> bool)
    requires NoTrim(cs)
    ensures RunChecks(cs, t, isEmail).data == t
    ensures RunChecks(cs, t, isEmail).issues == [] <==> forall i :: 0 <= i < |cs| ==> Holds(cs[i], t, isEmail)
    ensures |RunChecks(cs, t, isEmail).issues| <= |cs|
    decreases |cs|
  {
    if cs != [] {
      RunChecksNoTrim(cs[1..], t, isEmail);
      if forall i :: 0 <= i < |cs| - 1 ==> Holds(cs[1..][i], t, isEmail) {
        forall i | 0 <= i < |cs| ensures Holds(cs[0], t, isEmail) ==> Holds(cs[i], t, isEmail) {
          if i > 0 { assert cs[i] == cs[1..][i - 1]; }
        }
      } else {
        var i :| 0 <= i < |cs| - 1 && !Holds(cs[1..][i], t, isEmail);
        assert !Holds(cs[i + 1], t, isEmail);
      }
    }
  }

  /** One non-rewriting check in front of others: accepted when it holds
      and the others accept. */
  lemma RunChecksCons(c: Check, cs: seq<Check>, t: string, isEmail: string -> bool)
    requires c != Trim
    ensures RunChecks([c] + cs, t, isEmail).issues == [] <==>
              Holds(c, t, isEmail) && RunChecks(cs, t, isEmail).issues == []
    ensures RunChecks([c] + cs, t, isEmail).data == RunChecks(cs, t, isEmail).data
  {
    assert ([c] + cs)[1..] == cs;
  }

  /** A schema that starts with `trim` checks and returns the trimmed value,
      so a value is accepted exactly when its trimmed form is, with the
      same issues. */
  lemma TrimFirst(cs: seq<Check>, s: string, isEmail: string -> bool)
    requires |cs| >= 1 && cs[0] == Trim && NoTrim(cs[1..])
    ensures RunChecks(cs, s, isEmail) == RunChecks(cs[1..], Text.Trim(s), isEmail)
    ensures RunChecks(cs, s, isEmail) == RunChecks(cs, Text.Trim(s), isEmail)
    ensures RunChecks(cs, s, isEmail).data == Text.Trim(s)
    ensures RunChecks(cs, s, isEmail).issues == [] <==>
              forall i :: 1 <= i < |cs| ==> Holds(cs[i], Text.Trim(s), isEmail)
  {
    TrimIdempotent(s);
    RunChecksNoTrim(cs[1..], Text.Trim(s), isEmail);
    forall i | 1 <= i < |cs| ensures cs[i] == cs[1..][i - 1] { }
  }

  /** `z.string(...)` with the given checks, applied to one field. */
  function StringField(v: Value, cs: seq<Check>, isEmail: string -> bool): (r: Checked)
    ensures v.Undefined? ==> r.issues == [Required]
    ensures !v.Undefined? && !v.Str? ==> r.issues == [InvalidType]
  {
    match v
    case Undefined => Checked([Required], [])
    case Str(s) => RunChecks(cs, s, isEmail)
    case _ => Checked([InvalidType], [])
  }

  /** `.optional()` around a string schema: a missing value is accepted. */
  function OptionalStringField(v: Value, cs: seq<Check>, isEmail: string -> bool): (r: Checked)
    ensures v.Undefined? ==> r.issues == []
  {
    if v.Undefined? then Checked([], []) else StringField(v, cs, isEmail)
  }

  /** `z.boolean(...)`: any boolean is accepted, `false` included. */
  function BooleanField(v: Value): (issues: seq<IssueCode>)
    ensures issues == [] <==> v.Bool?
  {
    match v
    case Undefined => [Required]
    case Bool(_) => []
    case _ => [InvalidType]
  }

  /** Tags the issues of one field with its name. */
  function At(field: string, codes: seq<IssueCode>): (issues: seq<Issue>)
    ensures |issues| == |codes|
    ensures forall i :: 0 <= i < |codes| ==> issues[i] == Issue(field, codes[i])
  {
    if codes == [] then [] else [Issue(field, codes[0])] + At(field, codes[1..])
  }
}
