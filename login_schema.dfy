/** The sign-in form schema (src/app/login/schema.ts). */
module LoginSchema {
  import opened Text
  import opened Zod

  const EmailChecks: seq<Check> := [Trim, Email]
  const PasswordChecks: seq<Check> := [MinLen(6)]

  datatype Form = Form(email: Value, password: Value)

  datatype Data = Data(email: string, password: string)

  /** `formSchema.safeParse(form)`. */
  function Parse(form: Form, isEmail: string -> bool): Result<Data>
  {
    var e := StringField(form.email, EmailChecks, isEmail);
    var p := StringField(form.password, PasswordChecks, isEmail);
    var issues := At("email", e.issues) + At("password", p.issues);
    if issues == [] then Ok(Data(e.data, p.data)) else Err(issues)
  }

  lemma {:induction false} EmailChecksIff(s: string, isEmail: string -> bool)
    ensures RunChecks(EmailChecks, s, isEmail).issues == [] <==> isEmail(Text.Trim(s))
    ensures RunChecks(EmailChecks, s, isEmail).data == Text.Trim(s)
  {
    assert EmailChecks[1..] == [Email] + [];
    RunChecksCons(Email, [], Text.Trim(s), isEmail);
  }

  lemma {:induction false} PasswordChecksIff(s: string, isEmail: string -> bool)
    ensures RunChecks(PasswordChecks, s, isEmail).issues == [] <==> |s| >= 6
    ensures RunChecks(PasswordChecks, s, isEmail).data == s
  {
    assert PasswordChecks == [MinLen(6)] + [];
    RunChecksCons(MinLen(6), [], s, isEmail);
  }

  lemma EmailAccept(v: Value, isEmail: string -> bool)
    ensures StringField(v, EmailChecks, isEmail).issues == [] <==> v.Str? && isEmail(Text.Trim(v.s))
    ensures v.Str? ==> StringField(v, EmailChecks, isEmail).data == Text.Trim(v.s)
  {
    if v.Str? { EmailChecksIff(v.s, isEmail); }
  }

  lemma PasswordAccept(v: Value, isEmail: string -> bool)
    ensures StringField(v, PasswordChecks, isEmail).issues == [] <==> v.Str? && |v.s| >= 6
    ensures v.Str? ==> StringField(v, PasswordChecks, isEmail).data == v.s
  {
    if v.Str? { PasswordChecksIff(v.s, isEmail); }
  }

  /** Signing in is accepted exactly when the trimmed e-mail is an address
      and the password, as typed, has at least 6 characters; the parsed data
      holds the trimmed e-mail and the untouched password. */
  lemma ParseAcceptsIff(form: Form, isEmail: string -> bool)
    ensures Parse(form, isEmail).Ok? <==>
              form.email.Str? && isEmail(Text.Trim(form.email.s)) && form.password.Str? && |form.password.s| >= 6
    ensures Parse(form, isEmail).Ok? ==>
              Parse(form, isEmail).value == Data(Text.Trim(form.email.s), form.password.s)
  {
    EmailAccept(form.email, isEmail);
    PasswordAccept(form.password, isEmail);
  }

  /** Any password of 6 or more characters passes, whatever it holds; the
      spaces around it are kept and count toward the minimum. */
  lemma AnyLongPasswordAccepted(email: string, password: string, isEmail: string -> bool)
    requires isEmail(Text.Trim(email)) && |password| >= 6
    ensures Parse(Form(Str(email), Str(password)), isEmail) == Ok(Data(Text.Trim(email), password))
  {
    ParseAcceptsIff(Form(Str(email), Str(password)), isEmail);
  }

  /** With a valid e-mail, a password shorter than 6 characters gives one
      issue, the minimum on the password. */
  lemma ShortPasswordRefused(email: string, password: string, isEmail: string -> bool)
    requires isEmail(Text.Trim(email)) && |password| < 6
    ensures Parse(Form(Str(email), Str(password)), isEmail) == Err([Issue("password", TooSmall(6))])
  {
    EmailChecksIff(email, isEmail);
    var p := RunChecks(PasswordChecks, password, isEmail);
    assert p.issues == [TooSmall(6)] by {
      assert PasswordChecks[1..] == [];
    }
    var a := At("email", RunChecks(EmailChecks, email, isEmail).issues);
    var b := At("password", p.issues);
    assert a == [];
    assert b == [Issue("password", TooSmall(6))];
    assert a + b == b;
  }

  /** The password is not trimmed: `"  ab  "` passes as it is, while `"ab"`
      is refused. */
  lemma PasswordNotTrimmed(email: string, isEmail: string -> bool)
    requires isEmail(Text.Trim(email))
    ensures Parse(Form(Str(email), Str("  ab  ")), isEmail) == Ok(Data(Text.Trim(email), "  ab  "))
    ensures Parse(Form(Str(email), Str("ab")), isEmail) == Err([Issue("password", TooSmall(6))])
  {
    AnyLongPasswordAccepted(email, "  ab  ", isEmail);
    ShortPasswordRefused(email, "ab", isEmail);
  }

  /** Both fields are required: a missing one is reported under its name. */
  lemma MissingFieldsRequired(form: Form, isEmail: string -> bool)
    requires form.email.Undefined? || form.password.Undefined?
    ensures Parse(form, isEmail).Err?
    ensures form.email.Undefined? ==> Parse(form, isEmail).issues[0] == Issue("email", Required)
    ensures form.password.Undefined? ==> Issue("password", Required) in Parse(form, isEmail).issues
  {
    var a := At("email", StringField(form.email, EmailChecks, isEmail).issues);
    var b := At("password", StringField(form.password, PasswordChecks, isEmail).issues);
    if form.password.Undefined? { assert (a + b)[|a|] == b[0]; }
  }
}
