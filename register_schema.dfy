/** The sign-up form schema (src/app/register/schema.ts). */
module RegisterSchema {
  import opened Text
  import opened Zod
  import opened Wrappers

  const FirstNameChecks: seq<Check> := [Trim, MinLen(3), MaxLen(16), Letters]
  const LastNameChecks: seq<Check> := [Trim, MaxLen(16), Letters]
  const EmailChecks: seq<Check> := [Trim, Email]
  const PasswordChecks: seq<Check> := [MinLen(6)]

  datatype Form = Form(firstName: Value, lastName: Value, email: Value, password: Value, terms: Value)

  datatype Data = Data(firstName: string, lastName: Option<string>, email: string, password: string, terms: bool)

  /** `formSchema.safeParse(form)`: the issues of all five fields, in
      declaration order, or the parsed data when there are none. */
  function Parse(form: Form, isEmail: string -> bool): Result<Data>
  {
    var f := StringField(form.firstName, FirstNameChecks, isEmail);
    var l := OptionalStringField(form.lastName, LastNameChecks, isEmail);
    var e := StringField(form.email, EmailChecks, isEmail);
    var p := StringField(form.password, PasswordChecks, isEmail);
    var t := BooleanField(form.terms);
    var issues := At("firstName", f.issues) + At("lastName", l.issues) + At("email", e.issues)
                  + At("password", p.issues) + At("terms", t);
    if issues == [] then
      Ok(Data(f.data, if form.lastName.Undefined? then None else Some(l.data), e.data, p.data, form.terms.b))
    else Err(issues)
  }

  predicate FirstNameOk(v: Value) {
    v.Str? && 3 <= |Text.Trim(v.s)| <= 16 && AllLetters(Text.Trim(v.s))
  }

  predicate LastNameOk(v: Value) {
    v.Undefined? || (v.Str? && 1 <= |Text.Trim(v.s)| <= 16 && AllLetters(Text.Trim(v.s)))
  }

  predicate EmailOk(v: Value, isEmail: string -> bool) {
    v.Str? && isEmail(Text.Trim(v.s))
  }

  predicate PasswordOk(v: Value) {
    v.Str? && |v.s| >= 6
  }

  lemma FirstNameChecksIff(s: string, isEmail: string -> bool)
    ensures RunChecks(FirstNameChecks, s, isEmail).issues == [] <==>
              3 <= |Text.Trim(s)| <= 16 && AllLetters(Text.Trim(s))
    ensures RunChecks(FirstNameChecks, s, isEmail).data == Text.Trim(s)
  {
    var t := Text.Trim(s);
    assert FirstNameChecks[1..] == [MinLen(3)] + ([MaxLen(16)] + ([Letters] + []));
    RunChecksCons(MinLen(3), [MaxLen(16)] + ([Letters] + []), t, isEmail);
    RunChecksCons(MaxLen(16), [Letters] + [], t, isEmail);
    RunChecksCons(Letters, [], t, isEmail);
  }

  lemma LastNameChecksIff(s: string, isEmail: string -> bool)
    ensures RunChecks(LastNameChecks, s, isEmail).issues == [] <==>
              1 <= |Text.Trim(s)| <= 16 && AllLetters(Text.Trim(s))
    ensures RunChecks(LastNameChecks, s, isEmail).data == Text.Trim(s)
  {
    var t := Text.Trim(s);
    assert LastNameChecks[1..] == [MaxLen(16)] + ([Letters] + []);
    RunChecksCons(MaxLen(16), [Letters] + [], t, isEmail);
    RunChecksCons(Letters, [], t, isEmail);
  }

  lemma EmailChecksIff(s: string, isEmail: string -> bool)
    ensures RunChecks(EmailChecks, s, isEmail).issues == [] <==> isEmail(Text.Trim(s))
    ensures RunChecks(EmailChecks, s, isEmail).data == Text.Trim(s)
  {
    TrimFirst(EmailChecks, s, isEmail);
    assert EmailChecks[1] == Email;
  }

  lemma PasswordChecksIff(s: string, isEmail: string -> bool)
    ensures RunChecks(PasswordChecks, s, isEmail).issues == [] <==> |s| >= 6
    ensures RunChecks(PasswordChecks, s, isEmail).data == s
  {
    RunChecksNoTrim(PasswordChecks, s, isEmail);
    assert PasswordChecks[0] == MinLen(6);
  }

  lemma FirstNameAccept(v: Value, isEmail: string -> bool)
    ensures StringField(v, FirstNameChecks, isEmail).issues == [] <==> FirstNameOk(v)
    ensures v.Str? ==> StringField(v, FirstNameChecks, isEmail).data == Text.Trim(v.s)
  {
    if v.Str? { FirstNameChecksIff(v.s, isEmail); }
  }

  lemma LastNameAccept(v: Value, isEmail: string -> bool)
    ensures OptionalStringField(v, LastNameChecks, isEmail).issues == [] <==> LastNameOk(v)
    ensures v.Str? ==> OptionalStringField(v, LastNameChecks, isEmail).data == Text.Trim(v.s)
  {
    if v.Str? { LastNameChecksIff(v.s, isEmail); }
  }

  lemma EmailAccept(v: Value, isEmail: string -> bool)
    ensures StringField(v, EmailChecks, isEmail).issues == [] <==> EmailOk(v, isEmail)
    ensures v.Str? ==> StringField(v, EmailChecks, isEmail).data == Text.Trim(v.s)
  {
    if v.Str? { EmailChecksIff(v.s, isEmail); }
  }

  lemma PasswordAccept(v: Value, isEmail: string -> bool)
    ensures StringField(v, PasswordChecks, isEmail).issues == [] <==> PasswordOk(v)
    ensures v.Str? ==> StringField(v, PasswordChecks, isEmail).data == v.s
  {
    if v.Str? { PasswordChecksIff(v.s, isEmail); }
  }

  /** The form is accepted exactly when: the first name, trimmed, is 3 to 16
      ASCII letters; the last name is absent or, trimmed, 1 to 16 ASCII
      letters; the trimmed e-mail is an address; the password, not trimmed,
      has at least 6 characters; and `terms` is a boolean, either one. The
      parsed data holds the trimmed strings. */
  lemma ParseAcceptsIff(form: Form, isEmail: string -> bool)
    ensures Parse(form, isEmail).Ok? <==>
              FirstNameOk(form.firstName) && LastNameOk(form.lastName) && EmailOk(form.email, isEmail)
              && PasswordOk(form.password) && form.terms.Bool?
    ensures Parse(form, isEmail).Ok? ==>
              var d := Parse(form, isEmail).value;
              d.firstName == Text.Trim(form.firstName.s) && d.email == Text.Trim(form.email.s)
              && d.password == form.password.s && d.terms == form.terms.b
              && d.lastName == (if form.lastName.Undefined? then None else Some(Text.Trim(form.lastName.s)))
  {
    FirstNameAccept(form.firstName, isEmail);
    LastNameAccept(form.lastName, isEmail);
    EmailAccept(form.email, isEmail);
    PasswordAccept(form.password, isEmail);
  }

  /** Unticked terms do not stop the schema: `terms: false` is accepted. */
  lemma TermsFalseAccepted(form: Form, isEmail: string -> bool)
    requires FirstNameOk(form.firstName) && LastNameOk(form.lastName) && EmailOk(form.email, isEmail)
    requires PasswordOk(form.password)
    requires form.terms == Bool(false)
    ensures Parse(form, isEmail).Ok? && !Parse(form, isEmail).value.terms
  {
    ParseAcceptsIff(form, isEmail);
  }

  /** A present but blank last name is refused: the letters pattern needs at
      least one letter. */
  lemma BlankLastNameRefused(form: Form, isEmail: string -> bool)
    requires form.lastName.Str? && AllSpaces(form.lastName.s)
    ensures !Parse(form, isEmail).Ok?
  {
    TrimEmptyIff(form.lastName.s);
    ParseAcceptsIff(form, isEmail);
  }

  /** A missing first name reports the "required" issue on that field. */
  lemma MissingFirstNameRequired(form: Form, isEmail: string -> bool)
    requires form.firstName.Undefined?
    ensures Parse(form, isEmail).Err? && Parse(form, isEmail).issues[0] == Issue("firstName", Required)
  {
  }

  /** Unlike the guards of the settings page, the schema reports every
      failing check of a field: a first name `"a1"` is both too short and
      not letters only. */
  lemma AllFirstNameIssuesReported(isEmail: string -> bool)
    ensures RunChecks(FirstNameChecks, "a1", isEmail).issues == [TooSmall(3), InvalidRegex]
  {
    TrimOfTrimmed("a1");
    var t := "a1";
    assert !AllLetters(t) by { assert !IsAsciiLetter(t[1]); }
    assert FirstNameChecks[1..] == [MinLen(3)] + ([MaxLen(16)] + ([Letters] + []));
    var r3 := RunChecks([Letters] + [], t, isEmail);
    assert r3.issues == [InvalidRegex] by {
      assert ([Letters] + [])[0] == Letters && ([Letters] + [])[1..] == [];
      assert !Holds(Letters, t, isEmail);
      assert RunChecks([], t, isEmail).issues == [];
      assert r3.issues == [IssueFor(Letters)] + RunChecks([], t, isEmail).issues;
    }
    var r2 := RunChecks([MaxLen(16)] + ([Letters] + []), t, isEmail);
    assert r2.issues == r3.issues by { assert ([MaxLen(16)] + ([Letters] + []))[1..] == [Letters] + []; }
    var r1 := RunChecks([MinLen(3)] + ([MaxLen(16)] + ([Letters] + [])), t, isEmail);
    assert r1.issues == [TooSmall(3)] + r2.issues by {
      assert ([MinLen(3)] + ([MaxLen(16)] + ([Letters] + [])))[1..] == [MaxLen(16)] + ([Letters] + []);
    }
  }
}
