/** The support request form schema (src/app/support/schema.ts). */
module SupportSchema {
  import opened Text
  import opened Zod

  const NameChecks: seq<Check> := [Trim, MinLen(3), MaxLen(35)]
  const EmailChecks: seq<Check> := [Trim, Email]
  const MessageChecks: seq<Check> := [Trim, MinLen(50), MaxLen(2500)]

  datatype Form = Form(name: Value, email: Value, message: Value)

  datatype Data = Data(name: string, email: string, message: string)

  /** `formSchema.safeParse(form)`. */
  function Parse(form: Form, isEmail: string -> bool): Result<Data>
  {
    var n := StringField(form.name, NameChecks, isEmail);
    var e := StringField(form.email, EmailChecks, isEmail);
    var m := StringField(form.message, MessageChecks, isEmail);
    var issues := At("name", n.issues) + At("email", e.issues) + At("message", m.issues);
    if issues == [] then Ok(Data(n.data, e.data, m.data)) else Err(issues)
  }

  /** A trimmed length between `lo` and `hi`, both included. */
  predicate TrimmedWithin(v: Value, lo: nat, hi: nat) {
    v.Str? && lo <= |Text.Trim(v.s)| <= hi
  }

  lemma {:induction false} BoundsChecksIff(cs: seq<Check>, lo: nat, hi: nat, s: string, isEmail: string -> bool)
    requires cs == [Trim, MinLen(lo), MaxLen(hi)]
    ensures RunChecks(cs, s, isEmail).issues == [] <==> lo <= |Text.Trim(s)| <= hi
    ensures RunChecks(cs, s, isEmail).data == Text.Trim(s)
  {
    var t := Text.Trim(s);
    assert cs[1..] == [MinLen(lo)] + ([MaxLen(hi)] + []);
    RunChecksCons(MinLen(lo), [MaxLen(hi)] + [], t, isEmail);
    RunChecksCons(MaxLen(hi), [], t, isEmail);
  }

  lemma {:induction false} EmailChecksIff(s: string, isEmail: string -> bool)
    ensures RunChecks(EmailChecks, s, isEmail).issues == [] <==> isEmail(Text.Trim(s))
    ensures RunChecks(EmailChecks, s, isEmail).data == Text.Trim(s)
  {
    assert EmailChecks[1..] == [Email] + [];
    RunChecksCons(Email, [], Text.Trim(s), isEmail);
  }

  lemma NameAccept(v: Value, isEmail: string -> bool)
    ensures StringField(v, NameChecks, isEmail).issues == [] <==> TrimmedWithin(v, 3, 35)
    ensures v.Str? ==> StringField(v, NameChecks, isEmail).data == Text.Trim(v.s)
  {
    if v.Str? { BoundsChecksIff(NameChecks, 3, 35, v.s, isEmail); }
  }

  lemma EmailAccept(v: Value, isEmail: string -> bool)
    ensures StringField(v, EmailChecks, isEmail).issues == [] <==> v.Str? && isEmail(Text.Trim(v.s))
    ensures v.Str? ==> StringField(v, EmailChecks, isEmail).data == Text.Trim(v.s)
  {
    if v.Str? { EmailChecksIff(v.s, isEmail); }
  }

  lemma MessageAccept(v: Value, isEmail: string -> bool)
    ensures StringField(v, MessageChecks, isEmail).issues == [] <==> TrimmedWithin(v, 50, 2500)
    ensures v.Str? ==> StringField(v, MessageChecks, isEmail).data == Text.Trim(v.s)
  {
    if v.Str? { BoundsChecksIff(MessageChecks, 50, 2500, v.s, isEmail); }
  }

  /** The request is accepted exactly when all three fields are present
      strings, the trimmed name has 3 to 35 characters, the trimmed e-mail
      is an address and the trimmed message has 50 to 2500 characters; the
      parsed data holds the trimmed strings. */
  lemma ParseAcceptsIff(form: Form, isEmail: string -> bool)
    ensures Parse(form, isEmail).Ok? <==>
              TrimmedWithin(form.name, 3, 35) && form.email.Str? && isEmail(Text.Trim(form.email.s))
              && TrimmedWithin(form.message, 50, 2500)
    ensures Parse(form, isEmail).Ok? ==>
              Parse(form, isEmail).value == Data(Text.Trim(form.name.s), Text.Trim(form.email.s), Text.Trim(form.message.s))
  {
    NameAccept(form.name, isEmail);
    EmailAccept(form.email, isEmail);
    MessageAccept(form.message, isEmail);
  }

  lemma FieldTrimInvariant(cs: seq<Check>, s: string, isEmail: string -> bool)
    requires cs == NameChecks || cs == EmailChecks || cs == MessageChecks
    ensures StringField(Str(s), cs, isEmail) == StringField(Str(Text.Trim(s)), cs, isEmail)
  {
    TrimFirst(cs, s, isEmail);
  }

  /** Surrounding white space never changes the verdict: a form is parsed
      exactly as the form of its trimmed strings is. */
  lemma TrimmedFormSameVerdict(name: string, email: string, message: string, isEmail: string -> bool)
    ensures Parse(Form(Str(name), Str(email), Str(message)), isEmail)
         == Parse(Form(Str(Text.Trim(name)), Str(Text.Trim(email)), Str(Text.Trim(message))), isEmail)
  {
    FieldTrimInvariant(NameChecks, name, isEmail);
    FieldTrimInvariant(EmailChecks, email, isEmail);
    FieldTrimInvariant(MessageChecks, message, isEmail);
  }

  /** Each field is required: a missing one is reported under its name. */
  lemma MissingFieldsRequired(form: Form, isEmail: string -> bool)
    requires form.name.Undefined? || form.email.Undefined? || form.message.Undefined?
    ensures Parse(form, isEmail).Err?
    ensures form.name.Undefined? ==> Issue("name", Required) in Parse(form, isEmail).issues
    ensures form.email.Undefined? ==> Issue("email", Required) in Parse(form, isEmail).issues
    ensures form.message.Undefined? ==> Issue("message", Required) in Parse(form, isEmail).issues
  {
    var n := StringField(form.name, NameChecks, isEmail);
    var e := StringField(form.email, EmailChecks, isEmail);
    var m := StringField(form.message, MessageChecks, isEmail);
    var a, b, c := At("name", n.issues), At("email", e.issues), At("message", m.issues);
    if form.name.Undefined? { assert a[0] == Issue("name", Required); assert (a + b + c)[0] == a[0]; }
    if form.email.Undefined? { assert b[0] == Issue("email", Required); assert (a + b + c)[|a|] == b[0]; }
    if form.message.Undefined? { assert c[0] == Issue("message", Required); assert (a + b + c)[|a| + |b|] == c[0]; }
  }
}
