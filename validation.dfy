/** The credential schemas of the server (src/lib/validation.ts):
    `authCredentialsSchema` checks an e-mail and a password, and
    `userCredentialsSchema` merges into it a name of 3 to 35 ASCII letters
    and spaces. None of the strings is trimmed. */
module Validation {
  import opened Text
  import opened Zod
  import FullName

  const EmailChecks: seq<Check> := [Email]
  const PasswordChecks: seq<Check> := [MinLen(6)]
  const NameChecks: seq<Check> := [MinLen(3), MaxLen(35), LettersOrSpaces]

  datatype Credentials = Credentials(email: Value, password: Value, name: Value)

  datatype AuthData = AuthData(email: string, password: string)

  datatype UserData = UserData(email: string, password: string, name: string)

  /** `authCredentialsSchema.safeParse(c)`; a `name` is ignored. */
  function ParseAuth(c: Credentials, isEmail: string -> bool): Result<AuthData>
  {
    var e := StringField(c.email, EmailChecks, isEmail);
    var p := StringField(c.password, PasswordChecks, isEmail);
    var issues := At("email", e.issues) + At("password", p.issues);
    if issues == [] then Ok(AuthData(e.data, p.data)) else Err(issues)
  }

  /** `userCredentialsSchema.safeParse(c)`: the fields of the merged object,
      in the order e-mail, password, name. */
  function ParseUser(c: Credentials, isEmail: string -> bool): Result<UserData>
  {
    var e := StringField(c.email, EmailChecks, isEmail);
    var p := StringField(c.password, PasswordChecks, isEmail);
    var n := StringField(c.name, NameChecks, isEmail);
    var issues := At("email", e.issues) + At("password", p.issues) + At("name", n.issues);
    if issues == [] then Ok(UserData(e.data, p.data, n.data)) else Err(issues)
  }

  /** The name rule: 3 to 35 characters, each an ASCII letter or a space. */
  predicate NameRule(s: string) {
    3 <= |s| <= 35 && forall i :: 0 <= i < |s| ==> IsLetterOrSpace(s[i])
  }

  lemma {:induction false} EmailAccept(v: Value, isEmail: string -> bool)
    ensures StringField(v, EmailChecks, isEmail).issues == [] <==> v.Str? && isEmail(v.s)
    ensures v.Str? ==> StringField(v, EmailChecks, isEmail).data == v.s
  {
    if v.Str? {
      assert EmailChecks == [Email] + [];
      RunChecksCons(Email, [], v.s, isEmail);
    }
  }

  lemma {:induction false} PasswordAccept(v: Value, isEmail: string -> bool)
    ensures StringField(v, PasswordChecks, isEmail).issues == [] <==> v.Str? && |v.s| >= 6
    ensures v.Str? ==> StringField(v, PasswordChecks, isEmail).data == v.s
  {
    if v.Str? {
      assert PasswordChecks == [MinLen(6)] + [];
      RunChecksCons(MinLen(6), [], v.s, isEmail);
    }
  }

  lemma {:induction false} NameAccept(v: Value, isEmail: string -> bool)
    ensures StringField(v, NameChecks, isEmail).issues == [] <==> v.Str? && NameRule(v.s)
    ensures v.Str? ==> StringField(v, NameChecks, isEmail).data == v.s
  {
    if v.Str? {
      var s := v.s;
      assert NameChecks == [MinLen(3)] + ([MaxLen(35)] + ([LettersOrSpaces] + []));
      RunChecksCons(MinLen(3), [MaxLen(35)] + ([LettersOrSpaces] + []), s, isEmail);
      RunChecksCons(MaxLen(35), [LettersOrSpaces] + [], s, isEmail);
      RunChecksCons(LettersOrSpaces, [], s, isEmail);
    }
  }

  /** Credentials pass the authentication schema exactly when the e-mail,
      as given, is an address and the password has at least 6 characters;
      nothing is trimmed. */
  lemma AuthAcceptsIff(c: Credentials, isEmail: string -> bool)
    ensures ParseAuth(c, isEmail).Ok? <==>
              c.email.Str? && isEmail(c.email.s) && c.password.Str? && |c.password.s| >= 6
    ensures ParseAuth(c, isEmail).Ok? ==> ParseAuth(c, isEmail).value == AuthData(c.email.s, c.password.s)
  {
    EmailAccept(c.email, isEmail);
    PasswordAccept(c.password, isEmail);
  }

  /** The merged schema accepts exactly what the authentication schema
      accepts, with a name that keeps the name rule; the name is kept as
      given. */
  lemma UserAcceptsIff(c: Credentials, isEmail: string -> bool)
    ensures ParseUser(c, isEmail).Ok? <==> ParseAuth(c, isEmail).Ok? && c.name.Str? && NameRule(c.name.s)
    ensures ParseUser(c, isEmail).Ok? ==>
              ParseUser(c, isEmail).value == UserData(c.email.s, c.password.s, c.name.s)
  {
    AuthAcceptsIff(c, isEmail);
    EmailAccept(c.email, isEmail);
    PasswordAccept(c.password, isEmail);
    NameAccept(c.name, isEmail);
  }

  /** With nothing trimmed, a name of 3 to 35 spaces passes. */
  lemma SpacesOnlyNameAccepted(s: string)
    requires 3 <= |s| <= 35 && forall i :: 0 <= i < |s| ==> s[i] == ' '
    ensures NameRule(s) && AllSpaces(s)
  {
  }

  /** Every name the settings page accepts also keeps this rule. */
  lemma FullNameWithinRule(current: string, name: string)
    requires FullName.Guard(current, name).Accept?
    ensures NameRule(name)
  {
  }

  /** The rule is laxer than the settings page: a first and a last name
      separated by a space pass it, and the settings page refuses them. */
  lemma LaxerThanFullName(current: string, first: string, last: string)
    requires AllLetters(first) && AllLetters(last)
    requires 3 <= |first| + 1 + |last| <= 35 && first + " " + last != current
    ensures NameRule(first + " " + last)
    ensures FullName.Guard(current, first + " " + last) == FullName.Reject(FullName.NotLetters)
  {
    var s := first + " " + last;
    forall i | 0 <= i < |s| ensures IsLetterOrSpace(s[i]) {
      if i < |first| {
        assert s[i] == first[i];
      } else if i > |first| {
        assert s[i] == last[i - |first| - 1];
      }
    }
    FullName.InnerSpaceRefused(current, first, last);
  }
}
