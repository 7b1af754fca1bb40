/** The "Full Name" settings section (src/app/app/settings/full-name.tsx):
    `updateFullName` trims the text of the input, does nothing when it is the
    current name, refuses it with the first guard that fails (too short, too
    long, not only ASCII letters), and otherwise sends it to the server and
    then stores it as the name of the session user. */
module FullName {
  import opened Text
  import opened Wrappers

  datatype NameError = TooShort | TooLong | NotLetters

  /** The text of the `Error` each guard throws, as the source spells it. */
  function Message(e: NameError): (m: string)
    ensures e == TooLong ==> |m| == 42 && m[18..30] == "less than 35"
  {
    match e
    case TooShort => "You name must be at least 3 characters."
    case TooLong =>
      var bound := "less than 35";
      var m := "Your name must be " + bound + " characters.";
      assert m[18..30] == bound by {
        assert forall i :: 0 <= i < 12 ==> m[18 + i] == bound[i];
      }
      m
    case NotLetters => "Your name must contain letters only."
  }

  /** What the guards decide about one input. */
  datatype Verdict = Unchanged | Reject(error: NameError) | Accept(name: string)

  /** `name.match(/[^a-zA-Z]/)` finds a character. */
  predicate HasNonLetter(s: string) {
    exists i :: 0 <= i < |s| && !IsAsciiLetter(s[i])
  }

  /** The guards of `updateFullName`, in source order, on the trimmed text
      `name` of the input and the current name of the session user. */
  function Guard(current: string, name: string): (v: Verdict)
    ensures v.Unchanged? <==> name == current
    ensures v == Reject(TooShort) <==> name != current && |name| < 3
    ensures v == Reject(TooLong) <==> name != current && |name| > 35
    ensures v == Reject(NotLetters) <==> name != current && 3 <= |name| <= 35 && !AllLetters(name)
    ensures v.Accept? <==> name != current && 3 <= |name| <= 35 && AllLetters(name)
    ensures v.Accept? ==> v.name == name
  {
    if name == current then Unchanged
    else if |name| < 3 then Reject(TooShort)
    else if |name| > 35 then Reject(TooLong)
    else if HasNonLetter(name) then Reject(NotLetters)
    else Accept(name)
  }

  /** The text of the input is trimmed before the guards run. */
  function CheckName(current: string, raw: string): (v: Verdict)
    ensures v.Accept? ==> v.name == Trim(raw)
  {
    Guard(current, Trim(raw))
  }

  /** Only the trimmed text matters: surrounding white space never changes
      the verdict. */
  lemma VerdictIgnoresSurroundingSpace(current: string, raw: string)
    ensures CheckName(current, raw) == CheckName(current, Trim(raw))
  {
    TrimIdempotent(raw);
  }

  /** Each guard throws its own message, so the error shown tells the
      guards apart. */
  lemma MessagesDistinct()
    ensures Message(TooShort) != Message(TooLong) && Message(TooShort) != Message(NotLetters)
    ensures Message(TooLong) != Message(NotLetters)
  {
    assert |Message(TooShort)| == 39 && |Message(TooLong)| == 42 && |Message(NotLetters)| == 36;
  }

  /** The length guards come before the letters guard: `"a1"` is refused as
      too short, not as holding a digit. */
  lemma ShortBeforeLetters(current: string)
    requires current != "a1"
    ensures Guard(current, "a1") == Reject(TooShort)
  {
  }

  /** A name of exactly 35 letters is accepted, although the message for a
      long name says "less than 35 characters"; one more letter is refused. */
  lemma ThirtyFiveLettersAccepted(current: string, name: string)
    requires |name| == 35 && AllLetters(name) && name != current
    ensures |Message(TooLong)| == 42 && Message(TooLong)[18..30] == "less than 35"
    ensures Guard(current, name) == Accept(name)
    ensures name + "a" != current ==> Guard(current, name + "a") == Reject(TooLong)
  {
  }

  /** A name with a space inside, such as a first and a last name, is
      refused as not being letters only. */
  lemma InnerSpaceRefused(current: string, first: string, last: string)
    requires 3 <= |first| + 1 + |last| <= 35 && first + " " + last != current
    ensures Guard(current, first + " " + last) == Reject(NotLetters)
  {
    var s := first + " " + last;
    assert s[|first|] == ' ' && !IsAsciiLetter(s[|first|]);
  }

  /** The session user as the settings page sees it. */
  datatype User = User(id: string, name: string, email: string, image: string)

  /** The session context: the signed-in user, if any. */
  class Session {
    var user: Option<User>

    constructor (u: Option<User>)
      ensures user == u
    {
      user := u;
    }
  }

  /** The `<input>` element the section reads its text from. */
  class InputElement {
    var value: string

    constructor (v: string)
      ensures value == v
    {
      value := v;
    }
  }

  /** How a call of `updateFullName` ends: it returns early, throws one of the
      guards' errors, throws because there is no session user (`user!.name`
      on `undefined`), throws because the server refused, or succeeds. */
  datatype Outcome = Skipped | Failed(error: NameError) | NoUser | ServerFailed | Updated

  /** `updateFullName`. `serverAccepts` stands for the outcome of the server
      action `updateUserName`. On success the session user gets the trimmed
      name and keeps every other field. */
  method UpdateFullName(session: Session, input: InputElement?, serverAccepts: bool) returns (outcome: Outcome)
    modifies session
    ensures input == null ==> outcome == Skipped
    ensures input != null && old(session.user).None? ==> outcome == NoUser
    ensures input != null && old(session.user).Some? ==>
              var v := CheckName(old(session.user).value.name, input.value);
              outcome == match v
                         case Unchanged => Skipped
                         case Reject(e) => Failed(e)
                         case Accept(_) => if serverAccepts then Updated else ServerFailed
    ensures outcome == Updated ==>
              session.user == Some(old(session.user).value.(name := Trim(input.value)))
    ensures outcome != Updated ==> session.user == old(session.user)
  {
    if input == null {
      return Skipped;
    }
    var name := Trim(input.value);
    if session.user.None? {
      return NoUser;
    }
    var user := session.user.value;
    var verdict := Guard(user.name, name);
    match verdict
    case Unchanged =>
      outcome := Skipped;
    case Reject(e) =>
      outcome := Failed(e);
    case Accept(_) =>
      if serverAccepts {
        session.user := ApplyUpdater(session.user, name);
        outcome := Updated;
      } else {
        outcome := ServerFailed;
      }
  }

  /** A successful update stores a name that passes every guard and leaves
      the identity, e-mail and image of the user as they were. */
  lemma UpdatedNameIsValid(before: User, after: User, raw: string)
    requires CheckName(before.name, raw).Accept?
    requires after == before.(name := Trim(raw))
    ensures 3 <= |after.name| <= 35 && AllLetters(after.name) && after.name != before.name
    ensures after.id == before.id && after.email == before.email && after.image == before.image
  {
  }

  // ---------------------------------------------------------------------
  // The session update: as intended at full-name.tsx:33, and as
  // src/components/session-provider.tsx:18-19 performs it.

  /** The updater `curr => curr && { ...curr, name }` applied to the session
      user: the name is replaced, every other field is kept, and no user
      stays no user. */
  function ApplyUpdater(prev: Option<User>, name: string): (next: Option<User>)
    ensures prev.None? <==> next.None?
    ensures prev.Some? ==> next.value.name == name
    ensures prev.Some? ==> next.value.id == prev.value.id && next.value.email == prev.value.email
                           && next.value.image == prev.value.image
  {
    match prev
    case None => None
    case Some(u) => Some(u.(name := name))
  }

  /** With the updater applied, submitting the text that was just stored is
      a no-op. */
  lemma ResubmitAfterRenameIntended(before: User, raw: string)
    requires CheckName(before.name, raw).Accept?
    ensures var next := ApplyUpdater(Some(before), Trim(raw));
            next.Some? && CheckName(next.value.name, raw) == Unchanged
  {
  }

  /** What the session's `user` state holds once `updateSessionUser` has run
      as written: `setUser(prev => prev && newUser)` stores its argument, and
      the argument is the updater function itself. */
  datatype StoredUser = NoStoredUser | UserRecord(user: User) | UpdaterFunction

  /** `updateSessionUser(updater)` as written. */
  function UpdateSessionAsWritten(prev: Option<User>): (next: StoredUser)
    ensures prev.None? <==> next.NoStoredUser?
    ensures prev.Some? ==> next == UpdaterFunction
  {
    if prev.None? then NoStoredUser else UpdaterFunction
  }

  /** `user!.name` on the stored state: the `name` property of an anonymous
      arrow function is the empty string. */
  function NameProperty(s: StoredUser): (name: string)
    requires !s.NoStoredUser?
    ensures s.UserRecord? ==> name == s.user.name
    ensures s.UpdaterFunction? ==> name == []
  {
    match s
    case UserRecord(u) => u.name
    case UpdaterFunction => []
  }

  /** As written, after a successful rename `user!.name` reads `""`, so
      submitting the same text again passes every guard and reaches the
      server a second time. */
  lemma ResubmitAfterRenameAsWritten(before: User, raw: string)
    requires CheckName(before.name, raw).Accept?
    ensures var next := UpdateSessionAsWritten(Some(before));
            next == UpdaterFunction && CheckName(NameProperty(next), raw) == Accept(Trim(raw))
  {
  }
}
