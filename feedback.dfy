/** The feedback dialog (src/components/feedback-modal/index.tsx):
    `submitFeedback` trims the text of the text area, returns silently when
    nothing is left, refuses a message shorter than 25 or longer than 1000
    characters, and otherwise sends the trimmed message and empties the text
    area. */
module Feedback {
  import opened Text

  datatype FeedbackError = TooShort | TooLong

  /** The text of the `Error` each guard throws, as the source spells it;
      each names the bound of its guard. */
  function Message(e: FeedbackError): (m: string)
    ensures e == TooShort ==> |m| == 44 && m[21..32] == "at least 25"
    ensures e == TooLong ==> |m| == 44 && m[21..33] == "at most 1000"
  {
    match e
    case TooShort =>
      var bound := "at least 25";
      var m := "Your message must be " + bound + " characters.";
      assert m[21..32] == bound by {
        assert forall i :: 0 <= i < 11 ==> m[21 + i] == bound[i];
      }
      m
    case TooLong =>
      var bound := "at most 1000";
      var m := "Your message must be " + bound + " characters";
      assert m[21..33] == bound by {
        assert forall i :: 0 <= i < 12 ==> m[21 + i] == bound[i];
      }
      m
  }

  /** What the guards decide about one input. */
  datatype Verdict = Silent | Reject(error: FeedbackError) | Submit(message: string)

  /** The guards of `submitFeedback`, in source order, on the trimmed text. */
  function Guard(message: string): (v: Verdict)
    ensures v.Silent? <==> message == []
    ensures v == Reject(TooShort) <==> 1 <= |message| < 25
    ensures v == Reject(TooLong) <==> |message| > 1000
    ensures v.Submit? <==> 25 <= |message| <= 1000
    ensures v.Submit? ==> v.message == message
  {
    if message == [] then Silent
    else if |message| < 25 then Reject(TooShort)
    else if |message| > 1000 then Reject(TooLong)
    else Submit(message)
  }

  /** The text of the text area is trimmed before the guards run. */
  function CheckFeedback(raw: string): (v: Verdict)
    ensures v.Submit? ==> v.message == Trim(raw)
  {
    Guard(Trim(raw))
  }

  /** Nothing happens exactly when the text area holds only white space
      (or nothing at all). */
  lemma SilentIffBlank(raw: string)
    ensures CheckFeedback(raw).Silent? <==> AllSpaces(raw)
  {
    TrimEmptyIff(raw);
  }

  /** What is sent is the trimmed text: it has 25 to 1000 characters and
      neither starts nor ends with white space. */
  lemma SubmittedIsTrimmed(raw: string)
    requires CheckFeedback(raw).Submit?
    ensures CheckFeedback(raw).message == Trim(raw)
    ensures var m := Trim(raw); 25 <= |m| <= 1000 && !IsSpace(m[0]) && !IsSpace(m[|m| - 1])
  {
    TrimShape(raw);
  }

  /** Both length bounds are inclusive: 25 and 1000 characters are sent,
      24 and 1001 are refused. */
  lemma LengthBoundsInclusive(raw: string)
    ensures |Trim(raw)| == 24 ==> CheckFeedback(raw) == Reject(TooShort)
    ensures |Trim(raw)| == 25 ==> CheckFeedback(raw) == Submit(Trim(raw))
    ensures |Trim(raw)| == 1000 ==> CheckFeedback(raw) == Submit(Trim(raw))
    ensures |Trim(raw)| == 1001 ==> CheckFeedback(raw) == Reject(TooLong)
  {
  }

  /** Surrounding white space never changes the verdict. */
  lemma VerdictIgnoresSurroundingSpace(raw: string)
    ensures CheckFeedback(raw) == CheckFeedback(Trim(raw))
  {
    TrimIdempotent(raw);
  }

  /** The `<textarea>` element the dialog reads its text from. */
  class TextArea {
    var value: string

    constructor (v: string)
      ensures value == v
    {
      value := v;
    }
  }

  /** How a call of `submitFeedback` ends: it returns early, throws one of
      the guards' errors, throws because the server action failed, or sends
      the message. */
  datatype Outcome = Skipped | Failed(error: FeedbackError) | ServerFailed | Sent(message: string)

  /** `submitFeedback`. A missing text area (`inputRef.current` is `null`)
      gives an empty message. `serverAccepts` stands for the outcome of the
      server action `submitAction`. After a message is sent, the text area
      is emptied; otherwise it keeps its text. */
  method SubmitFeedback(input: TextArea?, serverAccepts: bool) returns (outcome: Outcome)
    modifies input
    ensures input == null ==> outcome == Skipped
    ensures input != null ==>
              outcome == match Guard(Trim(old(input.value)))
                         case Silent => Skipped
                         case Reject(e) => Failed(e)
                         case Submit(m) => if serverAccepts then Sent(m) else ServerFailed
    ensures input != null && outcome.Sent? ==> input.value == ""
    ensures input != null && !outcome.Sent? ==> input.value == old(input.value)
  {
    if input == null {
      return Skipped;
    }
    var message := Trim(input.value);
    match Guard(message)
    case Silent =>
      outcome := Skipped;
    case Reject(e) =>
      outcome := Failed(e);
    case Submit(m) =>
      if serverAccepts {
        input.value := "";
        outcome := Sent(m);
      } else {
        outcome := ServerFailed;
      }
  }
}
