# wiwi: the pure and client-side logic, modelled in Dafny

wiwi is a video-meeting web application (Next.js, TypeScript). This project
models the parts of it whose behaviour is fixed by the code alone:

- the avatar initials (`getUserAvatarFallback`) and the avatar picture
  address rewrite (`getOriginalAvatar`);
- the meeting code cut out of a random number's text (`generateMeetingCode`);
- the broadcast-event name table of the meeting room (`broadcastEvents`);
- the route guard of the middleware and its `matcher`;
- the hand-written guards of the "Full Name" settings section
  (`updateFullName`) and of the feedback dialog (`submitFeedback`);
- the four zod form schemas (sign-up, support request, sign-in, and the
  server's credential schemas).

Modules:

- `Text` holds the JavaScript string behaviour these pieces rely on:
  `trim` and `\s` over the ECMAScript white-space set, and ASCII
  `toUpperCase`/`toLowerCase`.
- `Zod` is a small interpreter for the zod string, optional and boolean
  schemas that the forms use.
- There is one module per source file: `AvatarFallback`, `AvatarUrl`,
  `MeetingCode`, `BroadcastEvents`, `Middleware`, `FullName`, `Feedback`,
  `RegisterSchema`, `SupportSchema`, `LoginSchema` and `Validation`.

Code that changes state in place is modelled imperatively:

- the `reduce` that fills the event object (`BroadcastEvents.EventObject`,
  `BroadcastEvents.Build`);
- the URL object whose `pathname` is reassigned (`AvatarUrl.UrlObject`,
  `AvatarUrl.GetOriginalAvatar`);
- the session user replaced on a successful rename
  (`FullName.Session`, `FullName.UpdateFullName`);
- the text area emptied after feedback is sent (`Feedback.TextArea`,
  `Feedback.SubmitFeedback`).

Each of these methods is proved against a function, and the properties
are proved about that function.

Some behaviour of the source is worth knowing and is stated as a lemma:

- a name of exactly 35 letters is accepted although the message says "less
  than 35";
- `terms: false` passes the sign-up schema;
- a name of only spaces passes the server's credential schema, and a name
  with a space inside passes that schema but not the settings page;
- a support message of exactly 2500 characters is accepted although the
  message says "less than 2500";
- a short random text gives a short meeting code with no padding, and a
  random number below 10^-6 whose exponent-form text has fewer than ten
  significant digits puts `e` or `-` into the code (`1.2e-7` gives
  `2e--7-`, `5e-7` gives `-7--`), while one with the usual 16 or 17 digits
  still gives a well-formed code;
- meeting-room paths are outside the middleware's matcher;
- the Google avatar rewrite is not idempotent on every input.

## Model

| member | source | states |
|---|---|---|
| Text.Upper | src/lib/utils.ts:13-16 | `toUpperCase` keeps the length and maps every character by its ASCII upper-case form, so no lower-case ASCII letter is left |
| Text.Lower | src/lib/supabase.ts:26 | `toLowerCase` keeps the length and maps every character by its ASCII lower-case form |
| Text.TrimShape | src/app/app/settings/full-name.tsx:21 | `trim` gives a slice of the input with only white space cut off at both ends, and the result neither starts nor ends with white space |
| Text.TrimIdempotent | src/components/feedback-modal/index.tsx:25 | trimming twice is trimming once |
| Text.TrimEmptyIff | src/components/feedback-modal/index.tsx:25-26 | the trimmed text is empty exactly when the input is all white space |
| Zod.RunChecksNoTrim | src/lib/validation.ts:3-16 | a check chain without `trim` keeps the value, gives no issue exactly when every check holds, and gives at most one issue per check |
| Zod.TrimFirst | src/app/support/schema.ts:8-14 | a chain that starts with `trim` runs its checks on the trimmed value and returns it, so a value and its trimmed form get the same result |
| Zod.StringField | src/app/register/schema.ts:5-7 | a missing field gives the single "required" issue; a value of another type gives the single "invalid type" issue |
| Zod.OptionalStringField | src/app/register/schema.ts:27 | `.optional()` accepts a missing field with no issue |
| Zod.BooleanField | src/app/register/schema.ts:41-43 | `z.boolean()` gives no issue exactly when the value is a boolean, `false` included |
| AvatarFallback.Split | src/lib/utils.ts:9 | `split(/\s+/)`: the first piece is the text before the first white space, no piece holds white space, only the first and last pieces can be empty, and a name with no white space is a single piece |
| AvatarFallback.Fallback | src/lib/utils.ts:8-17 | the initials have at most two characters and no lower-case ASCII letter, and they are empty exactly when the name is empty or starts with white space |
| AvatarFallback.TwoWords | src/lib/utils.ts:9-14 | with two words, the result is the upper-cased first letter of each, whatever follows the second word |
| AvatarFallback.OneWord | src/lib/utils.ts:9-16 | with one word, and only white space after it, the result is its first one or two characters upper-cased |
| AvatarFallback.SplitLosesOnlySpaces | src/lib/utils.ts:9 | joining the pieces gives the name with its white space removed: the split drops white space and nothing else |
| AvatarUrl.OriginalAvatar | src/components/user-avatar.tsx:38-50 | another host's address is returned unchanged; for Cloudinary only the path is rewritten (`w_<digits>` becomes `w_360`) and the protocol, host, port, search and hash are kept |
| AvatarUrl.UrlObject.constructor | src/components/user-avatar.tsx:39 | the URL object holds the parts of the address |
| AvatarUrl.GetOriginalAvatar | src/components/user-avatar.tsx:38-50 | the method, which reassigns the object's `pathname` in the Cloudinary branch, returns `OriginalAvatar` of the address |
| AvatarUrl.GoogleRewriteParts | src/components/user-avatar.tsx:42-43 | for Google, the replacement over the whole address rewrites only the path and the search and hash parts; protocol and host are kept |
| AvatarUrl.ReplaceIdempotent | src/components/user-avatar.tsx:43-45 | the global replacement, applied twice, gives what one pass gives, when every match is followed by neither a digit nor (for Google) another `-c` |
| AvatarUrl.WidthAlwaysTame | src/components/user-avatar.tsx:45 | the Cloudinary pattern meets that side condition on every string |
| AvatarUrl.RewriteIdempotent | src/components/user-avatar.tsx:41-49 | rewriting the rewritten address gives it back unchanged: always for Cloudinary and other hosts, with no condition on the parts, and for a well-formed Google address under the side condition above; a well-formed address stays well formed |
| AvatarUrl.GoogleWithoutSizeUnchanged | src/components/user-avatar.tsx:43 | a Google address with no `=s<digits>` anywhere is returned as it is |
| AvatarUrl.SubdomainNotRewritten | src/components/user-avatar.tsx:41-44 | host matching is exact: any host made of a non-empty prefix followed by the Google or the Cloudinary host (a sub-domain or a look-alike) is returned unchanged |
| AvatarUrl.GoogleRewriteNotIdempotent | src/components/user-avatar.tsx:43 | `=s1-c-c` becomes `=s360-c`, which a second pass turns into `=s360` |
| MeetingCode.Slice | src/server/db/meeting.ts:19 | `slice` clamps both bounds to the length, gives the empty string for an empty range, and copies the characters in between |
| MeetingCode.Code | src/server/db/meeting.ts:17-20 | the code has `2 + min(len, 11) - 2` characters (2 for a text of at most 2 characters), with dashes at 3 and 7 once the text has 11 characters |
| MeetingCode.CodeIgnoresOutside | src/server/db/meeting.ts:19 | the code depends only on characters 2 to 10 of the text: the `0.` prefix and everything after index 10 never appear |
| MeetingCode.CodeUndash | src/server/db/meeting.ts:19 | when the text has no `-` among characters 2 to 10, deleting the two dashes gives back exactly the characters from 2 up to 11, clamped |
| MeetingCode.CodeWellFormedIff | src/server/db/meeting.ts:17-20 | the code has the shape `ddd-ddd-ddd` exactly when the text has at least 11 characters and characters 2 to 10 are digits |
| MeetingCode.ShortTextShortCode | src/server/db/meeting.ts:19 | the text `0.5` gives the code `5--`, which is not well formed |
| MeetingCode.ExponentTextCode | src/server/db/meeting.ts:18-19 | the exponent-form text `1.2e-7` gives `2e--7-`, which is not well formed, and deleting its dashes gives `2e7`, not `2e-7` |
| MeetingCode.SingleDigitExponentCode | src/server/db/meeting.ts:18-19 | the exponent-form text `5e-7` gives `-7--`, which is not well formed |
| MeetingCode.LongExponentTextCode | src/server/db/meeting.ts:18-19 | the exponent-form text `1.2345678901234567e-7` still gives the well-formed code `234-567-890` |
| BroadcastEvents.LowerCaseTable | src/lib/supabase.ts:22-29 | the table's keys are the names, and each value is the lower-case form of its key |
| BroadcastEvents.EventObject.constructor | src/lib/supabase.ts:29 | the fold starts from an object with no properties |
| BroadcastEvents.EventObject.Assign | src/lib/supabase.ts:26 | `acc[event] = ...` sets one property, appends a new key to the key order and changes no other property |
| BroadcastEvents.TableSnoc | src/lib/supabase.ts:24-28 | one fold step adds one entry and keeps the entries already there |
| BroadcastEvents.Build | src/lib/supabase.ts:22-29 | the fold builds the lower-case table, with keys in the order of the array when the names are distinct |
| BroadcastEvents.TableValuesDistinct | src/lib/supabase.ts:14-26 | for names without lower-case letters, different keys have different values and no value holds an upper-case letter |
| BroadcastEvents.EventNamesNotIndices | src/lib/supabase.ts:14-20 | no event name has the form of an array index, so the object's key order is the insertion order |
| BroadcastEvents.EventTableKeys | src/lib/supabase.ts:14-22 | the keys of the event table are exactly the five event names |
| BroadcastEvents.EventTableShape | src/lib/supabase.ts:14-26 | the five event names are pairwise different, and so are their lower-case forms |
| BroadcastEvents.MakeBroadcastEvents | src/lib/supabase.ts:14-29 | `broadcastEvents` has the five names as keys in array order, each mapped to its lower-case form |
| Middleware.Guard | src/middleware.ts:7-21 | an authenticated user on `/`, `/login` or `/register` goes to `/app`; an anonymous visitor anywhere but `/login` and `/register` goes to `/login`; every other request passes |
| Middleware.Handle | src/middleware.ts:7-28 | paths outside the matcher always pass; matched paths get the guard's decision |
| Middleware.RedirectSettles | src/middleware.ts:14-27 | every redirect lands on a matched path where the same user passes, so redirects never chain or loop |
| Middleware.AppOpenToUsers | src/middleware.ts:14-27 | an authenticated user passes on `/app` and all its sub-paths |
| Middleware.AnonymousSentToLogin | src/middleware.ts:18-20 | an anonymous visitor of any matched path other than `/login` and `/register`, `/` included, is sent to `/login` |
| Middleware.MeetingRoomsUnguarded | src/middleware.ts:26-28 | a meeting-room path such as `/123-456-789` is never redirected |
| FullName.Message | src/app/app/settings/full-name.tsx:25 | the too-long message names the bound 35 of its guard |
| FullName.MessagesDistinct | src/app/app/settings/full-name.tsx:24-26 | the three guard messages are pairwise different, so each refusal is told apart |
| FullName.Guard | src/app/app/settings/full-name.tsx:22-26 | the name is left as it is exactly when it equals the current one; otherwise it is refused as too short below 3, too long above 35, not letters when anything but an ASCII letter occurs, and accepted otherwise |
| FullName.CheckName | src/app/app/settings/full-name.tsx:21-26 | an accepted name is the trimmed text of the input |
| FullName.VerdictIgnoresSurroundingSpace | src/app/app/settings/full-name.tsx:21 | white space around the input never changes the verdict |
| FullName.ShortBeforeLetters | src/app/app/settings/full-name.tsx:24-26 | `a1` is refused as too short, not as holding a digit |
| FullName.ThirtyFiveLettersAccepted | src/app/app/settings/full-name.tsx:25 | 35 letters are accepted and 36 refused as too long, whose message says "less than 35" although 35 is allowed |
| FullName.InnerSpaceRefused | src/app/app/settings/full-name.tsx:26 | a first and last name separated by a space is refused as not letters only |
| FullName.Session.constructor | src/components/session-provider.tsx:16 | the session holds the given user |
| FullName.InputElement.constructor | src/app/app/settings/full-name.tsx:16 | the input holds the given text |
| FullName.UpdateFullName | src/app/app/settings/full-name.tsx:18-34 | no input: nothing happens; no session user: it fails; otherwise the outcome follows the guards on the trimmed text, and the session user gets the trimmed name only on success |
| FullName.UpdatedNameIsValid | src/app/app/settings/full-name.tsx:24-33 | a stored name has 3 to 35 ASCII letters and differs from the old one; the user's id, e-mail and image are kept |
| FullName.ApplyUpdater | src/app/app/settings/full-name.tsx:33 | the updater replaces the session user's name and keeps its id, e-mail and image; no user stays no user |
| FullName.ResubmitAfterRenameIntended | src/app/app/settings/full-name.tsx:22-33 | with the updater applied, submitting the stored text again does nothing |
| FullName.UpdateSessionAsWritten | src/components/session-provider.tsx:18-19 | as written, a signed-in session stores the updater function itself as its user |
| FullName.ResubmitAfterRenameAsWritten | src/components/session-provider.tsx:18-19 | as written, the stored "user" has the name `""`, so submitting the same text again passes every guard a second time |
| Feedback.Message | src/components/feedback-modal/index.tsx:28-29 | the too-short message names the bound 25 and the too-long one the bound 1000 of their guards |
| Feedback.Guard | src/components/feedback-modal/index.tsx:26-29 | silent exactly when the message is empty; too short exactly for 1 to 24 characters; too long exactly above 1000; sent as it is exactly for 25 to 1000 |
| Feedback.CheckFeedback | src/components/feedback-modal/index.tsx:25-29 | the message sent is the trimmed text |
| Feedback.SilentIffBlank | src/components/feedback-modal/index.tsx:25-26 | nothing happens exactly when the text area holds only white space |
| Feedback.SubmittedIsTrimmed | src/components/feedback-modal/index.tsx:25-32 | what is sent is the trimmed text: 25 to 1000 characters, with no white space at either end |
| Feedback.LengthBoundsInclusive | src/components/feedback-modal/index.tsx:28-29 | 25 and 1000 characters are sent; 24 and 1001 are refused |
| Feedback.VerdictIgnoresSurroundingSpace | src/components/feedback-modal/index.tsx:25 | white space around the text never changes the verdict |
| Feedback.TextArea.constructor | src/components/feedback-modal/index.tsx:21 | the text area holds the given text |
| Feedback.SubmitFeedback | src/components/feedback-modal/index.tsx:24-39 | no text area: nothing happens; otherwise the outcome follows the guards on the trimmed text, and the text area is emptied only after the message is sent |
| RegisterSchema.FirstNameChecksIff | src/app/register/schema.ts:4-17 | the first name passes exactly when, trimmed, it has 3 to 16 characters, all ASCII letters; the value kept is the trimmed one |
| RegisterSchema.LastNameChecksIff | src/app/register/schema.ts:18-26 | a present last name passes exactly when, trimmed, it has 1 to 16 characters, all ASCII letters |
| RegisterSchema.EmailChecksIff | src/app/register/schema.ts:28-33 | the e-mail passes exactly when its trimmed form is an address |
| RegisterSchema.PasswordChecksIff | src/app/register/schema.ts:34-40 | the password passes exactly when it has at least 6 characters; it is not trimmed |
| RegisterSchema.LastNameAccept | src/app/register/schema.ts:18-27 | a missing last name is accepted |
| RegisterSchema.ParseAcceptsIff | src/app/register/schema.ts:3-44 | the form is accepted exactly when all five field rules hold, and the parsed data holds the trimmed strings, the untouched password and the boolean |
| RegisterSchema.TermsFalseAccepted | src/app/register/schema.ts:41-43 | unticked terms do not stop the schema |
| RegisterSchema.BlankLastNameRefused | src/app/register/schema.ts:20-26 | a last name of only white space is refused |
| RegisterSchema.MissingFirstNameRequired | src/app/register/schema.ts:4-7 | a missing first name gives the "required" issue first |
| RegisterSchema.AllFirstNameIssuesReported | src/app/register/schema.ts:8-17 | every failing check is reported: `a1` is both too short and not letters only |
| SupportSchema.BoundsChecksIff | src/app/support/schema.ts:4-33 | a trim-min-max chain passes exactly when the trimmed length is within both bounds, both included |
| SupportSchema.EmailChecksIff | src/app/support/schema.ts:15-22 | the e-mail passes exactly when its trimmed form is an address |
| SupportSchema.ParseAcceptsIff | src/app/support/schema.ts:3-34 | the request is accepted exactly when the trimmed name has 3 to 35 characters, the trimmed e-mail is an address and the trimmed message has 50 to 2500 characters; the data holds the trimmed strings |
| SupportSchema.TrimmedFormSameVerdict | src/app/support/schema.ts:8-27 | a form and the form of its trimmed strings get the same result |
| SupportSchema.MissingFieldsRequired | src/app/support/schema.ts:5-26 | each missing field is reported as required under its own name |
| LoginSchema.ParseAcceptsIff | src/app/login/schema.ts:3-17 | sign-in is accepted exactly when the trimmed e-mail is an address and the untrimmed password has at least 6 characters |
| LoginSchema.AnyLongPasswordAccepted | src/app/login/schema.ts:14-16 | any password of 6 or more characters passes, whatever it holds |
| LoginSchema.ShortPasswordRefused | src/app/login/schema.ts:14-16 | with a valid e-mail, a shorter password gives exactly one issue, the minimum on the password |
| LoginSchema.PasswordNotTrimmed | src/app/login/schema.ts:10-16 | surrounding spaces count toward the minimum: `"  ab  "` passes and `"ab"` is refused |
| LoginSchema.MissingFieldsRequired | src/app/login/schema.ts:5-13 | each missing field is reported as required under its own name |
| Validation.AuthAcceptsIff | src/lib/validation.ts:3-6 | credentials pass exactly when the untrimmed e-mail is an address and the password has at least 6 characters |
| Validation.NameAccept | src/lib/validation.ts:10-14 | a name passes exactly when it has 3 to 35 characters, each an ASCII letter or a space |
| Validation.UserAcceptsIff | src/lib/validation.ts:8-16 | the merged schema accepts exactly what the authentication schema accepts, together with a name that keeps the name rule |
| Validation.SpacesOnlyNameAccepted | src/lib/validation.ts:10-14 | 3 to 35 spaces pass the name rule |
| Validation.FullNameWithinRule | src/lib/validation.ts:14 | every name the settings page accepts keeps the name rule |
| Validation.LaxerThanFullName | src/lib/validation.ts:14 | a first and last name separated by a space passes the name rule, while the settings page refuses it |

## Left out

- URL parsing and serialisation (`new URL`, `href`): the address is a record of protocol, host, port, path and the search and hash parts. `imageSrc` is its `href`, and `WellFormed` says that no `=` occurs before the path and that the rest after the path starts with `?` or `#`. The parser guarantees this for the Google and Cloudinary hosts; for other hosts it is an assumption (a hostname such as `a=b` parses), and only the Google lemmas require it.
- AvatarUrl.RewriteIdempotent: stated for Google only for addresses where no `=s<digits>-c` is followed by a digit or another `-c`. Without that condition idempotence fails, and `AvatarUrl.GoogleRewriteNotIdempotent` gives the input.
- AvatarUrl.OriginalAvatar: its own contract covers the Cloudinary and other-host branches; the Google branch is stated by `AvatarUrl.GoogleRewriteParts` and `AvatarUrl.GoogleWithoutSizeUnchanged`.
- String lengths are counted in characters, while JavaScript counts UTF-16 code units: a character outside the Basic Multilingual Plane is accepted and counted as one where JavaScript counts two, so a length bound can differ by one per such character.
- Case mapping is ASCII only; Unicode case mapping can lengthen a string.
- zod's `.email()` pattern is a parameter `isEmail`; the schemas' custom error texts are not modelled, only the kind of each issue.
- `Math.random()` and its decimal text: the random text is a parameter of `MeetingCode.Code`.
- The server actions `updateUserName` and `submitAction` are a boolean parameter saying whether they succeed.
- The delays (`setTimeout`), the dialog closing after feedback and the `useAsyncCallback` error display are not modelled.
- Concurrency between the server call and the session update is not modelled: `FullName.UpdateFullName` runs as one step.
- src/components/session-provider.tsx:18-19 stores its argument as the user, and full-name.tsx:33 passes it an updater function. `FullName.UpdateFullName` applies that updater as intended (`FullName.ApplyUpdater`); the behaviour as written is recorded under Findings below.
- MeetingCode.CodeUndash: stated only for texts with no `-` among characters 2 to 10. The text of a number below 10^-6 is in exponent form; with fewer than ten significant digits it puts `e` or `-` there: `1.2e-7` and `5e-7` put a `-` there (`MeetingCode.ExponentTextCode`, `MeetingCode.SingleDigitExponentCode`), `1.23456789e-7` only an `e`, while with the usual 16 or 17 digits it does not (`MeetingCode.LongExponentTextCode`).
- BroadcastEvents.EventObject.Assign: keeps keys in insertion order. JavaScript lists array-index keys (such as `"0"` or `"12"`) first, in ascending order, and the model does not capture that. The claim holds for keys that are not array indices, as the five event names are not (`BroadcastEvents.EventNamesNotIndices`).
- BroadcastEvents.Build: the key order it states is JavaScript's only for names that are not array indices, for the same reason.
- The meeting-room protocol (admission, signalling, screen-share) is not in these files beyond its event-name table.
- `extractMeetingCode` is not part of this model: its body is not in the files.
- `cn`, all React UI, the avatar cropper, the microphone analyser and the media video element are not modelled.
- Database access, authentication, cryptography, e-mail sending, Cloudinary upload and the Supabase client are foreign calls or I/O.
- src/app/register/action.ts and the static configuration (sitemap, robots, manifest, environment) are not modelled.

## Findings

| source | as written | input that shows it | evidently intended | confidence | as-written member | corrected member |
|---|---|---|---|---|---|---|
| src/components/session-provider.tsx:18-19 | `setUser(prev => prev && newUser)` stores the updater function that full-name.tsx:33 passes, so the session "user" becomes that function and `user!.name` reads `""` | a user named `Bob` submits `Ada` twice: the second submission passes every guard and reaches the server again | the updater is applied, the user becomes `{ ...user, name: 'Ada' }`, and the second submission does nothing | medium, not executed | FullName.ResubmitAfterRenameAsWritten | FullName.ResubmitAfterRenameIntended |
