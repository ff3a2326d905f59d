# iteacher-ui quiz front end, modelled in Dafny

This project models the logic of the Angular front end of a quiz system, and proves properties of that model. The front end has three kinds of page:

- **Timed test session.** A student starts a test and sees one question at a time. Choosing an answer submits it. The test finishes in one of three ways: the last answer is accepted, the backend reports that the deadline has passed, or a once-a-second timer finds the deadline reached.
- **Question editors.** An administrator uses two pages:
  - The management page lists questions page by page and edits stored ones.
  - The creation page builds a new question.

  Both keep a form of question text and image, with two to six answer groups and a parallel list of image previews. Both validate the form and send it as multipart form data.
- **Verification-code pages.** Three pages follow login, registration and "forgot password". Each has the following:
  - a six-character code field;
  - a resend button guarded by `isResending`;
  - a 60-step countdown that releases the guard;
  - a submit guarded by `loading`;
  - on the forgot-password page, a new password that must be typed twice.

The project also models the `phoneFormat` pipe. It renders `+998 ` followed by nine digits, and leaves any other value as it was.

Each page with state has two parts:

- **A pure part.** A datatype holds the page's state (`Controller`, `Manager`, `Creator`, `Verifier`, `Recovery`), with one function per handler from the old state to the new one. The lemmas are stated about these functions.
- **A class.** It holds the page's fields and updates them in place. Each method ensures `State() == <function>(old(State()))` and keeps the invariant `Valid()`. Where the source iterates, the method has a loop with its invariants: `setCorrectAnswer`, the answer loop of `editQuestion`, and the `FormData` loop of `onSubmit`.

The class does not always have the source's flat field layout:

- A page's reactive form group is one field holding the form's value (`FormValue`, `CodeForm`, `ResetForm`).
- What has no field in the source is kept in one `effects` record. This covers timer subscriptions made and cancelled, requests in flight, requests sent, and alerts shown.

Backend replies, timer callbacks and user input arrive as method calls with the value as a parameter. Times are integer milliseconds.

Modules and files:

| module | file | models |
|---|---|---|
| `Js` | js.dfy | `x \|\| ''`, truthiness, `trim`, `\d`, an unanchored match, one-character `replace`, `${n}` |
| `PhoneFormat` | phone_format.dfy | the `phoneFormat` pipe |
| `TestSession`, `TestSessionView` | test_session.dfy, test_session_component.dfy | the test-session component |
| `QuestionForm` | question_form.dfy | what both question editors share: records, file check, validators, `FormData` body, `setCorrectAnswer` |
| `QuestionManagement`, `QuestionManagementView` | question_management.dfy, question_management_component.dfy | the question-management component |
| `CreateQuestion`, `CreateQuestionView` | create_question.dfy, create_question_component.dfy | the create-question component |
| `VerifyCode` | verify_code.dfy | the countdown, the code rules, and the login and registration verify pages as a state machine |
| `LoginVerify`, `RegisterVerify` | login_verify.dfy, register_verify.dfy | the two verify components as classes |
| `ForgotPasswordVerify`, `ForgotPasswordVerifyView` | forgot_password_verify.dfy, forgot_password_verify_component.dfy | the forgot-password verify component |

## Model

| member | source | states |
|---|---|---|
| Js.FilledIffTrimmed | src/app/pages/Admin/question-management/question-management.component.ts:114-119 | a text makes `(text && text.trim())` truthy exactly when some character of it is not JavaScript whitespace |
| Js.ParseNatToString | src/app/pages/Admin/question-management/question-management.component.ts:275 | the decimal index written into `Answers[${index}]` reads back as the index |
| Js.Trim | src/app/pages/Admin/question-management/question-management.component.ts:118 | `trim()` returns a text no longer than its input that neither starts nor ends with JavaScript whitespace, and leaves a text that already does unchanged |
| Js.TrimIsMiddle | src/app/pages/Admin/question-management/question-management.component.ts:118 | `trim()` returns a middle slice of the text, and everything cut off on either side is whitespace |
| Js.Utf16Length | src/app/pages/auth/login-verify.component.ts:35-40 | the length Angular's length validators read: between one and two units per character, one per character below U+10000 |
| Js.ReplaceFirst | src/app/pages/auth/login.component.ts:43-45 | `replace('+', '')` leaves a string without `+` unchanged |
| Js.FirstIndex | src/app/pages/auth/login.component.ts:43-45 | the position of the first occurrence of a character, or the length when there is none: no earlier position holds it |
| Js.ReplaceFirstAtFirstIndex | src/app/pages/auth/login.component.ts:43-45 | with a `+` in the string, `replace('+', '')` deletes exactly the first one and keeps everything before and after it |
| PhoneFormat.KeepDigits | src/app/pipes/phone-format.pipe.ts:11 | `replace(/\D/g, '')` keeps exactly the ASCII digits, in order |
| PhoneFormat.ToJsString | src/app/pipes/phone-format.pipe.ts:25 | a string value is itself; a number gives a non-empty string of digits, with a leading `-` exactly for a negative number |
| PhoneFormat.KeepDigitsAppend | src/app/pipes/phone-format.pipe.ts:11 | stripping non-digits distributes over concatenation |
| PhoneFormat.KeepDigitsOfDigits | src/app/pipes/phone-format.pipe.ts:11 | a string of digits is left as it is |
| PhoneFormat.WithCountryCode | src/app/pipes/phone-format.pipe.ts:14-16 | the result starts with `998`, and is the digits unchanged when they already do |
| PhoneFormat.MatchNational | src/app/pipes/phone-format.pipe.ts:19 | `/^(998)(\d{9})$/` matches a string exactly when it is `998` and nine digits, and then yields the nine: a match implies that shape, and that shape implies the match |
| PhoneFormat.Transform | src/app/pipes/phone-format.pipe.ts:7-26 | the output is `''` exactly for a falsy value; otherwise it is the formatted shape or the value's string |
| PhoneFormat.KeepDigitsOfFormatted | src/app/pipes/phone-format.pipe.ts:22 | the digits of a formatted number are `998` and its national part |
| PhoneFormat.FormatsExactlyWhenFits | src/app/pipes/phone-format.pipe.ts:11-25 | a truthy value is reformatted exactly when its digits are `998` and nine digits, or nine digits not starting with `998`; the output then ends in the last nine digits |
| PhoneFormat.FormattedIsFixed | src/app/pipes/phone-format.pipe.ts:11-22 | a number the pipe already formatted comes out unchanged |
| PhoneFormat.TransformIdempotent | src/app/pipes/phone-format.pipe.ts:7-26 | formatting twice is formatting once |
| PhoneFormat.UzbekLoginNumberFormats | src/app/pages/auth/login.component.ts:33-45 | `+998` with the nine-digit phone the login form accepts is shown as `+998 ` and the phone |
| PhoneFormat.OtherCountryCodesUnchanged | src/app/pages/auth/login.component.ts:22-45 | with the other two country codes of the form the number is shown as sent |
| TestSession.ServiceError | src/app/services/test-session.service.ts:56-64 | the error the service rethrows never carries a status, and carries the server's message when there is one |
| TestSession.ServiceErrorKeepingStatus | src/app/services/test-session.service.ts:56-64 | the corrected rewrapping keeps the HTTP status and the same message |
| TestSession.Init | src/app/pages/Dashboards/test-session/test-session.component.ts:20-30 | the fresh component holds no session and no timer, and keeps the invariant |
| TestSession.StopTimer | src/app/pages/Dashboards/test-session/test-session.component.ts:174-179 | the handle is cleared; nothing changes without a handle; no live timer remains |
| TestSession.StartTimer | src/app/pages/Dashboards/test-session/test-session.component.ts:159-162 | the previous subscription is cancelled first, so exactly one timer is live, holding the new deadline |
| TestSession.StartTest | src/app/pages/Dashboards/test-session/test-session.component.ts:43-52 | session, result, error and selection are cleared, index 0, `loading` set, one start request sent |
| TestSession.StartSucceeded | src/app/pages/Dashboards/test-session/test-session.component.ts:53-58 | the session is held, its first question shown (none for an empty list), one timer for its deadline, `loading` cleared |
| TestSession.StartFailed | src/app/pages/Dashboards/test-session/test-session.component.ts:59-65 | status 401 gives the authentication message, anything else the generic one; `loading` cleared |
| TestSession.SubmitAnswer | src/app/pages/Dashboards/test-session/test-session.component.ts:69-81 | without a session, a shown question and a truthy selection nothing happens; otherwise exactly that answer is sent for that session and question |
| TestSession.OnAnswerSelect | src/app/pages/Dashboards/test-session/test-session.component.ts:111-114 | selecting a non-empty answer with a question shown sends that answer |
| TestSession.FinishTest | src/app/pages/Dashboards/test-session/test-session.component.ts:124-131 | without a session nothing happens; with one the timer is stopped and one finish request for that session is sent |
| TestSession.SubmitSucceeded | src/app/pages/Dashboards/test-session/test-session.component.ts:82-97 | the selection is cleared, the session kept and the invariant preserved |
| TestSession.SubmitFailed | src/app/pages/Dashboards/test-session/test-session.component.ts:98-107 | index and question stay; a finish request is sent exactly for the deadline message with a session |
| TestSession.ConfirmFinishTest | src/app/pages/Dashboards/test-session/test-session.component.ts:116-118 | the confirmation is shown and nothing else changes |
| TestSession.CancelFinishTest | src/app/pages/Dashboards/test-session/test-session.component.ts:120-122 | the confirmation is hidden and nothing else changes |
| TestSession.FinishSucceeded | src/app/pages/Dashboards/test-session/test-session.component.ts:132-138 | the result is kept; session and question are dropped |
| TestSession.FinishFailed | src/app/pages/Dashboards/test-session/test-session.component.ts:139-143 | the session is kept and the finish error shown |
| TestSession.Tick | src/app/pages/Dashboards/test-session/test-session.component.ts:162-171 | before the deadline only the remaining time changes; at or after it, 0 is shown and the test finished |
| TestSession.Destroy | src/app/pages/Dashboards/test-session/test-session.component.ts:39-41 | no timer is left live |
| TestSession.Letter | src/app/pages/Dashboards/test-session/test-session.component.ts:155-157 | the character with code 65 + index, a capital letter for 0..25 (the same expression as question-management.component.ts:347-349 and create-question.component.ts:273-275) |
| TestSession.Step | src/app/pages/Dashboards/test-session/test-session.component.ts:43-179 | every handler, reply and tick preserves the one-live-timer invariant |
| TestSession.RunCons | src/app/pages/Dashboards/test-session/test-session.component.ts:43-179 | a run takes its first event, then the rest |
| TestSession.RunKeepsInv | src/app/pages/Dashboards/test-session/test-session.component.ts:159-179 | in every run at most one timer is live, exactly when the handle is set, and the remaining time is never negative |
| TestSession.StepKeepsOnQuestion | src/app/pages/Dashboards/test-session/test-session.component.ts:87-96 | every event but a new session keeps the index inside the held session's questions |
| TestSession.StartSucceededOnQuestion | src/app/pages/Dashboards/test-session/test-session.component.ts:53-58 | after a start reply the index points at the shown question exactly when it is inside the new session and that question equals question 0 |
| TestSession.RunKeepsOnQuestion | src/app/pages/Dashboards/test-session/test-session.component.ts:43-114 | a run in which every start reply comes at index 0 with at least one question keeps the index on the shown question |
| TestSession.StepIndexMonotone | src/app/pages/Dashboards/test-session/test-session.component.ts:48 | the index never decreases except when a new test resets it to 0 |
| TestSession.SubmitSucceededAdvances | src/app/pages/Dashboards/test-session/test-session.component.ts:86-96 | on the last question an accepted answer finishes the test; otherwise the index moves on by exactly one and shows that question |
| TestSession.DeadlineRefusalFinishes | src/app/pages/Dashboards/test-session/test-session.component.ts:98-106 | the backend's deadline message finishes the test, and `finishTest` clears the time-up message again |
| TestSession.OtherRefusalKeepsQuestion | src/app/pages/Dashboards/test-session/test-session.component.ts:98-103 | any other refusal keeps index and timer and shows the generic message |
| TestSession.FinishedIsQuiet | src/app/pages/Dashboards/test-session/test-session.component.ts:70-71 | after a finish, finishing again and submitting are no-ops until a new session arrives |
| TestSession.NoSessionNoRequests | src/app/pages/Dashboards/test-session/test-session.component.ts:69-131 | without a new session no run sends an answer or a finish request |
| TestSession.TickBeforeDeadline | src/app/pages/Dashboards/test-session/test-session.component.ts:168-170 | a tick before the deadline leaves a positive remaining time and sends nothing |
| TestSession.TickAtDeadline | src/app/pages/Dashboards/test-session/test-session.component.ts:165-167 | a tick at the deadline shows 0 and, with a session, stops the timer before asking to finish |
| TestSession.TickThenLastAnswerFinishesTwice | src/app/pages/Dashboards/test-session/test-session.component.ts:87-91 | a deadline tick while the last answer is in flight, then its acceptance, asks to finish the same session twice |
| TestSession.AcceptedWithoutSession | src/app/pages/Dashboards/test-session/test-session.component.ts:93-95 | an answer accepted after the session was dropped only moves the index on and shows no question |
| TestSession.TickFinishThenLastAnswer | src/app/pages/Dashboards/test-session/test-session.component.ts:87-95 | if the finish reply wins that race, the late acceptance puts the index one past the last question |
| TestSession.RunAppend | src/app/pages/Dashboards/test-session/test-session.component.ts:43-179 | a run of two event sequences is the run of the first, then of the second |
| TestSession.AnswerInFlight | src/app/pages/Dashboards/test-session/test-session.component.ts:43-114 | starting, receiving a session and choosing an answer leaves an answer request in flight |
| TestSession.RestartWithAnswerInFlight | src/app/pages/Dashboards/test-session/test-session.component.ts:43-96 | restarting with an answer in flight, then its acceptance, then the new session, leaves index 1 with question 0 of the new session shown |
| TestSession.StaleAnswerSkipsQuestion | src/app/pages/Dashboards/test-session/test-session.component.ts:82-96 | the run start, session, answer, start, acceptance, new session ends at index 1 showing the new session's first question, so the index and the shown question disagree |
| TestSession.StaleAnswerFinishesEarly | src/app/pages/Dashboards/test-session/test-session.component.ts:86-91 | in a two-question session left in that state, answering the shown question finishes the test after a single answer |
| TestSession.SubmitSucceededFor | src/app/pages/Dashboards/test-session/test-session.component.ts:82-96 | the corrected reply handler: a reply for a session no longer held only ends its request; one for the held session is handled as before |
| TestSession.StaleAnswerIgnoredAfterRestart | src/app/pages/Dashboards/test-session/test-session.component.ts:82-96 | with the corrected handler the restart race leaves the new session at index 0 showing question 0 |
| TestSession.StartFailureNeverReportsAuth | src/app/pages/Dashboards/test-session/test-session.component.ts:60-63 | through the service as written, a failed start never shows the authentication message |
| TestSession.StartFailureWithStatusReportsAuth | src/app/pages/Dashboards/test-session/test-session.component.ts:60-63 | with the status kept, a 401 shows the authentication message |
| TestSessionView.TestSessionComponent.constructor | src/app/pages/Dashboards/test-session/test-session.component.ts:20-35 | the fields start as the initial state |
| TestSessionView.TestSessionComponent.StopTimer | src/app/pages/Dashboards/test-session/test-session.component.ts:174-179 | the fields become `StopTimer` of the old state |
| TestSessionView.TestSessionComponent.StartTimer | src/app/pages/Dashboards/test-session/test-session.component.ts:159-162 | the fields become `StartTimer` of the old state |
| TestSessionView.TestSessionComponent.StartTest | src/app/pages/Dashboards/test-session/test-session.component.ts:43-52 | the fields become `StartTest` of the old state |
| TestSessionView.TestSessionComponent.OnStartSucceeded | src/app/pages/Dashboards/test-session/test-session.component.ts:53-58 | the fields become `StartSucceeded` of the old state |
| TestSessionView.TestSessionComponent.OnStartFailed | src/app/pages/Dashboards/test-session/test-session.component.ts:59-65 | the fields become `StartFailed` of the old state |
| TestSessionView.TestSessionComponent.SubmitAnswer | src/app/pages/Dashboards/test-session/test-session.component.ts:69-81 | the fields become `SubmitAnswer` of the old state |
| TestSessionView.TestSessionComponent.OnSubmitSucceeded | src/app/pages/Dashboards/test-session/test-session.component.ts:82-97 | the fields become `SubmitSucceeded` of the old state |
| TestSessionView.TestSessionComponent.OnSubmitFailed | src/app/pages/Dashboards/test-session/test-session.component.ts:98-107 | the fields become `SubmitFailed` of the old state |
| TestSessionView.TestSessionComponent.OnAnswerSelect | src/app/pages/Dashboards/test-session/test-session.component.ts:111-114 | the fields become `OnAnswerSelect` of the old state |
| TestSessionView.TestSessionComponent.ConfirmFinishTest | src/app/pages/Dashboards/test-session/test-session.component.ts:116-118 | the fields become `ConfirmFinishTest` of the old state |
| TestSessionView.TestSessionComponent.CancelFinishTest | src/app/pages/Dashboards/test-session/test-session.component.ts:120-122 | the fields become `CancelFinishTest` of the old state |
| TestSessionView.TestSessionComponent.FinishTest | src/app/pages/Dashboards/test-session/test-session.component.ts:124-131 | the fields become `FinishTest` of the old state |
| TestSessionView.TestSessionComponent.OnFinishSucceeded | src/app/pages/Dashboards/test-session/test-session.component.ts:132-138 | the fields become `FinishSucceeded` of the old state |
| TestSessionView.TestSessionComponent.OnFinishFailed | src/app/pages/Dashboards/test-session/test-session.component.ts:139-143 | the fields become `FinishFailed` of the old state |
| TestSessionView.TestSessionComponent.Tick | src/app/pages/Dashboards/test-session/test-session.component.ts:162-171 | the fields become `Tick` of the old state; the remaining time is not negative |
| TestSessionView.TestSessionComponent.Destroy | src/app/pages/Dashboards/test-session/test-session.component.ts:39-41 | the fields become `Destroy` of the old state; no timer is left live |
| TestSessionView.TestSessionComponent.GetLetter | src/app/pages/Dashboards/test-session/test-session.component.ts:155-157 | returns `Letter(index)` |
| QuestionForm.CheckImage | src/app/pages/Admin/question-management/question-management.component.ts:201-210 | a file is accepted exactly when its type names JPEG or PNG and it has at most 5 MiB; the type test wins over the size test |
| QuestionForm.AcceptedImages | src/app/pages/Admin/question-management/question-management.component.ts:203-210 | JPEG and PNG files pass up to 5242880 bytes and fail one byte above |
| QuestionForm.GifRefused | src/app/pages/Admin/question-management/question-management.component.ts:203-206 | a GIF is refused for its type, whatever its size |
| QuestionForm.IsJpegOrPng | src/app/pages/Admin/question-management/question-management.component.ts:203 | the exact types `image/jpeg` and `image/png` pass, and an empty type fails |
| QuestionForm.KeyName | src/app/pages/Admin/question-management/question-management.component.ts:275-289 | every answer part is named `Answers[...` |
| QuestionForm.ParseDigitsThenField | src/app/pages/Admin/question-management/question-management.component.ts:275-289 | a part name with digits, `].` and a field name reads back as that index and field, and as nothing when the field name is unknown |
| QuestionForm.ParseKeyName | src/app/pages/Admin/question-management/question-management.component.ts:266-289 | every part name reads back as the part it names |
| QuestionForm.KeyNameInjective | src/app/pages/Admin/question-management/question-management.component.ts:266-289 | different parts have different names |
| QuestionForm.Header | src/app/pages/Admin/question-management/question-management.component.ts:266-271 | the body starts with `Text` holding the question's text |
| QuestionForm.SerializeSnoc | src/app/pages/Admin/question-management/question-management.component.ts:274-291 | one more answer appends its block to the body |
| QuestionForm.SerializeForm | src/app/pages/Admin/question-management/question-management.component.ts:265-291 | the `forEach` loop builds exactly the body `Serialize` describes |
| QuestionForm.BlockGet | src/app/pages/Admin/question-management/question-management.component.ts:275-290 | the entries of answer `i` hold exactly that answer's fields |
| QuestionForm.SerializeGet | src/app/pages/Admin/question-management/question-management.component.ts:265-291 | each part of the body carries exactly the form's value for it: `Image` only when a file is chosen, an answer's file in place of its address, a description only for a correct answer |
| QuestionForm.Serialize | src/app/pages/Admin/question-management/question-management.component.ts:265-291 | the body is never empty and starts with `Text` holding the question's text; its parts are what `SerializeGet` and `SerializeOrdered` state |
| QuestionForm.SerializeOrdered | src/app/pages/Admin/question-management/question-management.component.ts:265-291 | the body starts with `Text`, puts the question's parts before the answers', the answers in order, and never repeats a name |
| QuestionForm.ValidationMessagePriority | src/app/pages/Admin/question-management/question-management.component.ts:351-367 | each message appears exactly when its rule is the first to fail; only a valid form would get the generic one |
| QuestionForm.ValidationMessage | src/app/pages/Admin/question-management/question-management.component.ts:351-367 | the message is one of the four rule messages or the generic one |
| QuestionForm.FormValid | src/app/pages/Admin/question-management/question-management.component.ts:99-131 | the form is valid exactly when the question is filled, there are at least two answers, one is correct and all are filled; `required` on the list adds nothing |
| QuestionForm.QuestionFilledIsTrimTest | src/app/pages/Admin/question-management/question-management.component.ts:114-119 | the question's rule holds exactly when `text && text.trim()` is truthy or an image is chosen |
| QuestionForm.AnswerFilledIsTrimTest | src/app/pages/Admin/question-management/question-management.component.ts:122-131 | an answer's rule holds exactly when `text && text.trim()` is truthy, a file is chosen or an image address is kept |
| QuestionForm.RemoveAt | src/app/pages/Admin/question-management/question-management.component.ts:161-162 | `removeAt`/`splice(i, 1)` removes position `i` and shifts the rest, or nothing past the end |
| QuestionForm.MarkCorrect | src/app/pages/Admin/question-management/question-management.component.ts:250-257 | the list keeps its length |
| QuestionForm.MarkCorrectExactlyOne | src/app/pages/Admin/question-management/question-management.component.ts:250-257 | answer `k` becomes the one correct answer and keeps its description, every other description is emptied, texts and images stay; out of range no answer is correct |
| QuestionForm.MarkCorrectKeepsFilled | src/app/pages/Admin/question-management/question-management.component.ts:122-131 | marking never changes which answers pass their text-or-image rule |
| QuestionForm.MarkCorrectIdempotent | src/app/pages/Admin/question-management/question-management.component.ts:250-257 | marking the same answer twice is marking it once |
| QuestionForm.MarkCorrectMakesValid | src/app/pages/Admin/question-management/question-management.component.ts:45-59 | marking an answer of a form whose other rules hold makes it valid |
| QuestionForm.AnswerFromRecord | src/app/pages/Admin/question-management/question-management.component.ts:133-144 | the group takes the record's text and address (or `''`), and no file |
| QuestionManagement.Init | src/app/pages/Admin/question-management/question-management.component.ts:25-59 | no answers, page 1, and the invariant |
| QuestionManagement.TotalPages | src/app/pages/Admin/question-management/question-management.component.ts:95-97 | the least number of whole pages of 50 that holds all the questions |
| QuestionManagement.LoadQuestions | src/app/pages/Admin/question-management/question-management.component.ts:70-75 | `loading` set, error cleared, one request for the current page |
| QuestionManagement.LoadSucceeded | src/app/pages/Admin/question-management/question-management.component.ts:76-80 | the page's questions and total are kept, `loading` cleared |
| QuestionManagement.LoadFailed | src/app/pages/Admin/question-management/question-management.component.ts:81-84 | the message is shown and the list kept |
| QuestionManagement.ChangePage | src/app/pages/Admin/question-management/question-management.component.ts:88-93 | an existing page is loaded; any other number changes nothing |
| QuestionManagement.ChangePageStaysInRange | src/app/pages/Admin/question-management/question-management.component.ts:88-97 | the current page never goes past the one that holds the last question |
| QuestionManagement.AddAnswer | src/app/pages/Admin/question-management/question-management.component.ts:146-157 | below six an answer and its preview are appended; at six only the error is set |
| QuestionManagement.RemoveAnswer | src/app/pages/Admin/question-management/question-management.component.ts:159-166 | above two position `i` of both lists is removed; otherwise only the error is set |
| QuestionManagement.RemoveKeepsTwo | src/app/pages/Admin/question-management/question-management.component.ts:159-166 | a list of two or more keeps at least two, and shrinks by one exactly when it had more than two and `i` is in range |
| QuestionManagement.AddNeverExceedsSix | src/app/pages/Admin/question-management/question-management.component.ts:146-157 | the list grows by one below six and never beyond six |
| QuestionManagement.AddAll | src/app/pages/Admin/question-management/question-management.component.ts:180-182 | adding records one by one keeps the invariant |
| QuestionManagement.AddAllKeepsFirst | src/app/pages/Admin/question-management/question-management.component.ts:180-182 | the first six records are kept in order, each with its preview |
| QuestionManagement.AddAllFrame | src/app/pages/Admin/question-management/question-management.component.ts:180-182 | only the two lists change, and the error once a seventh record arrives |
| QuestionManagement.ClearForEdit | src/app/pages/Admin/question-management/question-management.component.ts:169-179 | both lists are emptied |
| QuestionManagement.EditQuestion | src/app/pages/Admin/question-management/question-management.component.ts:168-183 | editing keeps the invariant |
| QuestionManagement.EditQuestionLoads | src/app/pages/Admin/question-management/question-management.component.ts:168-183 | editing shows the stored text, the stored question image as the preview, and the first six answers each with the preview of its stored image; it marks the question as being edited and sets the error only for more than six answers |
| QuestionManagement.CancelEdit | src/app/pages/Admin/question-management/question-management.component.ts:185-193 | the form and both lists are emptied; the edited question, error and enlarged image are forgotten |
| QuestionManagement.CancelledFormInvalid | src/app/pages/Admin/question-management/question-management.component.ts:351-354 | a cancelled form is invalid and reports the question rule |
| QuestionManagement.SetCorrectAnswer | src/app/pages/Admin/question-management/question-management.component.ts:250-257 | only the answers change, to `MarkCorrect` of them |
| QuestionManagement.ImageChanged | src/app/pages/Admin/question-management/question-management.component.ts:195-225 | no file changes nothing; a refused file only sets its error; an accepted answer image replaces the stored address and gets a local preview; for an answer index past the end nothing changes, because the handler throws |
| QuestionManagement.ImageFillsAnswer | src/app/pages/Admin/question-management/question-management.component.ts:217-222 | an accepted image fills its answer; a refused one leaves the answers alone |
| QuestionManagement.ImageRemoved | src/app/pages/Admin/question-management/question-management.component.ts:240-248 | the image, the stored address and the preview are dropped; for an answer index past the end nothing changes, because the handler throws |
| QuestionManagement.RemovedImageNotSent | src/app/pages/Admin/question-management/question-management.component.ts:244-246 | a removed answer image sends neither `Image` nor `ImageUrl` |
| QuestionManagement.OpenImage | src/app/pages/Admin/question-management/question-management.component.ts:227-234 | a present image becomes the enlarged one; nothing else changes |
| QuestionManagement.CloseImage | src/app/pages/Admin/question-management/question-management.component.ts:236-238 | the enlarged image is closed and nothing else changes |
| QuestionManagement.RequestFor | src/app/pages/Admin/question-management/question-management.component.ts:293-296 | the request carries the form's body, and is an update exactly when a question is being edited, of exactly that question |
| QuestionManagement.Submit | src/app/pages/Admin/question-management/question-management.component.ts:259-296 | submitting keeps the invariant |
| QuestionManagement.SubmitSendsForm | src/app/pages/Admin/question-management/question-management.component.ts:259-296 | an invalid form sends nothing and shows the message of its first failing rule, never the generic one; a valid one sends every value under its own name |
| QuestionManagement.SaveSucceeded | src/app/pages/Admin/question-management/question-management.component.ts:299-303 | the form is emptied and the list reloaded |
| QuestionManagement.SaveFailed | src/app/pages/Admin/question-management/question-management.component.ts:304-307 | the form is kept and the message shown |
| QuestionManagementView.ManagementQuestionComponent.constructor | src/app/pages/Admin/question-management/question-management.component.ts:25-60 | the fields start as `Init()` |
| QuestionManagementView.ManagementQuestionComponent.OnInit | src/app/pages/Admin/question-management/question-management.component.ts:62-64 | the fields become `LoadQuestions` of the old state |
| QuestionManagementView.ManagementQuestionComponent.LoadQuestions | src/app/pages/Admin/question-management/question-management.component.ts:70-75 | the fields become `LoadQuestions` of the old state |
| QuestionManagementView.ManagementQuestionComponent.OnLoadSucceeded | src/app/pages/Admin/question-management/question-management.component.ts:76-80 | the fields become `LoadSucceeded` of the old state |
| QuestionManagementView.ManagementQuestionComponent.OnLoadFailed | src/app/pages/Admin/question-management/question-management.component.ts:81-84 | the fields become `LoadFailed` of the old state |
| QuestionManagementView.ManagementQuestionComponent.ChangePage | src/app/pages/Admin/question-management/question-management.component.ts:88-93 | the fields become `ChangePage` of the old state |
| QuestionManagementView.ManagementQuestionComponent.GetTotalPages | src/app/pages/Admin/question-management/question-management.component.ts:95-97 | returns `TotalPages` of the total |
| QuestionManagementView.ManagementQuestionComponent.AddAnswer | src/app/pages/Admin/question-management/question-management.component.ts:146-157 | the fields become `AddAnswer` of the old state |
| QuestionManagementView.ManagementQuestionComponent.RemoveAnswer | src/app/pages/Admin/question-management/question-management.component.ts:159-166 | the fields become `RemoveAnswer` of the old state |
| QuestionManagementView.ManagementQuestionComponent.ClearForEdit | src/app/pages/Admin/question-management/question-management.component.ts:169-179 | the fields become `ClearForEdit` of the old state |
| QuestionManagementView.ManagementQuestionComponent.EditQuestion | src/app/pages/Admin/question-management/question-management.component.ts:168-183 | the loop over the stored answers leaves the fields as `EditQuestion` of the old state |
| QuestionManagementView.ManagementQuestionComponent.CancelEdit | src/app/pages/Admin/question-management/question-management.component.ts:185-193 | the fields become `CancelEdit` of the old state |
| QuestionManagementView.ManagementQuestionComponent.SetCorrectAnswer | src/app/pages/Admin/question-management/question-management.component.ts:250-257 | the loop over the answers leaves the fields as `SetCorrectAnswer` of the old state |
| QuestionManagementView.ManagementQuestionComponent.OnImageChange | src/app/pages/Admin/question-management/question-management.component.ts:195-225 | the fields become `ImageChanged` of the old state, for any answer index, including one past the end |
| QuestionManagementView.ManagementQuestionComponent.RemoveImage | src/app/pages/Admin/question-management/question-management.component.ts:240-248 | the fields become `ImageRemoved` of the old state, for any answer index, including one past the end |
| QuestionManagementView.ManagementQuestionComponent.OpenImage | src/app/pages/Admin/question-management/question-management.component.ts:227-234 | the fields become `OpenImage` of the old state |
| QuestionManagementView.ManagementQuestionComponent.CloseImage | src/app/pages/Admin/question-management/question-management.component.ts:236-238 | the fields become `CloseImage` of the old state |
| QuestionManagementView.ManagementQuestionComponent.OnSubmit | src/app/pages/Admin/question-management/question-management.component.ts:259-296 | the fields become `Submit` of the old state; a request is returned exactly for a valid form, and it is `RequestFor` the old state |
| QuestionManagementView.ManagementQuestionComponent.OnSaveSucceeded | src/app/pages/Admin/question-management/question-management.component.ts:299-303 | the fields become `SaveSucceeded` of the old state |
| QuestionManagementView.ManagementQuestionComponent.OnSaveFailed | src/app/pages/Admin/question-management/question-management.component.ts:304-307 | the fields become `SaveFailed` of the old state |
| CreateQuestion.Init | src/app/pages/Admin/question/create-question.component.ts:28-52 | no text or image, two blank answers, nothing previewed or enlarged, not loading, no error and nothing sent; the form is invalid; the invariant holds |
| CreateQuestion.AddAnswer | src/app/pages/Admin/question/create-question.component.ts:121-129 | below six a blank answer and an empty preview are appended; at six only the error is set |
| CreateQuestion.RemoveAtKeepsDistinct | src/app/pages/Admin/question/create-question.component.ts:134 | removing a preview keeps the others distinct objects |
| CreateQuestion.RemovalKeepsInv | src/app/pages/Admin/question/create-question.component.ts:131-137 | removing an answer above two keeps the invariant |
| CreateQuestion.RemoveAnswer | src/app/pages/Admin/question/create-question.component.ts:131-140 | with two answers nothing changes; above two position `i` of both lists is removed and only the enlarged image may change besides |
| CreateQuestion.AnswerCountBounds | src/app/pages/Admin/question/create-question.component.ts:121-140 | the list grows by one below six, shrinks by one above two with `i` in range, and removal sets no error |
| CreateQuestion.RemovingShownAnswerKeepsModal | src/app/pages/Admin/question/create-question.component.ts:133-137 | removing the answer whose preview is enlarged leaves it enlarged |
| CreateQuestion.RemovingPreviousAnswerClosesModal | src/app/pages/Admin/question/create-question.component.ts:133-137 | removing the answer just before the enlarged one closes it |
| CreateQuestion.SetCorrectAnswer | src/app/pages/Admin/question/create-question.component.ts:204-212 | the answers become `MarkCorrect` of them, and the invariant holds |
| CreateQuestion.ClearForm | src/app/pages/Admin/question/create-question.component.ts:214-224 | the cleared page keeps the invariant |
| CreateQuestion.ClearedFormRejected | src/app/pages/Admin/question/create-question.component.ts:214-224 | a cleared form cannot be sent, and the page equals a freshly constructed one apart from `loading` and the request bookkeeping |
| CreateQuestion.ImageChanged | src/app/pages/Admin/question/create-question.component.ts:142-174 | a refused file only sets its error; an accepted one becomes the image with a preview under a fresh handle; the enlarged image stays; for an answer index past the end an accepted file changes nothing, because the handler throws |
| CreateQuestion.ImageRemoved | src/app/pages/Admin/question/create-question.component.ts:186-202 | the image and its preview are dropped; for an answer index past the end nothing changes, because the handler throws |
| CreateQuestion.RemovingImageKeepsModal | src/app/pages/Admin/question/create-question.component.ts:188-192 | removing the enlarged question image leaves it enlarged |
| CreateQuestion.OpenImage | src/app/pages/Admin/question/create-question.component.ts:176-180 | a present preview becomes the enlarged one |
| CreateQuestion.CloseImage | src/app/pages/Admin/question/create-question.component.ts:182-184 | the enlarged image is closed and nothing else changes |
| CreateQuestion.FormValidOnPage | src/app/pages/Admin/question/create-question.component.ts:41-119 | the form is valid exactly when the question and every answer have a non-blank text or an image and some answer is correct |
| CreateQuestion.Submit | src/app/pages/Admin/question/create-question.component.ts:226-261 | submitting keeps the invariant |
| CreateQuestion.SubmitSendsForm | src/app/pages/Admin/question/create-question.component.ts:226-261 | an invalid form sends nothing and shows the page's message; a valid one sends every value under its own name, never an address, and an answer image exactly when a preview is shown |
| CreateQuestion.SaveSucceeded | src/app/pages/Admin/question/create-question.component.ts:262-265 | the form is cleared |
| CreateQuestion.SaveFailed | src/app/pages/Admin/question/create-question.component.ts:266-269 | the error is the prefix and the message, or the fallback for an empty message; nothing else changes |
| CreateQuestionView.CreateQuestionComponent.constructor | src/app/pages/Admin/question/create-question.component.ts:28-52 | the fields start as `Init()` |
| CreateQuestionView.CreateQuestionComponent.AddAnswer | src/app/pages/Admin/question/create-question.component.ts:121-129 | the fields become `AddAnswer` of the old state |
| CreateQuestionView.CreateQuestionComponent.RemoveAnswer | src/app/pages/Admin/question/create-question.component.ts:131-140 | the fields become `RemoveAnswer` of the old state |
| CreateQuestionView.CreateQuestionComponent.OnImageChange | src/app/pages/Admin/question/create-question.component.ts:142-174 | the fields become `ImageChanged` of the old state, for any answer index, including one past the end |
| CreateQuestionView.CreateQuestionComponent.OpenImage | src/app/pages/Admin/question/create-question.component.ts:176-180 | the fields become `OpenImage` of the old state |
| CreateQuestionView.CreateQuestionComponent.CloseImage | src/app/pages/Admin/question/create-question.component.ts:182-184 | the fields become `CloseImage` of the old state |
| CreateQuestionView.CreateQuestionComponent.RemoveImage | src/app/pages/Admin/question/create-question.component.ts:186-202 | the fields become `ImageRemoved` of the old state, for any answer index, including one past the end |
| CreateQuestionView.CreateQuestionComponent.SetCorrectAnswer | src/app/pages/Admin/question/create-question.component.ts:204-212 | the loop over the answers leaves the fields as `SetCorrectAnswer` of the old state |
| CreateQuestionView.CreateQuestionComponent.ClearForm | src/app/pages/Admin/question/create-question.component.ts:214-224 | the fields become `ClearForm` of the old state |
| CreateQuestionView.CreateQuestionComponent.OnSubmit | src/app/pages/Admin/question/create-question.component.ts:226-261 | the fields become `Submit` of the old state; a body is returned exactly for a valid form, and it is the form's `Serialize` |
| CreateQuestionView.CreateQuestionComponent.OnSaveSucceeded | src/app/pages/Admin/question/create-question.component.ts:262-265 | the fields become `SaveSucceeded` of the old state |
| CreateQuestionView.CreateQuestionComponent.OnSaveFailed | src/app/pages/Admin/question/create-question.component.ts:266-269 | the fields become `SaveFailed` of the old state |
| VerifyCode.TicksCount | src/app/pages/auth/login-verify.component.ts:88-97 | after `n` ticks the countdown is down by `n` but not below 0, and the guard is held exactly while `n` has not passed the starting countdown |
| VerifyCode.TicksNeverIncrease | src/app/pages/auth/login-verify.component.ts:92-93 | the countdown never goes up while it ticks |
| VerifyCode.BeginResend | src/app/pages/auth/login-verify.component.ts:73-77 | nothing while the guard is held; otherwise the guard is taken and the countdown is back at 60 |
| VerifyCode.Subscribe | src/app/pages/auth/login-verify.component.ts:88-91 | one more countdown subscription; countdown and guard unchanged |
| VerifyCode.Restart | src/app/pages/auth/forgot-password-verify.component.ts:56-60 | the countdown is back at 60 and one more subscription runs |
| VerifyCode.ResendRefused | src/app/pages/auth/login-verify.component.ts:82-85 | a failed resend releases the guard and leaves the countdown |
| VerifyCode.Unsubscribed | src/app/pages/auth/login-verify.component.ts:50-53 | destroying the page ends every countdown subscription |
| VerifyCode.GuardHeldUntilZero | src/app/pages/auth/login-verify.component.ts:73-97 | with the guard held, a resend is refused after `n` ticks exactly when `n` is at most the countdown left |
| VerifyCode.Tick | src/app/pages/auth/login-verify.component.ts:91-97 | one tick lowers a positive countdown by one and keeps the guard; at zero the countdown stays and the guard is released |
| VerifyCode.CodeErrors | src/app/pages/auth/login-verify.component.ts:35-40 | `required` fails exactly on the empty code, `minLength` exactly on 1 to 5 UTF-16 units, `maxLength` exactly above 6 units; there is no error exactly at 6 units |
| VerifyCode.ErrorMessage | src/app/pages/auth/login-verify.component.ts:60-71 | `''` for another field or a valid code; the required message exactly for an empty code; the length message exactly for a non-empty code whose UTF-16 length is not 6 |
| VerifyCode.CodeValid | src/app/pages/auth/login-verify.component.ts:35-40 | the form is valid exactly when the code has six UTF-16 units |
| VerifyCode.AstralCharacterCountsTwice | src/app/pages/auth/login-verify.component.ts:35-40 | a character above U+FFFF counts as two units: five characters can be valid and six can be too long |
| VerifyCode.Init | src/app/pages/auth/login-verify.component.ts:21-41 | an empty, invalid code; countdown 60 with no subscription and the guard free |
| VerifyCode.ReceiveParams | src/app/pages/auth/login-verify.component.ts:43-48 | the query parameters are kept and nothing else changes |
| VerifyCode.Input | src/app/pages/auth/login-verify.component.ts:35-40 | the code is replaced; countdown and `loading` stay |
| VerifyCode.ResendCode | src/app/pages/auth/login-verify.component.ts:73-80 | the request is sent exactly when the guard is free; otherwise nothing changes; after sending, the guard is held and the countdown is at 60 |
| VerifyCode.ResendSucceeded | src/app/pages/auth/login-verify.component.ts:80-81 | the answered resend subscribes once more and keeps the guard |
| VerifyCode.ResendFailed | src/app/pages/auth/login-verify.component.ts:82-85 | the failed resend releases the guard |
| VerifyCode.TickCountdown | src/app/pages/auth/login-verify.component.ts:91-97 | one tick changes only the countdown state, by `Tick` |
| VerifyCode.Submit | src/app/pages/auth/login-verify.component.ts:100-112 | the request is sent exactly when the code has six UTF-16 units and `loading` is clear; otherwise nothing changes; after sending, `loading` is set |
| VerifyCode.VerifyFinished | src/app/pages/auth/login-verify.component.ts:112-136 | on every completion `loading` is cleared, and a truthy access token is handed on |
| VerifyCode.Destroy | src/app/pages/auth/login-verify.component.ts:50-53 | no countdown subscription is left |
| VerifyCode.SubmitIgnoredWhileLoading | src/app/pages/auth/login-verify.component.ts:101 | while a verify request is out every further submit is ignored, so at most one is ever in flight |
| VerifyCode.ResendLockedForCountdown | src/app/pages/auth/login-verify.component.ts:73-97 | after an answered resend, a further resend is refused for exactly the next 60 ticks |
| VerifyCode.FailedResendMayRetry | src/app/pages/auth/login-verify.component.ts:82-85 | after a failed resend the next resend is sent at once |
| VerifyCode.AnsweredResendsStack | src/app/pages/auth/login-verify.component.ts:88-97 | a second answered resend adds a second subscription beside the first, never-cancelled one |
| LoginVerify.LoginVerifyComponent.constructor | src/app/pages/auth/login-verify.component.ts:21-41 | the fields start as `Init` with empty credentials |
| LoginVerify.LoginVerifyComponent.OnInit | src/app/pages/auth/login-verify.component.ts:43-48 | phone number and password come from the query parameters, `''` when absent |
| LoginVerify.LoginVerifyComponent.SetCode | src/app/pages/auth/login-verify.component.ts:35-40 | the fields become `Input` of the old state |
| LoginVerify.LoginVerifyComponent.GetErrorMessage | src/app/pages/auth/login-verify.component.ts:60-71 | returns `ErrorMessage` of the field name and the code |
| LoginVerify.LoginVerifyComponent.ResendCode | src/app/pages/auth/login-verify.component.ts:73-80 | the fields become `ResendCode` of the old state with the page's credentials; they are returned exactly when the guard was free |
| LoginVerify.LoginVerifyComponent.OnResendSucceeded | src/app/pages/auth/login-verify.component.ts:80-81 | the fields become `ResendSucceeded` of the old state |
| LoginVerify.LoginVerifyComponent.OnResendFailed | src/app/pages/auth/login-verify.component.ts:82-85 | the fields become `ResendFailed` of the old state |
| LoginVerify.LoginVerifyComponent.OnTick | src/app/pages/auth/login-verify.component.ts:91-97 | the fields become `TickCountdown` of the old state |
| LoginVerify.LoginVerifyComponent.OnSubmit | src/app/pages/auth/login-verify.component.ts:100-112 | the fields become `Submit` of the old state; the request is returned exactly for a valid code with `loading` clear |
| LoginVerify.LoginVerifyComponent.OnVerifySucceeded | src/app/pages/auth/login-verify.component.ts:112-136 | the fields become `VerifyFinished` of the old state and the reply's token |
| LoginVerify.LoginVerifyComponent.OnVerifyFailed | src/app/pages/auth/login-verify.component.ts:132-136 | the fields become `VerifyFinished` of the old state with no token |
| LoginVerify.LoginVerifyComponent.Destroy | src/app/pages/auth/login-verify.component.ts:50-53 | the fields become `Destroy` of the old state |
| RegisterVerify.RegisterVerifyComponent.constructor | src/app/pages/auth/register-verify.component.ts:21-43 | the fields start as `Init` with empty parameters |
| RegisterVerify.RegisterVerifyComponent.OnInit | src/app/pages/auth/register-verify.component.ts:45-52 | the four fields come from the query parameters, `''` when absent |
| RegisterVerify.RegisterVerifyComponent.SetCode | src/app/pages/auth/register-verify.component.ts:37-42 | the fields become `Input` of the old state |
| RegisterVerify.RegisterVerifyComponent.GetErrorMessage | src/app/pages/auth/register-verify.component.ts:64-75 | returns `ErrorMessage` of the field name and the code |
| RegisterVerify.RegisterVerifyComponent.ResendCode | src/app/pages/auth/register-verify.component.ts:77-90 | the fields become `ResendCode` of the old state with the phone number alone, which is returned exactly when the guard was free |
| RegisterVerify.RegisterVerifyComponent.OnResendSucceeded | src/app/pages/auth/register-verify.component.ts:90-91 | the fields become `ResendSucceeded` of the old state |
| RegisterVerify.RegisterVerifyComponent.OnResendFailed | src/app/pages/auth/register-verify.component.ts:92-95 | the fields become `ResendFailed` of the old state |
| RegisterVerify.RegisterVerifyComponent.OnTick | src/app/pages/auth/register-verify.component.ts:101-107 | the fields become `TickCountdown` of the old state |
| RegisterVerify.RegisterVerifyComponent.OnSubmit | src/app/pages/auth/register-verify.component.ts:110-124 | the fields become `Submit` of the old state; the request, with both names, is returned exactly for a valid code with `loading` clear |
| RegisterVerify.RegisterVerifyComponent.OnVerifySucceeded | src/app/pages/auth/register-verify.component.ts:124-153 | the fields become `VerifyFinished` of the old state and the reply's token |
| RegisterVerify.RegisterVerifyComponent.OnVerifyFailed | src/app/pages/auth/register-verify.component.ts:149-153 | the fields become `VerifyFinished` of the old state with no token |
| RegisterVerify.RegisterVerifyComponent.Destroy | src/app/pages/auth/register-verify.component.ts:54-57 | the fields become `Destroy` of the old state |
| ForgotPasswordVerify.ResetFormValid | src/app/pages/auth/forgot-password-verify.component.ts:36-40 | the form is valid exactly when the code is six ASCII digits and both passwords have at least six UTF-16 units |
| ForgotPasswordVerify.AstralPasswordLongEnough | src/app/pages/auth/forgot-password-verify.component.ts:36-40 | five characters, one of them above U+FFFF, meet `minLength(6)` |
| ForgotPasswordVerify.StartCountdown | src/app/pages/auth/forgot-password-verify.component.ts:56-67 | the countdown is back at 60 and one more subscription runs; the form stays |
| ForgotPasswordVerify.Init | src/app/pages/auth/forgot-password-verify.component.ts:21-45 | the phone number from the query parameters, a countdown at 60 already running, and the guard free |
| ForgotPasswordVerify.Input | src/app/pages/auth/forgot-password-verify.component.ts:36-40 | the form is replaced; countdown and requests stay |
| ForgotPasswordVerify.ResendCode | src/app/pages/auth/forgot-password-verify.component.ts:69-76 | the phone number is sent exactly when the guard is free; otherwise nothing changes; after sending, the guard is held and the countdown at 60 |
| ForgotPasswordVerify.CodeResent | src/app/pages/auth/forgot-password-verify.component.ts:76-77 | the answered resend restarts the countdown with one more subscription |
| ForgotPasswordVerify.CodeResendFailed | src/app/pages/auth/forgot-password-verify.component.ts:78-81 | the failed resend releases the guard |
| ForgotPasswordVerify.TickCountdown | src/app/pages/auth/forgot-password-verify.component.ts:60-66 | one tick changes only the countdown state, by `Tick` |
| ForgotPasswordVerify.Submit | src/app/pages/auth/forgot-password-verify.component.ts:84-100 | the reset request is sent exactly for a valid form with equal passwords; an invalid form changes nothing; unequal passwords only add the alert |
| ForgotPasswordVerify.ResetFinished | src/app/pages/auth/forgot-password-verify.component.ts:100-109 | `loading` is cleared on success and on error alike |
| ForgotPasswordVerify.Destroy | src/app/pages/auth/forgot-password-verify.component.ts:51-54 | no countdown subscription is left |
| ForgotPasswordVerify.ResendOpenDuringFirstCountdown | src/app/pages/auth/forgot-password-verify.component.ts:24-82 | the countdown the constructor starts does not take the guard: a resend right after opening is sent, and once answered two subscriptions count down together |
| ForgotPasswordVerify.ResendLockedForCountdown | src/app/pages/auth/forgot-password-verify.component.ts:56-82 | after an answered resend, a further resend is refused for exactly the next 60 ticks |
| ForgotPasswordVerify.SubmitTwiceSendsTwice | src/app/pages/auth/forgot-password-verify.component.ts:84-109 | with no `loading` guard a second submit sends the same request again, and the first reply clears `loading` while the second is out |
| ForgotPasswordVerify.MismatchNeverSent | src/app/pages/auth/forgot-password-verify.component.ts:86-92 | passwords that differ are never sent and never set `loading` |
| ForgotPasswordVerifyView.ForgotPasswordVerifyComponent.constructor | src/app/pages/auth/forgot-password-verify.component.ts:30-45 | the fields start as `Init` of the phone parameter |
| ForgotPasswordVerifyView.ForgotPasswordVerifyComponent.StartCountdown | src/app/pages/auth/forgot-password-verify.component.ts:56-67 | the fields become `StartCountdown` of the old state |
| ForgotPasswordVerifyView.ForgotPasswordVerifyComponent.SetForm | src/app/pages/auth/forgot-password-verify.component.ts:36-40 | the fields become `Input` of the old state |
| ForgotPasswordVerifyView.ForgotPasswordVerifyComponent.ResendCode | src/app/pages/auth/forgot-password-verify.component.ts:69-76 | the fields become `ResendCode` of the old state; the phone number is returned exactly when the guard was free |
| ForgotPasswordVerifyView.ForgotPasswordVerifyComponent.OnResendSucceeded | src/app/pages/auth/forgot-password-verify.component.ts:76-77 | the fields become `CodeResent` of the old state |
| ForgotPasswordVerifyView.ForgotPasswordVerifyComponent.OnResendFailed | src/app/pages/auth/forgot-password-verify.component.ts:78-81 | the fields become `CodeResendFailed` of the old state |
| ForgotPasswordVerifyView.ForgotPasswordVerifyComponent.OnTick | src/app/pages/auth/forgot-password-verify.component.ts:60-66 | the fields become `TickCountdown` of the old state |
| ForgotPasswordVerifyView.ForgotPasswordVerifyComponent.OnSubmit | src/app/pages/auth/forgot-password-verify.component.ts:84-100 | the fields become `Submit` of the old state; a request is returned exactly for a valid form with equal passwords |
| ForgotPasswordVerifyView.ForgotPasswordVerifyComponent.OnResetFinished | src/app/pages/auth/forgot-password-verify.component.ts:100-109 | the fields become `ResetFinished` of the old state |
| ForgotPasswordVerifyView.ForgotPasswordVerifyComponent.Destroy | src/app/pages/auth/forgot-password-verify.component.ts:51-54 | the fields become `Destroy` of the old state |

## Left out

- HTTP, rxjs and the services. The services' requests are recorded in the state as values, and their replies and errors arrive as parameters. `handleError` of the question service is not part of this model, so the editors take the error message as given.
- Scheduling. `interval`, `timer` and `Date` are not modelled. A tick is a method call; the test timer receives the current time in integer milliseconds. `timeRemaining` is the number of milliseconds rather than a `Date`.
- The role redirect, `setUser`, `localStorage`, JWT decoding and all router navigation (`goBack`, the redirect after a reset). These are foreign calls; only the access token handed to `setToken` is kept.
- DOM, sanitizer and object URLs. A preview is an address or a file. On the creation page a preview is a file with a fresh handle, because that page compares previews by identity.
- `openImage`/`closeImage` of the test-session page, `imageUploading`, `hidePassword` and `hideConfirmPassword`. They only feed the template.
- The delete dialog of the management page.
- `isFieldInvalid`, `markAllAsTouched` and `updateValueAndValidity`. These concern touched and dirty state; validity is recomputed from the form value here.
- `null` in text controls. `reset()` sets text controls to `null`. Every use of the value here goes through `|| ''` or a truthiness test, so `null` is modelled as `''`.
- Negative indexes to `removeAnswer` and `setCorrectAnswer`. `removeAnswer` takes a `nat`; a negative `setCorrectAnswer` index simply marks nothing.
- QuestionManagement.ImageChanged, QuestionManagement.ImageRemoved, CreateQuestion.ImageChanged, CreateQuestion.ImageRemoved and the `OnImageChange` and `RemoveImage` methods of both components: the answer index is a `nat`, so a negative index, which `FormArray.at` would wrap to an answer counted from the end, is not modelled; for an index past the end the handler throws, and `imageUploading` left set by that throw is not modelled.
- PhoneFormat.IntToString: integers of magnitude 10^21 or more, which JavaScript prints in exponent form, are written out in full.
- Multiple emissions of a query-parameter subscription. Each emission is one `OnInit` call.
- Fractional numbers. A numeric `phoneFormat` argument is an integer; floating point is not modelled.
- TestSession.Letter: requires the code to stay below the surrogate range, because `String.fromCharCode` of larger values produces UTF-16 units, which `char` does not model.
- QAnswer.image: the optional `image` field of a stored answer is never read by the pages and is not modelled.
- Which countdown subscription delivers a tick. Subscriptions are counted, and a tick is a tick of any of them.

## Findings

| source | as written | input that shows it | evidently intended | confidence | as-written member | corrected member |
|---|---|---|---|---|---|---|
| src/app/services/test-session.service.ts:56-64 | the HTTP error is replaced by `new Error(message)`, so `err.status` is undefined when `startTest` tests it for 401 (test-session.component.ts:60-63) | a 401 answer to the start request | a 401 shows "Foydalanuvchi autentifikatsiyadan o‘tmagan" | not executed | TestSession.StartFailureNeverReportsAuth | TestSession.StartFailureWithStatusReportsAuth |
| src/app/pages/Dashboards/test-session/test-session.component.ts:82-96 | the accept handler moves the index on without checking that the answer belongs to the session now held | start, session s1, answer, start again, acceptance of the first answer, session s2: index 1 with question 0 of s2 shown | a reply for an abandoned session is ignored, so s2 starts at its first question under index 0 | not executed | TestSession.StaleAnswerSkipsQuestion | TestSession.StaleAnswerIgnoredAfterRestart |
