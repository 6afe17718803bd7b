# EduBot mobile client: test-taking screen and API interceptors, modelled in Dafny

This project models the two pieces of logic in the EduBot mobile client.

**The test-taking screen** (`TestDetail`, file `test_detail.dfy`) is the class `TestDetailScreen`. Its fields are the screen's state: the route `id`, the loaded `test`, `loading`, `error`, the `answers` array (`-1` means unanswered), `submitting`, `result` and the `current` question index. Each handler is a method:
- `Load` is the fetch effect. It depends only on the route id, which does not change while the screen is open, so it runs once, from the first render. With no id (absent or empty) nothing is requested and nothing changes. A fetched test gets a fresh answer array of its size, all `-1`. A failed fetch sets the fixed error text.
- `Select` is `handleSelect`. It copies the array, writes the current slot, and installs the copy.
- `Next` is `handleNext`. It refuses while the current slot is `-1`, moves to the next question, or, on the last question, sets `submitting` and returns the payload `{questionId, answer}` in question order.
- `FinishSubmit` is the end of the awaited `submitTest` call. It stores the result on success, and in both cases clears `submitting`.

The two backend calls are parameters: what `getTestById` returned (`FetchOutcome`) and what `submitTest` returned (`SubmitOutcome`). The option and next buttons are disabled while `submitting`. A press then does nothing (`Ignored`). The handlers require `Showing()`, which holds only while the question view is rendered: not loading, no error, a test, no result, and `questions[current]` exists. Outside that view the buttons do not exist.

**The API client's interceptors** (`AuthInterceptor`, file `auth_interceptor.dfy`) cover two rules:
- The request interceptor (`WithBearer`, `AttachToken`) sets `Authorization: Bearer <token>` only when a non-empty token and a headers object are both present.
- The response interceptor (`HandleError`) works out three things: the alert text (the server's `error`, or `'Đã có lỗi xảy ra'`); what pressing OK does (`NoAction` or `Redirect("/login")`); and the value the promise is rejected with (`error.response?.data`). `Includes` and `IncludesAny` model JavaScript's `includes` and `some`.

The screen's invariant `Valid()` keeps one answer slot per question and says that every question before `current` is answered, so a submission is only ever sent with every slot answered.

Some behaviours of the code worth stating plainly:
- A failed submission has no state of its own: the last question stays on screen, and pressing submit again resends. `RetryAfterFailure` proves that the resent payload is identical.
- `Load` touches neither `current` nor `result`; it sets only the test, the answers, `loading` and `error`.
- The option buttons only offer the current question's options, and `handleSelect` itself checks nothing. `Select` therefore requires the index to be one of those options.
- A press during submission is not an error: the buttons are disabled. This is the `Ignored` step.

## Model

| member | source | states |
|---|---|---|
| `TestDetail.TestDetailScreen.constructor` | app/test-detail.tsx:9-16 | first render: spinner on, no test, empty answer array, no result, question 0, not submitting |
| `TestDetail.TestDetailScreen.Load` | app/test-detail.tsx:19-35 | runs from the first render; no id: no request and the first-render state kept; fetched: test stored, fresh answer array of length `questions.length`, every entry -1, loading off, no error; failed: error text set, test and answers kept; `current`, `submitting`, `result` never change |
| `TestDetail.LoadWithoutId` | app/test-detail.tsx:20 | a screen opened with an empty id issues no fetch and returns with every field at its first-render value |
| `TestDetail.TestDetailScreen.Select` | app/test-detail.tsx:37-41 | the new answer array is a fresh copy equal to the old one with only slot `current` set to the option; while submitting (option buttons disabled, line 120) nothing changes |
| `TestDetail.SelectTwice` | app/test-detail.tsx:37-41 | two selections on one question leave only the second: last write wins |
| `TestDetail.TestDetailScreen.Next` | app/test-detail.tsx:43-59 | while submitting (button disabled, line 136): ignored; unanswered slot: refused with nothing changed; answered non-last: `current` grows by exactly 1 and stays below `questions.length`; answered last: `submitting` set and payload `FormatAnswers(questions, answers)` sent for the route id, with every slot answered; answers never change; `Valid()` (earlier questions answered) is kept |
| `TestDetail.NextTwiceUnanswered` | app/test-detail.tsx:44-47 | two presses without an answer are both refused and leave position, answers and result as they were |
| `TestDetail.TestDetailScreen.FinishSubmit` | app/test-detail.tsx:59-65 | success stores the returned result; failure leaves `result` as it was; `submitting` returns to false and answers and position are kept |
| `TestDetail.RetryAfterFailure` | app/test-detail.tsx:52-65 | after a failed submission a second press resends exactly the same payload |
| `TestDetail.FormatAnswers` | app/test-detail.tsx:55-58 | the payload has one entry per question, and entry i carries question i's id and answer i |
| `TestDetail.FormatAnswersRoundTrip` | app/test-detail.tsx:55-58 | the payload's ids are the questions' ids and its answers are the answer array, in order |
| `TestDetail.FormatAnswersInjective` | app/test-detail.tsx:55-59 | two answer arrays give the same payload exactly when they are equal |
| `TestDetail.ThreeQuestionSession` | app/test-detail.tsx:19-65 | three two-option questions answered 1, 0, 1 send `[{q1,1},{q2,0},{q3,1}]`, and a scored result is shown verbatim |
| `AuthInterceptor.Includes` | services/authService.ts:56-65 | `s.includes(sub)` holds exactly when `sub` occurs at some offset of `s` |
| `AuthInterceptor.IncludesAny` | services/authService.ts:56 | `patterns.some(p => s.includes(p))` holds exactly when some pattern is included |
| `AuthInterceptor.WithBearer` | services/authService.ts:28-32 | with a non-empty token and headers: `Authorization` becomes `Bearer <token>`, no other header changes and no other key appears; otherwise the headers are returned unchanged |
| `AuthInterceptor.WithBearerIdempotent` | services/authService.ts:28-32 | running the request rule twice with one token equals running it once |
| `AuthInterceptor.AttachToken` | services/authService.ts:26-33 | updates the given config in place to `WithBearer` of its headers and returns that same config |
| `AuthInterceptor.ErrorMessage` | services/authService.ts:40 | the server's non-empty `error` if there is one, otherwise the default `'Đã có lỗi xảy ra'`; never empty |
| `AuthInterceptor.HandleError` | services/authService.ts:39-76 | the alert shows `ErrorMessage`, and the rejection value is `error.response?.data` whatever the classification |
| `AuthInterceptor.Classify` | services/authService.ts:53-71 | the OK handler either does nothing or redirects to `/login`, and redirects exactly for status 401 with no password error and some logout keyword in the message |
| `AuthInterceptor.RedirectIff` | services/authService.ts:54-71 | OK redirects to login exactly when the status is 401, no password error is included, and some logout keyword is included |
| `AuthInterceptor.NonUnauthorizedNeverRedirects` | services/authService.ts:54 | any status other than 401, or no response at all, never redirects |
| `AuthInterceptor.PasswordErrorTakesPrecedence` | services/authService.ts:42-59 | a message containing any password error never redirects, whatever keywords it also contains |
| `AuthInterceptor.LogoutKeywordRedirects` | services/authService.ts:61-69 | a 401 containing a logout keyword and no password error redirects to `/login` |
| `AuthInterceptor.UnmatchedMessageStays` | services/authService.ts:54-71 | a message containing no logout keyword never redirects |
| `AuthInterceptor.MissingMessageNeverRedirects` | services/authService.ts:40-71 | without a usable server message the alert shows the default text, and even a 401 then never redirects |
| `AuthInterceptor.ExpiredJwtRedirects` | services/authService.ts:61-69 | a 401 with message `jwt expired` redirects to login |
| `AuthInterceptor.WrongPasswordBeatsUnauthorized` | services/authService.ts:56-65 | a 401 with `Unauthorized: Sai mật khẩu` does not redirect |

## Left out

- Rendering, styles and layout of the screen. The model keeps only the view predicate `Showing()` that gates the handlers. An empty question list never reaches the question view, because rendering `questions[current]` would fail first.
- The progress-bar width at app/test-detail.tsx:103: floating-point display arithmetic.
- The score grid: it is commented out in the source.
- The alert dialogs. They show text only. `HandleError` models the response alert through its message and its OK action. A dismissal that never presses OK, leaving the redirect unrun, is not modelled.
- `AuthInterceptor.Classify`: `Redirect("/login")` records what the handler asks the router for. The handler obtains the router by calling `useRouter()`, a hook, inside an alert callback (services/authService.ts:67); whether navigation then really happens depends on expo-router and is not modelled.
- Router calls other than the `/login` replacement (the back buttons): navigation.
- `AsyncStorage`, axios and the backend. The stored token is a parameter of `AttachToken`. The fetch and submit results are parameters. `authApi` and the other service wrappers are thin HTTP calls.
- `TestDetail.TestDetailScreen.FinishSubmit`: a success whose returned value is itself empty (falsy) is still stored as a result. The source would then keep showing the questions.
- Async timing. Loading is one atomic step. Submission is two steps, split at its `await`. Nothing else interleaves.
- The other screens, components, contexts and static data of the app: they are presentation or storage glue with no logic.
