# MockTest quiz session, modelled in Dafny

The repository is a single-window quiz application (`MOCKTEST.py`): the user
picks a subject and a number of questions, multiple-choice questions are
fetched from an online trivia bank, shown one at a time under a countdown of
60 seconds per question, and on submission (by the Submit button or when the
countdown runs out) a result window lists each question with its correct
answer coloured green, red or black, the score and a suggestion.

This project models the session state of the `MockTestApp` object with the
widgets stripped away:

- `decimal.dfy` (module `Decimal`): digit strings, for reading the requested
  count (`isdigit` and `int`) and for the two-digit timer fields.
- `helpers.dfy` (module `Helpers`): the expression-only parts: the `MM:SS`
  timer text with an independent parser and a round-trip proof, the
  suggestion tiers, the per-question colour, the result view, counts of the
  colours, ASCII lower-casing, the subject-to-category table and the start
  checks.
- `session.dfy` (module `MockTest`): class `Session` with the fields
  `questions`, `correctAnswers`, `questionIndex`, `selectedAnswers`, `score`
  and `timeLeft`, and one method per action: `Previous`, `Next`, `Save`,
  `Submit`, `Tick` (one second of the countdown), `Reset`, `Load` (installing
  fetched questions and showing the current one) and `Start` (the Start
  button). The option the user has picked is a parameter of `Next`, `Save`,
  `Submit` and `Tick`; `""` means nothing was picked. A ghost field `saves`
  counts the saves since the last reset; the object invariant `Valid()` keeps
  `0 <= questionIndex < |questions|` while a session is active,
  `questionIndex <= |selectedAnswers|`, `correctAnswers` aligned with the
  questions, and `0 <= score <= saves`.
- `scenarios.dfy` (module `Scenarios`): concrete runs of a `Session`, each
  returning what the result view shows.
- `wrappers.dfy` (module `Wrappers`): `Option` and `Result`.

Some behaviours of the code are easy to miss, and the model keeps them as
written:

- The score is counted rather than recomputed: one point on every save of a
  correct choice (MOCKTEST.py:206-207). So revisiting an answered question and
  pressing Next counts it again, and a timeout saves twice (MOCKTEST.py:166
  and 212). The contracts say "each save adds at most one" and
  "score <= saves". `Scenarios.TimeoutCountsTwice` and
  `Scenarios.RevisitCountsTwice` show a displayed score of 2 out of 1 and
  2 out of 2, each with one green line.
- Pressing Next with nothing picked saves `""`, so a question passed over is
  shown red (wrong), not black. Black marks a question that was never saved:
  one never reached, or one left with Previous, which saves nothing
  (`Scenarios.SkippedQuestionIsWrong`, `Scenarios.TimeoutMidSession`,
  `Scenarios.LeftWithPreviousIsBlack`).
- Showing question 0 restarts the countdown at `N * 60`, also when the user
  comes back to it with Previous (MOCKTEST.py:142-144).
- Submitting shows the result view and immediately resets the session, so
  no finished state remains for a second submit to read.
- Starting while a session is running replaces the questions but keeps the
  cursor, the saved answers and the score (MOCKTEST.py:112-118); when the
  cursor is past the new questions the result view is shown at once.

## Model

| member | source | states |
|---|---|---|
| `Decimal.Digits` | MOCKTEST.py:177 | the decimal rendering of a number is a non-empty digit string, one digit exactly below 10, at most two below 100, no leading zero from 10 on |
| `Decimal.ValueOfDigits` | MOCKTEST.py:177 | reading back the decimal rendering of `n` gives `n` |
| `Decimal.LeadingZero` | MOCKTEST.py:177 | a zero padded in front of a digit string does not change its value |
| `Decimal.Value` | MOCKTEST.py:78 | `int(...)` of a digit string; the value is 0 exactly when every digit is `0`, so a count such as "000" is rejected |
| `Helpers.Pad2` | MOCKTEST.py:177 | `format(n, '02')` is at least two characters; for `n >= 0` they are digits that read back as `n`, exactly two below 100; for `n < 0` a minus sign followed by the digits of `-n` |
| `Helpers.FormatTime` | MOCKTEST.py:174-177 | the timer text is at least five characters, with a colon before two second digits, and starts with a minus sign exactly when the count is negative |
| `Helpers.FormatTimeShape` | MOCKTEST.py:174-177 | for `s >= 0` the timer text is minutes `s // 60` (at least two digits), `:`, seconds `s % 60` (two digits, below 60); for `s < 6000` it is exactly five characters |
| `Helpers.FormatTimeRoundTrip` | MOCKTEST.py:174-177 | parsing the timer text of any `s >= 0` gives back `s` |
| `Helpers.FormatTimeNegative` | MOCKTEST.py:174-177 | a negative count `s` renders as `-M:SS` with two digits `SS < 60` and `SS - M * 60 == s`, the floor division of Python |
| `Helpers.FormatTimeMinusOne` | MOCKTEST.py:174-177 | minus one second renders as `-1:59` |
| `Helpers.Suggestion` | MOCKTEST.py:271-277 | "Excellent!" iff score > 7, "Good job! Keep practicing." iff 4 < score <= 7, "You need more practice." iff score <= 4 |
| `Helpers.Classify` | MOCKTEST.py:254-260 | green iff the question has a saved answer equal to its correct answer, red iff it has a saved answer that differs, black iff no answer was saved for it |
| `Helpers.ResultOf` | MOCKTEST.py:240-267 | the result view has the counted score and total `N`; line `i` shows question `i` and its correct answer, green iff an answer was saved for it and equals the correct answer, red iff a saved answer differs, black iff none was saved; the suggestion is in the tier of the score |
| `Helpers.ColoursPartition` | MOCKTEST.py:248-260 | every question gets exactly one colour: green + red + black lines = questions |
| `Helpers.UnansweredCount` | MOCKTEST.py:254-260 | the black lines are exactly the questions beyond the saved answers |
| `Helpers.ReportPrefixCounts` | MOCKTEST.py:248-260 | each colour occurs in the first `n` lines of the view as often as among the first `n` questions |
| `Helpers.ReportCounts` | MOCKTEST.py:248-260 | the view has as many green lines as correctly saved answers, one black line per question beyond the saved answers, and every line has one of the three colours |
| `Helpers.CorrectCountBound` | MOCKTEST.py:254-256 | green lines are at most the number of questions and at most the number of saved answers |
| `Helpers.LowerChar` | MOCKTEST.py:71 | the result is never a capital; a capital becomes the small letter at the same alphabet position; any other character is kept |
| `Helpers.Lower` | MOCKTEST.py:71 | lower-casing keeps the length, leaves no capital, keeps every non-capital and moves each capital by 32 code points |
| `Helpers.LowerIdempotent` | MOCKTEST.py:71 | lower-casing twice is lower-casing once |
| `Helpers.LowerFixesLowercase` | MOCKTEST.py:71 | a string with no capitals is its own lower case |
| `Helpers.ValidateStart` | MOCKTEST.py:71-99 | the subject "select" (any case) is rejected first; then a count that is not all digits with value > 0; then any subject other than jee, neet, civil services; an accepted start carries the lower-cased subject, the count, and category 17 (jee, neet) or 23 (civil services) |
| `Helpers.ValidateStartIgnoresCase` | MOCKTEST.py:71-99 | two subjects with the same lower case get the same verdict |
| `Helpers.TopicTable` | MOCKTEST.py:89-93 | the subject table has exactly jee, neet and civil services, with categories 17, 17 and 23 |
| `Helpers.SubjectAccepted` | MOCKTEST.py:71-99 | every listed subject in any ASCII case, with a positive digit count, is accepted with its category |
| `MockTest.Store` | MOCKTEST.py:201-204 | with `idx <= len`, the answer list after a save holds the choice at `idx`, grows by one exactly when `idx == len`, and keeps every other entry; with `idx > len` the choice is appended at the end |
| `MockTest.ScoreAfter` | MOCKTEST.py:206-209 | from a score >= 0, the new score is >= 0 and rises by exactly one iff the choice equals the correct answer, otherwise is unchanged |
| `MockTest.StoreTwice` | MOCKTEST.py:165-167 | saving the same choice twice for one question stores what one save stores |
| `MockTest.ScoreTwice` | MOCKTEST.py:206-209 | saving a correct choice twice adds two points; a wrong one adds none |
| `MockTest.Session.constructor` | MOCKTEST.py:13-22 | a new session is empty, valid and inactive, with score, cursor and countdown at 0 |
| `MockTest.Session.ShowQuestion` | MOCKTEST.py:141-144 | showing question 0 sets the countdown to `N * 60`; showing any other question leaves it |
| `MockTest.Session.Save` | MOCKTEST.py:199-209 | the answer list becomes `Store` of the old list at the cursor, the score `ScoreAfter` of the old score, at most one point more; one more save; nothing else changes; the invariant is kept |
| `MockTest.Session.Previous` | MOCKTEST.py:188-191 | the cursor moves back by one only when it is > 0; arriving at question 0 restarts the countdown; nothing is saved; the invariant is kept |
| `MockTest.Session.Next` | MOCKTEST.py:193-197 | the current choice is saved, then the cursor moves forward by one only when it is < N-1; the countdown is unchanged; the invariant is kept |
| `MockTest.Session.Reset` | MOCKTEST.py:279-284 | score and cursor become 0 and the question, correct-answer and answer lists become empty; the countdown value is untouched |
| `MockTest.Session.ShowResult` | MOCKTEST.py:240-269 | returns the result view of the state as it was, then the session is reset |
| `MockTest.Session.Submit` | MOCKTEST.py:211-213 | returns the result view of the state after saving the choice, then the session is reset |
| `MockTest.Session.Tick` | MOCKTEST.py:161-172 | the countdown drops by exactly one; if it is then <= 0 the choice is saved twice (expiry, then submit) and the result view of that state is returned with the session reset; otherwise nothing else changes and the warning flag is set iff 10 seconds or fewer remain |
| `MockTest.Session.Load` | MOCKTEST.py:112-147 | the fetched questions and their correct answers are installed with cursor, answers and score kept; if the cursor is on a question it is shown (countdown restarted at question 0), otherwise the result view is returned and the session reset |
| `MockTest.Session.Start` | MOCKTEST.py:70-118 | rejected inputs and failed fetches change nothing and report the cause; a successful fetch loads the questions |
| `Scenarios.RunClock` | MOCKTEST.py:161-172 | `n` ticks that do not reach zero lower the countdown by `n` and change nothing else |
| `Scenarios.StartWith` | MOCKTEST.py:70-144 | starting a fresh session with accepted inputs leaves it on question 0 with no answers, score 0 and the countdown at `N * 60` |
| `Scenarios.JeeAccepted` | MOCKTEST.py:71-99 | the subject box's "JEE" with any positive digit count is accepted as jee, category 17 |
| `Scenarios.OneCorrectAnswer` | MOCKTEST.py:193-213 | one question answered correctly and submitted: score 1 of 1, green, "You need more practice." |
| `Scenarios.SkippedQuestionIsWrong` | MOCKTEST.py:193-204 | a question passed over with nothing picked is saved as "" and shown red |
| `Scenarios.TimeoutMidSession` | MOCKTEST.py:161-167 | countdown expiry on question 3 of 5 after two correct answers: score 2, the third red, the last two black |
| `Scenarios.TimeoutCountsTwice` | MOCKTEST.py:165-167 | a correct answer on the only question left until expiry is counted twice: score 2 of 1 with one green line |
| `Scenarios.LeftWithPreviousIsBlack` | MOCKTEST.py:188-191 | a question shown and left with Previous is never saved and is black when the countdown expires elsewhere |
| `Scenarios.RevisitCountsTwice` | MOCKTEST.py:188-207 | going back and passing a correct answer again counts it again (score 2 of 2 with one correct), and returning to question 0 restarts the countdown at 120 |
| `Scenarios.RestartAfterSubmit` | MOCKTEST.py:279-284 | after a submitted session another start begins on question 0 with no answers, score 0 and a full countdown |

## Left out

- Widgets, layout, colours of the timer label and message boxes: only the
  green/red/black decision and a "10 seconds or fewer" warning flag are kept
  as values; the Next/Submit button visibility of `update_navigation_buttons`
  is not modelled.
- The HTTP request to the question bank, its URL, status code and JSON
  response code: the bank's answer is the `FetchResult` parameter of
  `Start`.
- `html.unescape`: question and answer strings are taken as already decoded.
- `random.shuffle` of the displayed options and `random.randint` of the
  decorative year: the option order is not modelled and the year is part of
  the input `Question`.
- `root.after` / `after_cancel` scheduling: each second is an explicit call
  of `Tick`. The source never cancels the countdown on submission. On the
  emptied session a late tick only lowers `time_left` and re-arms itself
  (MOCKTEST.py:162, 168-172); the tick that reaches 0 appends to the answer
  list and then raises on the empty `correct_answers` (MOCKTEST.py:202, 206).
  The model only ticks an active session.
- `Session.Next`, `Session.Save`, `Session.Submit`, `Session.Tick`: require an
  active session. On an empty session the source's save raises (no selection
  variable before the first question is shown, or the empty
  `correct_answers` list at MOCKTEST.py:206).
- `Session.Submit`: may be called at any question. The window offers Submit
  only on the last question, and `start_mock_test` hides it after every start
  (MOCKTEST.py:85), so a one-question test can end only by the countdown;
  the run of `Scenarios.OneCorrectAnswer` is not offered by the window.
- `Helpers.ValidateStart`: accepts a digit count of any length, while
  Python's `int(...)` raises for strings over 4300 digits (MOCKTEST.py:78).
- `Helpers.Lower` and `Decimal.IsDigitString`: ASCII only; Python's
  `str.lower` and `str.isdigit` also handle other Unicode letters and digits.
- The `total_questions` field: it equals `|questions|` whenever it is read,
  so the model uses `|questions|`.
- The module-level background image and `mainloop` code.
