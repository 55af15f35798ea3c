# Quiz page state machine

This project models the logic of a browser quiz page. The page has four fixed questions with three
answers each, shown one at a time. A click on an answer adds it to that question's answer list, and
a selected answer cannot be unselected. Previous and next buttons move between questions. A row of
progress lines marks the current question and the questions already visited. Submit counts the
questions whose list contains the right answer and turns that into a percentage. The results
screen then plays a counter animation: it counts 1, 2, …, 34 and then jumps to a fixed 62, which does
not depend on the computed score. "Start again" cancels the animation and resets the quiz.

All of this lives in `js/script.js`. The model has seven modules, one per concern:

- `QuizData` (quiz_data.dfy): the question table. Each entry keeps only its answer count and its
  correct answer.
- `Selections` (selections.dfy): the per-question answer lists and the append-only click.
- `Scoring` (scoring.dfy): the correct-answer count, its loop, and half-up rounding to a
  percentage.
- `Views` (views.dfy): the decisions behind the DOM updates. These are the answer-button highlights,
  the class of each progress line (`Active`, `Completed` or `Default`) and the visibility and
  enablement of the prev, next and submit buttons.
- `ScoreTicker` (score_ticker.dfy): the body of the 20 ms interval as a step function, and what
  many firings in a row do.
- `QuizState` (quiz_state.dfy): the script's six module-level variables (lines 26-31) as a
  `Session` value. Each handler is a pure transition on it, with the invariants they keep and
  lemmas about runs of clicks.
- `Controller` (controller.dfy): class `Quiz`. It holds the same six variables as fields, plus the
  animation's counter and display. Each handler is a method that updates those fields in place,
  and each method's `ensures` ties the new state to the matching `QuizState` transition.

Inputs from the host page are parameters. The handles that `setTimeout` and `setInterval` return
are passed in as `TimerId` values. Timer firings are explicit method calls (`StartTicker`, `Tick`).

Where the script's own comments, or a natural reading of it, suggest something the code does not
do, the model follows the code:

- `userAnswers = []` in initQuiz (js/script.js:36) reads as "no answers", but the store does not
  stay empty: displayQuestion creates an empty list for question 0 at once, so the store is `{0: []}` (`QuizState.Init`). No question has an answer.
- The comment "Show numbers 1-35" (js/script.js:248) says the animation shows 35. The code never shows 35: the 35th firing writes
  62 (`ScoreTicker.DisplayedValues`).
- The delayed-start handle `scoreTimeout` (js/script.js:230) is not reset to null after it fires. It keeps the old id
  until the next clear (`Controller.Quiz.StartTicker`).
- startAgain (js/script.js:262-308) calls initQuiz at once, not after a transition. It first sets `quizStarted` to false,
  and initQuiz sets it back to true.
- Answer lists (js/script.js:93-96) are ordered arrays that never hold duplicates, not sets.

## Model

| member | source | states |
|---|---|---|
| QuizData.QuestionTableWellFormed | js/script.js:2-23 | the table has four questions and each correct answer is one of the offered answers |
| Selections.AnswersFor | js/script.js:181 | computes `userAnswers[q] \|\| []`, the list recorded for question q with a missing list read as empty; Display, Select, Next and Previous state their effect through it |
| Selections.AddSelection | js/script.js:93-96 | one click keeps the old list as a prefix; afterwards the answer is in the list; the elements are the old ones plus the answer; the list is unchanged exactly when the answer was already there; the length grows by one otherwise; no duplicates appear |
| Selections.AddSelectionsAccumulates | js/script.js:86-96 | after any run of clicks the original list is a prefix, the elements are exactly the old ones and the clicked ones, and there are still no duplicates |
| Selections.ReselectingIsNoOp | js/script.js:93-96 | clicking only answers that are already selected leaves the list unchanged, so nothing is ever deselected |
| Selections.RepeatingClicksIsNoOp | js/script.js:87-96 | repeating a whole run of clicks gives the same list as doing it once |
| Scoring.AnsweredCorrectly | js/script.js:181-182 | computes whether question q's list, a missing list read as empty, contains its correct answer; Scoring.CorrectUpToIsCardinality and Scoring.PerfectScore state the count and the score through it |
| Scoring.CorrectUpTo | js/script.js:179-185 | the running count over the first k questions never exceeds k |
| Scoring.CorrectCount | js/script.js:179-185 | correctAnswers never exceeds the number of questions |
| Scoring.CorrectUpToIsCardinality | js/script.js:180-184 | the running count equals the number of questions whose list (a missing list read as empty) contains the correct answer |
| Scoring.CountCorrect | js/script.js:179-185 | the forEach loop returns the correct-answer count, which is also the size of the set of correctly answered questions |
| Scoring.Score | js/script.js:187 | the score is 100 * correct / n rounded to the nearest integer with halves rounded up, and lies in 0..100 |
| Scoring.ScoreOfFourQuestions | js/script.js:187 | with four questions the score is exactly 25 per correct answer, so integer rounding agrees with the floating-point formula |
| Scoring.ScoreBounds | js/script.js:187 | no correct answer scores 0 and all correct scores 100 |
| Scoring.QuizScore | js/script.js:176-187 | for the shipped table the score is 25 times the correct count and at most 100 |
| Scoring.CorrectUpToMonotone | js/script.js:180-184 | if every answer list only grew at its end, the correct count cannot drop |
| Scoring.FullCountMeansAllCorrect | js/script.js:179-185 | the running count over the first k questions is k exactly when each of them is answered correctly |
| Scoring.PerfectScore | js/script.js:176-187 | the quiz scores 100 exactly when every question's list contains its correct answer |
| Scoring.ExampleScore | js/script.js:179-187 | answers [[1], [1], [0], [1, 2]] against the shipped key score 75 |
| Views.ProgressLine | js/script.js:115-122 | a line is Active iff it is the current question, Completed iff it is visited and not current, Default iff neither |
| Views.ProgressIndicator | js/script.js:107-127 | one line per question; a line is Active iff it is the current question, Completed iff visited and not current, Default iff neither |
| Views.OneActiveLine | js/script.js:115-118 | when the current index is in range, exactly one line is Active, the current one |
| Views.ProgressShowsVisited | js/script.js:111-126 | the lines that are not Default are exactly the visited questions plus the current one |
| Views.NavigationButtons | js/script.js:136-148 | computes the display and enablement of prev, next and submit from the index alone; Views.ButtonsByPosition states it case by case, Views.EnabledButtonsMove and QuizState.ButtonsMatchHandlers tie it to the handlers |
| Views.ButtonsByPosition | js/script.js:135-148 | on the last question prev and next are hidden and submit is shown and enabled; elsewhere prev is shown (disabled only at index 0), next is shown and enabled, submit is hidden |
| Views.EnabledButtonsMove | js/script.js:136-167 | next is shown and enabled iff nextQuestion would move; prev is shown and enabled iff it would move and the question is not the last; exactly one of next and submit is shown |
| Views.AnswerHighlights | js/script.js:73-79 | answer button i is highlighted iff i is in the current question's list |
| ScoreTicker.ResetDisplay | js/script.js:210-213 | the score number reads 0 and the percent sign is hidden; the counter is untouched |
| ScoreTicker.Tick | js/script.js:234-250 | computes one firing of the interval body: the counter goes up by one, the percent sign shows once it is positive, 35 becomes 62 and below 35 the number is shown; ScoreTicker.RunFromArmed states what successive firings show |
| ScoreTicker.Step | js/script.js:233-251 | computes one firing of a live interval, which clears itself on the firing that reaches 35 (js/script.js:245-246); a cleared interval does not fire; ScoreTicker.RunFromArmed and ScoreTicker.ClearedIntervalNeverFires state its effect |
| ScoreTicker.Run | js/script.js:233-251 | computes k firings in a row; ScoreTicker.RunFromArmed states the result for every k |
| ScoreTicker.RunFromArmed | js/script.js:230-251 | from counter 0, after k < 35 firings the counter and the display are k, the percent sign shows once k > 0, and the interval is live; from the 35th firing on the display is 62 and the interval is cleared |
| ScoreTicker.ClearedIntervalNeverFires | js/script.js:245-246 | once clearInterval has run, any number of further firings changes nothing |
| ScoreTicker.DisplayedValues | js/script.js:226-251 | every displayed value is the starting text, one of 1..34, or 62; 35 is never shown; the interval is live iff fewer than 35 firings happened; only the firing count decides the value, never the computed score |
| QuizState.Valid | js/script.js:26-31 | the invariant of the six variables: index in range, visited and answer keys in range, every list free of duplicates and holding only offered answers, and once started the current question visited and given a list (js/script.js:53, 68-71); QuizState.Apply and QuizState.Replay state that every click keeps it |
| QuizState.LoadedIsValid | js/script.js:26-31 | the variables as declared form a `Session` value that satisfies the invariant: not started, no answers, nothing visited, both handles null |
| QuizState.Display | js/script.js:52-71 | the current question joins visited and gets an answer list if it had none; the answers read through `userAnswers[q] \|\| []` do not change; nothing else changes |
| QuizState.Init | js/script.js:34-42 | index 0, started, visited = {0}, no answers (the store holds only the empty list of question 0), timer handles unchanged, invariant established |
| QuizState.Select | js/script.js:87-104 | the current question's list becomes AddSelection of its old list; other questions are unchanged; no list shrinks; re-selecting changes nothing; the invariant is kept |
| QuizState.Next | js/script.js:152-163 | at the last index nothing changes; otherwise the index goes up by exactly one and both the question left and the question reached are visited; answers are unchanged; visited only grows; the index stays in range |
| QuizState.Previous | js/script.js:166-173 | at index 0 nothing changes; otherwise the index goes down by exactly one and the question reached is visited; answers are unchanged; visited only grows |
| QuizState.ClearTimers | js/script.js:201-208 | both timer handles are null and nothing else changes |
| QuizState.ShowResults | js/script.js:200-230 | the interval handle is null and the delayed start holds the new handle; nothing else changes |
| QuizState.Restart | js/script.js:262-307 | from any state, startAgain gives the state of the first initQuiz after page load, with both handles null |
| QuizState.Render | js/script.js:39-41 | the painted screen after a display: one highlight per answer button, set iff the answer is in the current list; one progress line per question, the current one Active and the others Completed iff visited; submit shown and enabled iff on the last question, hidden otherwise (also js/script.js:159-161, 169-171) |
| QuizState.ButtonsMatchHandlers | js/script.js:136-173 | next is shown and enabled iff nextQuestion would move the index, and when hidden nextQuestion does nothing; prev is shown and enabled iff previousQuestion would move and the question is not the last, and shown disabled iff previousQuestion does nothing; on the last question prev is hidden although previousQuestion would still move back |
| QuizState.SelectingTheKeyCounts | js/script.js:87-104 | every question's key is one of its answer buttons; clicking it makes the current question count as correct; when every other question is already right, the quiz then scores 100 |
| QuizState.DisplayIdempotent | js/script.js:52-71 | displaying a question twice gives the same state as displaying it once |
| QuizState.Advance | js/script.js:152-163 | any number of next clicks keeps the session invariant |
| QuizState.AdvanceVisitsEveryStep | js/script.js:152-163 | after k next clicks from a displayed question the index is min(start + k, N - 1), and every question on the way is visited |
| QuizState.AdvanceFromStart | js/script.js:34-38 | from the first initQuiz, k next clicks reach index min(k, N - 1), and questions 0 to that index are all visited |
| QuizState.NextMarksProgress | js/script.js:152-161 | after a move forward the question left is drawn Completed and the one reached Active |
| QuizState.Apply | js/script.js:33-307 | every click handler keeps the session invariant: the index is in range, visited and the answer keys are in range, lists have no duplicates and valid answers, and a started session has the current question visited with a list |
| QuizState.Replay | js/script.js:33-307 | any sequence of clicks keeps the session invariant |
| QuizState.ReplayOnlyGrows | js/script.js:86-191 | without startAgain, in any click sequence: the session stays started, visited only grows, each answer list keeps its old entries as a prefix, a progress line never goes back to Default, and the score never drops |
| QuizState.SelectNeverLowersScore | js/script.js:93-96 | selecting an answer never lowers the score |
| QuizState.ResubmitSupersedes | js/script.js:200-230 | a second submit before the animation settles leaves the same handles as a single submit: the first submit's handles are gone |
| QuizState.RestartForgetsEverything | js/script.js:268-307 | startAgain's result does not depend on the state it starts from: index 0, answers {0: []}, started, visited {0}, no handles |
| Controller.Quiz.constructor | js/script.js:26-31 | the six variables as declared: index 0, no answers, not started, nothing visited, both handles null |
| Controller.Quiz.InitQuiz | js/script.js:34-42 | the fields become Init of the old state; the painted screen is the projection of the new state |
| Controller.Quiz.DisplayQuestion | js/script.js:45-84 | the fields become Display of the old state; the highlights match the current question's answer list |
| Controller.Quiz.Repaint | js/script.js:39-41 | displayQuestion, then the progress indicator and the buttons are painted from the new state |
| Controller.Quiz.SelectAnswer | js/script.js:87-104 | the fields become Select of the old state; the buttons are repainted from the index |
| Controller.Quiz.NextQuestion | js/script.js:152-163 | the fields become Next of the old state; the screen is repainted exactly when the index moved |
| Controller.Quiz.PreviousQuestion | js/script.js:166-173 | the fields become Previous of the old state; the screen is repainted exactly when the index moved |
| Controller.Quiz.SubmitQuiz | js/script.js:176-191 | the returned score is QuizScore of the answers, at most 100; the handles follow ShowResults; the score display is reset |
| Controller.Quiz.ClearTimers | js/script.js:201-208 | both handles are null; nothing else changes |
| Controller.Quiz.ShowResults | js/script.js:194-230 | both handles are cleared before the delayed start is armed with the new handle; the display reads 0 with the percent sign hidden; the score argument is not used |
| Controller.Quiz.StartTicker | js/script.js:230-233 | the delayed start sets a fresh counter of 0 and arms the interval with its handle; the timeout handle is kept |
| Controller.Quiz.Tick | js/script.js:233-251 | one firing is exactly one ScoreTicker.Step; the interval handle is cleared exactly on the firing that reaches 35; the other variables are unchanged |
| Controller.Quiz.StartAgain | js/script.js:262-308 | the fields become the state of the first initQuiz after page load; the score display reads 0 with the percent sign hidden; the screen is the projection of the new state |

## Left out

- DOM work is not modelled: element lookup and creation, `innerHTML`, `textContent` for the question
  text, CSS classes for the slide animations, and `style.display` writes (js/script.js:47-66,
  195-224, 285-304). The model keeps the decisions behind them (`Views`, `QuizState.Render`).
- Controller.Quiz.InitQuiz, NextQuestion, PreviousQuestion and StartAgain return only the final
  painted screen. The order of the individual DOM writes is not modelled.
- Timer scheduling, delays and callback order are not modelled (1000 ms, 20 ms, 1200 ms). The host
  returns the handles, which arrive as method parameters. The browser's table of live timers is not
  modelled, so "one live interval and one live timeout after a second submit" is stated only about
  the two handle variables (QuizState.ResubmitSupersedes).
- Controller.Quiz.StartTicker: its precondition describes when the browser fires the delayed start.
  The old handle stays in `scoreTimeout`, so the model also allows a second firing after the
  animation settled, which the browser never delivers.
- The two untracked 1200 ms hide timeouts (js/script.js:255-258, 300-304) are not modelled. They
  cannot be cancelled and only hide containers.
- Math.round on floating point is replaced by integer half-up rounding. Scoring.ScoreOfFourQuestions
  shows it is exact for the shipped four questions. For other table sizes, floating-point
  rounding error is not modelled.
- The question and answer texts, the `DOMContentLoaded` bootstrap (js/script.js:311-313) and the
  speech bubble and paw shown only on question 0 (js/script.js:55-62) are not modelled.
- Controller.Quiz.SelectAnswer, QuizState.Select: an out-of-range answer index is a precondition.
  The source would push the index and then throw at `buttons[answerIndex]` (js/script.js:100).
  QuizState.Apply skips such a click, since no such button is rendered.
- Controller.Quiz.constructor: the score number's initial text comes from the page markup, which is
  not part of this model. It is taken to read 0 with the percent sign hidden.
- The `disabled` attribute of a hidden button is not tracked. The source leaves it as it was, and a
  hidden button cannot be clicked.
- QuizState.Apply and Replay cover clicks only. The two timer firings are modelled as the
  Controller.Quiz.StartTicker and Tick methods, which change only the interval handle and the score
  display.
- Timer handles are positive numbers (`TimerId`) behind an `Option`, with `None` for `null`. The
  source tests them for truthiness (js/script.js:201, 205, 269, 273), which then agrees with
  `Some?`. Ids are positive because browsers return positive ids.
