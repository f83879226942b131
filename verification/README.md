# Quiz run-time logic in Dafny

A model of the run-time logic of a browser quiz application (an Angular
app). The quiz shows a welcome form, then the questions one at a time, then
a summary. A countdown can run for each question. Every handler, timer tick
and reactive effect of the app becomes a pure step function over an
immutable state record, and the properties the code promises are proved
about those functions.

Modules, one per source file:

- `QuizComponent`: the controller. It holds the view (`Welcome | Test |
  Summary`), the identity, the current question index, the answer map and
  the loaded questions. It has `setView`, `handleAnswer`, the derived
  `currentQuestion`, `hasMoreQuestions` and `results`, and the subscriber
  that shows the summary once the submission is acknowledged.
- `AnswerRecord`: the answer map, modelled as a JavaScript object with
  string keys. Its keys keep insertion order, which `Object.entries`
  reports, and assigning an existing key overwrites it in place.
- `QuizService`: loading the questions. They are sorted by priority with a
  stable sort, a failure becomes an error message and an empty list, and
  the flags are `isLoading` and `error`. It also models the simulated
  `postResults`, which sends one `{success: true}` and then completes.
- `SharedTimer`: the shared countdown service. It has configure, start,
  tick, stop, pause, resume and reset, the `isWarning` and `isComplete`
  predicates, the `hasWarned` latch, and reference-counted registration
  that stops the timer when the last instance leaves.
- `TimerDirective`: the directive over the shared countdown. `ngOnInit`
  registers the directive, configures the timer with its inputs (defaults:
  30 s, no threshold, no auto-start), seeds the `previous*` flags and
  auto-starts if asked. The three effect bodies turn state changes into
  tick, warning and completion events.
- `TimerService`: the simpler countdown. `reset(d)` starts it, each interval
  firing takes one second off with no clamping, and at or below 0 it stops
  and announces `timeUp`.
- `DisplayTimer`: the display directive over `TimerService`. It covers the
  `appTimer` input transform (`parseInt` base 10, with 30 as the fallback)
  and the lifecycle hooks.
- `TimeFormat`: the `m:ss` label shared by both directives and by
  `formattedTime`.
- `QuestionComponent`: the answer-selection toggle, the Next gate and the
  image URL.
- `WelcomeComponent`: `canSubmit` and the outputs emitted on submit.
- `PanelItem`: the side-panel entry and its "pending items are not
  clickable" guard.
- `ImageQuery`: the image query settings and the retry back-off.
- `Strings`, `Wrappers` and `QuizTypes` hold the helpers and the shared
  records. `Strings` covers decimal numerals, JavaScript `parseInt`,
  `padStart` and first-occurrence `replace`.

Time is discrete. Each firing of an interval is one explicit `Tick`. Each
run of the Angular effects is one explicit `Observe`. Each asynchronous
delivery is one explicit step.

Some consequences of the code as written are proved as lemmas:

- `handleAnswer` records an answer for any question id, not only the
  current one.
- `handleSubmit` emits `'test'` even when `canSubmit` is false.
- When the shared timer's last tick reaches 0, it stops the timer before
  the effects run. So the directive reports completion but no tick event
  for 0 (`TimerDirective.FinalTickReportsOnlyCompletion`).
- `start()` on a completed shared timer marks it running, but no tick ever
  applies. `configure` is then refused until `stop` or `reset`
  (`SharedTimer.StartWhenComplete`).
- `TimerService.reset(d)` with `d <= 0` still waits one tick and ends
  below 0 before `timeUp`.
- The Next button never records an empty answer.
- The directive records the time left only while the timer runs. After a
  `reset` of a stopped timer, `start` therefore reports the full duration
  as a tick before any second has passed
  (`TimerDirective.StartAfterResetReportsTime`).

## Model

| member | source | states |
|---|---|---|
| `QuizComponent.Init` | src/app/components/quiz/quiz.component.ts:33-38 | the quiz starts on the welcome view with empty name and password, index 0, no answers and no questions |
| `QuizComponent.CurrentQuestion` | src/app/components/quiz/quiz.component.ts:40-42 | the current question is the question at the index when the index is in range, and none otherwise |
| `QuizComponent.CurrentQuestionDefined` | src/app/components/quiz/quiz.component.ts:40-47 | in a valid quiz with questions there is always a current question, and a next one exists exactly when `hasMoreQuestions` holds |
| `QuizComponent.ResultsFields` | src/app/components/quiz/quiz.component.ts:49-54 | entry i of the results is `{questionId, answerId}` built from entry i of the answers, so the results follow the answers' key order |
| `QuizComponent.ResultsAreAnswers` | src/app/components/quiz/quiz.component.ts:49-54 | with unique keys, every result's `answerId` is what the answers hold for its `questionId` |
| `QuizComponent.ResultsCoverAnswers` | src/app/components/quiz/quiz.component.ts:49-54 | a question has a result exactly when it has a recorded answer |
| `QuizComponent.ResultsDistinct` | src/app/components/quiz/quiz.component.ts:49-54 | with unique keys, no question appears in two results |
| `QuizComponent.Results` | src/app/components/quiz/quiz.component.ts:49-54 | there are as many results as answer entries |
| `QuizComponent.SetView` | src/app/components/quiz/quiz.component.ts:56-65 | the view is always set; entering `test` resets the index to 0 only when questions are loaded; nothing else changes |
| `QuizComponent.SetFullName` | src/app/components/quiz/quiz.component.ts:67-69 | the name is stored and nothing else changes |
| `QuizComponent.SetPassword` | src/app/components/quiz/quiz.component.ts:71-73 | the password is stored and nothing else changes |
| `QuizComponent.QuestionsLoaded` | src/app/components/quiz/quiz.component.ts:38 | the loaded questions replace the initial empty list and nothing else changes |
| `QuizComponent.LoadKeepsValid` | src/app/components/quiz/quiz.component.ts:38 | questions arriving in a quiz that had none keep the index valid |
| `QuizComponent.HandleAnswer` | src/app/components/quiz/quiz.component.ts:75-97 | the answer is stored under the given question id, overwriting, and every other key is unchanged; with more questions the index goes up by exactly one and nothing is submitted; on the last question the index stays and the password, name and updated results are submitted; the view never changes here |
| `QuizComponent.OnSubmission` | src/app/components/quiz/quiz.component.ts:99-105 | an acknowledgement shows the summary, and completion changes nothing |
| `QuizComponent.SubmissionShowsSummary` | src/app/components/quiz/quiz.component.ts:99-105 | once all of `postResults`'s notifications arrive, the view is `summary` and nothing else has changed |
| `QuizComponent.StepPreservesValid` | src/app/components/quiz/quiz.component.ts:56-105 | every handler keeps the index on a question (or at 0 while there is none) and keeps answer keys unique |
| `QuizComponent.RunPreservesValid` | src/app/components/quiz/quiz.component.ts:56-105 | any sequence of handler calls keeps that invariant and the question list |
| `QuizComponent.WelcomeSubmitStartsTest` | src/app/components/welcome/welcome.component.ts:31-35 | the welcome outputs, fed to the quiz's setters, store the entered identity and open the test, at index 0 when questions are loaded |
| `QuizComponent.AnswerInTurnSubmitsOnce` | src/app/components/quiz/quiz.component.ts:87-105 | answering every remaining question in turn submits exactly once, on the last question, which stays current, and the submission carries the final answers |
| `QuizComponent.AnswerInTurnAdvances` | src/app/components/quiz/quiz.component.ts:87-97 | before the last question, one answer leaves a valid quiz and submits nothing: answering in turn from here is answering the remaining choices in turn from the quiz it leaves |
| `QuizComponent.AnswerInTurnLast` | src/app/components/quiz/quiz.component.ts:87-93 | on the last question, one answer submits the updated answers' results and the index and view stay |
| `QuizComponent.AnswerInTurnRecordsAll` | src/app/components/quiz/quiz.component.ts:75-85 | after answering every remaining question in turn, each question from the starting index on has an answer entry |
| `QuizComponent.AnswerKeptLater` | src/app/components/quiz/quiz.component.ts:80-85 | a question once answered keeps an entry through later answers |
| `QuizComponent.NextRecordsSelection` | src/app/components/question/question.component.ts:150-158 | the Next button's output, passed to `handleAnswer`, records the staged selection for the shown question, so that answer is never empty; with nothing staged nothing is emitted |
| `AnswerRecord.Put` | src/app/components/quiz/quiz.component.ts:80-85 | `{...answers, [k]: v}` keeps the key order when `k` is present, and otherwise appends `k` at the end |
| `AnswerRecord.PutGet` | src/app/components/quiz/quiz.component.ts:80-85 | after `{...answers, [k]: v}`, looking up `k` gives `v` |
| `AnswerRecord.PutKeepsOthers` | src/app/components/quiz/quiz.component.ts:80-85 | after `{...answers, [k]: v}`, every other key has the value it had before, or is still absent |
| `AnswerRecord.PutKeepsAllOthers` | src/app/components/quiz/quiz.component.ts:80-85 | the same for all other keys at once |
| `AnswerRecord.PutKeepsUniqueKeys` | src/app/components/quiz/quiz.component.ts:80-85 | assigning a key never duplicates a key |
| `AnswerRecord.Get` | src/app/components/quiz/quiz.component.ts:50 | a lookup succeeds exactly for present keys and returns a stored entry |
| `AnswerRecord.GetEntry` | src/app/components/quiz/quiz.component.ts:50 | with unique keys, each entry is what a lookup of its key returns |
| `QuizService.SortByPriority` | src/app/components/quiz/quiz.service.ts:18 | the output is ordered by non-decreasing priority and is a permutation of the input |
| `QuizService.SortWithPriority` | src/app/components/quiz/quiz.service.ts:18 | the sort is stable: for every priority, the questions with that priority appear in the output in their input order |
| `QuizService.SortIsStable` | src/app/components/quiz/quiz.service.ts:18 | the same for all priorities at once |
| `QuizService.InsertSorted` | src/app/components/quiz/quiz.service.ts:18 | inserting into a sorted list keeps it sorted |
| `QuizService.InsertPermutes` | src/app/components/quiz/quiz.service.ts:18 | insertion adds exactly the inserted question and loses none |
| `QuizService.InsertWithPriority` | src/app/components/quiz/quiz.service.ts:18 | the inserted question passes only questions of a smaller priority, so each priority's order is that of the question followed by the list |
| `QuizService.InitialLoadState` | src/app/components/quiz/quiz.service.ts:10-11 | before any load nothing is loading and there is no error |
| `QuizService.BeginLoad` | src/app/components/quiz/quiz.service.ts:14-15 | at the start of a load `isLoading` is true and `error` is null |
| `QuizService.SettleLoad` | src/app/components/quiz/quiz.service.ts:17-24 | on success the sorted permutation of the fetched questions is delivered and the error is kept; on failure `[]` is delivered and the error is `'Failed to load questions: '` plus the reason; `isLoading` ends false |
| `QuizService.LoadQuestions` | src/app/components/quiz/quiz.service.ts:13-25 | after a whole load `isLoading` is false and an error is present exactly when the fetch failed |
| `QuizService.PostResults` | src/app/components/quiz/quiz.service.ts:34-39 | exactly one `{success: true}` is delivered, followed by completion |
| `WelcomeComponent.CanSubmit` | src/app/components/welcome/welcome.component.ts:27-29 | the form can be submitted exactly when submitting would emit neither an empty name nor an empty password |
| `WelcomeComponent.HandleSubmit` | src/app/components/welcome/welcome.component.ts:31-35 | the current name, then the current password, then `'test'` are emitted, in that order |
| `WelcomeComponent.SubmitIgnoresCanSubmit` | src/app/components/welcome/welcome.component.ts:27-35 | `'test'` is emitted even when `canSubmit` is false, which happens exactly when an empty name or password is emitted |
| `SharedTimer.Init` | src/app/directives/timer/shared-timer.service.ts:13-20 | the service starts stopped at 0 s, with a 30 s duration, no threshold, no warning and no instances |
| `SharedTimer.IsWarning` | src/app/directives/timer/shared-timer.service.ts:28-33 | the timer warns exactly when a threshold is set and the remaining time lies in `1..threshold` |
| `SharedTimer.IsComplete` | src/app/directives/timer/shared-timer.service.ts:35 | the timer is complete exactly when no time remains, and a complete timer never warns |
| `SharedTimer.FormattedTime` | src/app/directives/timer/shared-timer.service.ts:37-42 | for a non-negative remaining time, the label reads back as exactly that many seconds |
| `SharedTimer.Register` | src/app/directives/timer/shared-timer.service.ts:45-47 | the instance count goes up by one and nothing else changes |
| `SharedTimer.Unregister` | src/app/directives/timer/shared-timer.service.ts:49-58 | the count goes down by one but never below 0, and a count of 0 stops the timer |
| `SharedTimer.RegisterUnregister` | src/app/directives/timer/shared-timer.service.ts:45-58 | registering then unregistering restores the count, and stops the timer when that count is 0 |
| `SharedTimer.BalancedRegistrationStops` | src/app/directives/timer/shared-timer.service.ts:45-58 | n registrations and n unregistrations from an unused service leave no instance and a stopped timer |
| `SharedTimer.UnregistersCount` | src/app/directives/timer/shared-timer.service.ts:49-58 | at least as many unregistrations as instances end at count 0 with the timer stopped |
| `SharedTimer.Configure` | src/app/directives/timer/shared-timer.service.ts:61-69 | a no-op while running; otherwise it sets the duration, threshold and remaining time, and clears the warning latch |
| `SharedTimer.Start` | src/app/directives/timer/shared-timer.service.ts:72-75 | a no-op when running; otherwise only `running` changes, to true |
| `SharedTimer.Tick` | src/app/directives/timer/shared-timer.service.ts:77-95 | a tick applies only while running with time left; it lowers the time by one, never below 0; it keeps running exactly while time is left; it sets the latch when the new time warns; duration, threshold and instances are unchanged |
| `SharedTimer.Stop` | src/app/directives/timer/shared-timer.service.ts:98-100 | only `running` changes, to false |
| `SharedTimer.Pause` | src/app/directives/timer/shared-timer.service.ts:102-104 | pausing is stopping, and keeps the remaining time |
| `SharedTimer.Resume` | src/app/directives/timer/shared-timer.service.ts:106-110 | the timer restarts only when time is left; otherwise nothing changes |
| `SharedTimer.Reset` | src/app/directives/timer/shared-timer.service.ts:112-116 | the timer is stopped, back at the full duration, with the latch cleared; duration and threshold are unchanged |
| `SharedTimer.WarnedLatch` | src/app/directives/timer/shared-timer.service.ts:61-116 | only `reset` or an applied `configure` clears `hasWarned`, and a tick into the warning range (threshold set, 0 < time <= threshold) sets it |
| `SharedTimer.OnlyConfigureSetsDuration` | src/app/directives/timer/shared-timer.service.ts:61-116 | no operation but `configure` changes the duration or threshold |
| `SharedTimer.RemainingStaysNonNegative` | src/app/directives/timer/shared-timer.service.ts:84 | while the duration is non-negative, no operation apart from `configure` makes a non-negative remaining time negative |
| `SharedTimer.Countdown` | src/app/directives/timer/shared-timer.service.ts:77-95 | from n >= 0 seconds, a running timer is at max(0, n-k) after k ticks, runs while time is left, and is complete exactly from tick n on |
| `SharedTimer.StoppedTicks` | src/app/directives/timer/shared-timer.service.ts:79 | a timer that is stopped or at 0 is unchanged by any number of ticks |
| `SharedTimer.StartWhenComplete` | src/app/directives/timer/shared-timer.service.ts:72-79 | starting a completed timer marks it running, yet ticks do nothing and `configure` is refused |
| `TimerDirective.Seed` | src/app/directives/timer/timer.directive.ts:62-64 | the seeded flags agree with the shared state |
| `TimerDirective.OnInit` | src/app/directives/timer/timer.directive.ts:54-73 | init registers once, then configures with the inputs, seeds the flags from the configured state, and leaves the timer running exactly if it was running or `timerAutoStart` is set; on a timer that already runs, the registration is the only change |
| `TimerDirective.DefaultInputs` | src/app/directives/timer/timer.directive.ts:28-30 | the input defaults are the shared service's initial 30 s duration and absent threshold, with no auto-start |
| `TimerDirective.StartAfterResetReportsTime` | src/app/directives/timer/timer.directive.ts:79-86 | after `reset` of a stopped timer and one run of the effects, `start` reports the full duration as a tick event before any second has passed, whenever the recorded time differed from it |
| `TimerDirective.TickEffect` | src/app/directives/timer/timer.directive.ts:79-86 | a tick event carrying the time left is emitted exactly when the timer runs and the time differs from the recorded one, and only then is it recorded |
| `TimerDirective.WarningEffect` | src/app/directives/timer/timer.directive.ts:89-100 | a warning event carrying the time left is emitted exactly on a false-to-true edge of `isWarning`, and the flag then equals `isWarning`, which re-arms it on a true-to-false edge |
| `TimerDirective.CompleteEffect` | src/app/directives/timer/timer.directive.ts:103-114 | completion is emitted exactly on a false-to-true edge of `isComplete`, and the flag then equals `isComplete` |
| `TimerDirective.Observe` | src/app/directives/timer/timer.directive.ts:79-114 | one run of the effects emits a tick, a warning or completion exactly under those edge conditions; afterwards the warning and completion flags equal `isWarning` and `isComplete`, and the recorded time is updated only while the timer runs |
| `TimerDirective.ObserveEvents` | src/app/directives/timer/timer.directive.ts:79-114 | one run of the effects emits exactly this sequence: `tick` with the time left when running and the time changed, then `warning` with the time left on the rising edge of `isWarning`, then `complete` on the rising edge of `isComplete`, and nothing else |
| `TimerDirective.SeededEmitsNothing` | src/app/directives/timer/timer.directive.ts:62-64 | right after seeding, the effects emit nothing, even for a timer already complete or warning |
| `TimerDirective.ObserveIdempotent` | src/app/directives/timer/timer.directive.ts:79-114 | a second run of the effects on an unchanged state emits nothing |
| `TimerDirective.FinalTickReportsOnlyCompletion` | src/app/directives/timer/timer.directive.ts:80-113 | the tick from 1 to 0 reports completion and no tick event |
| `TimerDirective.MidTickReportsTime` | src/app/directives/timer/timer.directive.ts:80-85 | a tick that leaves time reports that time and no completion |
| `TimerDirective.RunTicks` | src/app/directives/timer/timer.directive.ts:103-114 | after k ticks with effects, the timer is the k-tick countdown and the completion flag matches it |
| `TimerDirective.OneCompletionPerCountdown` | src/app/directives/timer/timer.directive.ts:103-114 | over any number of ticks, completion is reported once if the countdown reaches 0 from a non-complete state, and never otherwise |
| `TimerDirective.CountCompleteOfObservation` | src/app/directives/timer/timer.directive.ts:79-114 | one run of the effects reports completion at most once |
| `TimerDirective.OnDestroy` | src/app/directives/timer/timer.directive.ts:124-127 | destroying the directive unregisters once, which stops the timer when no instance is left; while instances remain the running flag is kept, and no other field changes |
| `TimerDirective.MountThenDestroy` | src/app/directives/timer/timer.directive.ts:54-127 | a directive mounted and destroyed leaves the registration count as it was, and the timer stopped if it was the only one |
| `TimerService.Init` | src/app/core/services/timer.service.ts:9-16 | the service starts at 0, not running, without an interval |
| `TimerService.Reset` | src/app/core/services/timer.service.ts:35-51 | after clearing any interval, the countdown runs from exactly `d` with an interval |
| `TimerService.Tick` | src/app/core/services/timer.service.ts:43-50 | a firing takes exactly one second off without clamping; `timeUp` is announced exactly when the result is <= 0, and then the timer is stopped with no interval; without an interval nothing happens |
| `TimerService.Stop` | src/app/core/services/timer.service.ts:56-62 | the interval is cleared, `running` is false and the remaining time is kept |
| `TimerService.StopIdempotent` | src/app/core/services/timer.service.ts:56-62 | stopping twice is stopping once |
| `TimerService.OnDestroy` | src/app/core/services/timer.service.ts:67-69 | destroying the service stops it |
| `TimerService.StoppedStaysSilent` | src/app/core/services/timer.service.ts:56-62 | without an interval, no firing changes anything or announces `timeUp` |
| `TimerService.CountsDown` | src/app/core/services/timer.service.ts:43-50 | while more than k seconds remain, k firings count down by k and announce nothing |
| `TimerService.TimeUpAfterDuration` | src/app/core/services/timer.service.ts:35-51 | after `reset(d)` with d >= 1, nothing is announced before firing d; from firing d on, the countdown is at 0, stopped, and `timeUp` has been announced exactly once |
| `TimerService.TimeUpAfterOneTickWhenNotPositive` | src/app/core/services/timer.service.ts:40-49 | after `reset(d)` with d <= 0, one firing ends at d-1, stopped, with `timeUp` announced exactly once |
| `TimerService.TicksSplit` | src/app/core/services/timer.service.ts:43-50 | a+b firings are a firings then b firings, and the announcements add up |
| `DisplayTimer.Duration` | src/app/shared/directives/timer/timer.directive.ts:13-25 | a null, undefined or empty input is 30; a string is its base-10 `parseInt`, or 30 when that is NaN; a number passes through, 0 included |
| `DisplayTimer.DurationOfNumeral` | src/app/shared/directives/timer/timer.directive.ts:19-22 | the decimal numeral of any n >= 0 is read as n |
| `DisplayTimer.DurationOfFortyFive` | src/app/shared/directives/timer/timer.directive.ts:19-22 | `'45'` is 45 |
| `DisplayTimer.DurationOfNonNumeric` | src/app/shared/directives/timer/timer.directive.ts:19-22 | `'abc'` is 30 |
| `DisplayTimer.DurationOfPaddedText` | src/app/shared/directives/timer/timer.directive.ts:19-22 | `' 12px'` is 12: leading white space is skipped and reading stops at the first non-digit |
| `DisplayTimer.DurationOfNegativeText` | src/app/shared/directives/timer/timer.directive.ts:19-22 | `'-7'` is -7 |
| `DisplayTimer.Display` | src/app/shared/directives/timer/timer.directive.ts:29-32 | the text written for a non-negative remaining time reads back as exactly that many seconds |
| `DisplayTimer.OnInit` | src/app/shared/directives/timer/timer.directive.ts:35-38 | init does not start or change the countdown |
| `DisplayTimer.OnDestroy` | src/app/shared/directives/timer/timer.directive.ts:40-43 | destroying the directive stops the countdown and clears its interval |
| `Strings.ParseInt` | src/app/shared/directives/timer/timer.directive.ts:20 | `parseInt(s, 10)` is NaN exactly when, after white space and one optional sign, no digit follows |
| `Strings.ParseIntTrimmed` | src/app/shared/directives/timer/timer.directive.ts:20 | when digits follow the white space and optional sign, `parseInt` is their value, negated exactly after a `-` |
| `Strings.ParseIntUnsigned` | src/app/shared/directives/timer/timer.directive.ts:20 | without a sign, `parseInt` is the value of the digits after the white space |
| `Strings.ParseIntOfNumeral` | src/app/shared/directives/timer/timer.directive.ts:20 | `parseInt` reads any decimal numeral back as its value |
| `Strings.RemoveFirst` | src/app/components/question/question.component.ts:106 | `replace('img', '')` removes exactly the first occurrence, or nothing when there is none |
| `Strings.PadStart` | src/app/shared/directives/timer/timer.directive.ts:48 | `padStart` fills on the left with the fill character up to the width and keeps the string as the suffix |
| `TimeFormat.FormatTime` | src/app/shared/directives/timer/timer.directive.ts:45-49 | the label ends in a colon and a two-character seconds field, after at least one minutes character |
| `TimeFormat.LabelFields` | src/app/shared/directives/timer/timer.directive.ts:45-49 | the label for m minutes and s < 60 seconds has a digit field worth m, a colon, and exactly two digits worth s, zero-padded below ten |
| `TimeFormat.LabelMinutesText` | src/app/shared/directives/timer/timer.directive.ts:45-49 | the text before the colon is the unpadded decimal numeral of the minutes, and the text after it is the seconds numeral left-padded with `0` to two characters |
| `TimeFormat.LabelRoundTrip` | src/app/shared/directives/timer/timer.directive.ts:45-49 | reading the label for m and s < 60 back gives 60*m + s |
| `TimeFormat.FormatTimeFields` | src/app/directives/timer/shared-timer.service.ts:37-42 | the minutes field is t div 60 and the seconds field is exactly two digits worth t mod 60, zero-padded below ten |
| `TimeFormat.FormatTimeMinutesText` | src/app/directives/timer/shared-timer.service.ts:37-42 | the text before the colon is exactly the unpadded numeral of t div 60, so `5:07` and never `05:07` |
| `TimeFormat.FormatTimeRoundTrip` | src/app/shared/directives/timer/timer.directive.ts:45-49 | reading a label back gives 60*m + ss == t |
| `TimeFormat.FormatTimeInjective` | src/app/shared/directives/timer/timer.directive.ts:45-49 | distinct times never share a label |
| `QuestionComponent.SelectAnswer` | src/app/components/question/question.component.ts:142-148 | choosing the selected answer clears the selection, and choosing another replaces it; the result is the chosen id or empty, and is empty exactly when the id was already selected or is itself empty |
| `QuestionComponent.SelectTwice` | src/app/components/question/question.component.ts:142-148 | choosing the same answer twice gives back the selection if it was that answer, and no selection otherwise |
| `QuestionComponent.HandleNext` | src/app/components/question/question.component.ts:150-158 | with nothing selected nothing is emitted and nothing changes; otherwise exactly `{question.id, selection}` is emitted and the selection is cleared |
| `QuestionComponent.ImageUrl` | src/app/components/question/question.component.ts:102-109 | there is no URL for an empty `imageId`; otherwise the URL is the fixed placeholder prefix followed by the id with its first `img` removed |
| `QuestionComponent.ImageUrlExamples` | src/app/components/question/question.component.ts:106 | `img3` maps to the prefix plus `3`, and `imgimg` to the prefix plus `img` |
| `QuestionComponent.ImageUrlWithoutMarker` | src/app/components/question/question.component.ts:102-109 | an id without `img` is appended unchanged |
| `PanelItem.OnQuestionClick` | src/app/components/question-side-panel/question-panel-item/question-panel-item.component.ts:25-29 | a pending item emits nothing, and a visited or current item emits its id exactly once |
| `ImageQuery.CreateImageQuery` | src/app/shared/services/image.service.ts:21-30 | the key is `['image', id, url]`; stale time is 300000 ms, below the 600000 ms collection time; there are 2 retries |
| `ImageQuery.QueryKeyInjective` | src/app/shared/services/image.service.ts:23 | distinct (id, url) pairs get distinct keys |
| `ImageQuery.RetryDelay` | src/app/shared/services/image.service.ts:28 | the delay is 1000·2^k capped at 30000, so it always lies between 1000 and 30000 ms |
| `ImageQuery.RetryDelayMonotone` | src/app/shared/services/image.service.ts:28 | later attempts never wait less |
| `ImageQuery.RetryDelaySaturates` | src/app/shared/services/image.service.ts:28 | from attempt 5 on the delay is 30000; below 5 it is the uncapped 1000·2^k |

## Left out

- The data source (`src/app/api/api.ts`), with its JSON data, artificial delay and random score. A load is an input to `QuizService.SettleLoad`.
- Image loading: `ImageService.fetchImage` and `preloadImages`, the image component, the question view's preload effect, and the `queryFn` of the image query. These are DOM `Image` callbacks and cache plumbing.
- Real-time scheduling: `interval`, `setInterval`, `setTimeout`, signals, effects and change detection. Each interval firing, effect run and delivery is an explicit step. The shared timer's `takeWhile` pipeline can leave an earlier interval alive when `stop` is followed by `start` within one second; that timing hazard is not modelled.
- Rendering: the DOM text the directives write, the templates, and the presentation-only components (app shell, summary, progress bar, side panel, checkbox). The bindings between the quiz's template and the welcome and question outputs are taken to be the obvious ones, because the templates are not part of this model.
- `console.log` calls.
- Hardcore mode, scoring, a pass threshold, a separate viewed-question index and image lookup by id. No modelled file implements them. The question view's `hardcoreMode` input is never read.
- `QuizComponent.Results`: states only the entry count. The content is stated by `QuizComponent.ResultsFields`, `QuizComponent.ResultsAreAnswers`, `QuizComponent.ResultsCoverAnswers` and `QuizComponent.ResultsDistinct`. Keys that look like array indices (such as `"1"`), which JavaScript lists first and in numeric order, are treated like any other key. All keys are taken in insertion order.
- `DisplayTimer.Duration`: numbers are integers. Fractional numbers, NaN passed directly, and digit strings too long for an exact double are not modelled.
- `QuizService.SortByPriority`: priorities are integers. A fractional or NaN priority in the comparator is not modelled.
- `TimeFormat.FormatTime`: only non-negative seconds. JavaScript's `Math.floor` and `%` on negative values are not modelled. For this reason `SharedTimer.FormattedTime` and `DisplayTimer.Display` require a non-negative remaining time.
- `SharedTimer.Configure` and `TimerService.Reset`: durations are integers.
- Control methods of `TimerDirective` (`start`, `stop`, `pause`, `resume`, `reset`) only delegate to the service. They are the `SharedTimer` functions themselves.
