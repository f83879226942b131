/** The quiz controller (src/app/components/quiz/quiz.component.ts): the
    current view, the identity, the current question index and the answers,
    with one step function per handler. */
module QuizComponent {
  import opened Wrappers
  import opened QuizTypes
  import AR = AnswerRecord
  import QS = QuizService
  import WC = WelcomeComponent
  import QC = QuestionComponent

  datatype Quiz = Quiz(
    view: View,
    fullName: string,
    password: string,
    index: nat,
    answers: AR.Record,
    questions: seq<Question>)

  /** What answering produced: the next state, and the submission made when
      the last question was answered. */
  datatype AnswerOutcome = AnswerOutcome(quiz: Quiz, submitted: Option<QS.Submission>)

  /** The state the component starts in; the questions arrive later. */
  function Init(): (q: Quiz)
    ensures q.view == Welcome && q.fullName == "" && q.password == ""
    ensures q.index == 0 && q.answers == AR.Empty && q.questions == []
  {
    Quiz(Welcome, "", "", 0, AR.Empty, [])
  }

  /** The index points at a question, or is 0 while there is none. */
  predicate Valid(q: Quiz) {
    q.index < |q.questions| || q.index == 0
  }

  /** The question at the current index, or `None` (the source's `null`). */
  function CurrentQuestion(q: Quiz): (r: Option<Question>)
    ensures r.Some? <==> q.index < |q.questions|
    ensures r.Some? ==> r.value == q.questions[q.index]
  {
    if q.index < |q.questions| then Some(q.questions[q.index]) else None
  }

  /** Whether a question follows the current one. */
  function HasMoreQuestions(q: Quiz): (more: bool)
  {
    q.index + 1 < |q.questions|
  }

  /** A valid quiz with questions always has a current question, and the
      next one exists exactly when more questions remain. */
  lemma CurrentQuestionDefined(q: Quiz)
    requires Valid(q) && |q.questions| > 0
    ensures CurrentQuestion(q).Some?
    ensures HasMoreQuestions(q) <==> CurrentQuestion(q.(index := q.index + 1)).Some?
  {
  }

  /** `results`: one `{questionId, answerId}` per entry of the answers, in
      the order `Object.entries` lists them. */
  function Results(answers: AR.Record): (res: seq<ResultEntry>)
    ensures |res| == |answers|
  {
    if |answers| == 0 then []
    else [ResultEntry(answers[0].key, answers[0].value)] + Results(answers[1..])
  }

  /** Each result carries a recorded answer: the entry's answer is what the
      answers hold for its question. */
  lemma ResultsAreAnswers(answers: AR.Record, i: nat)
    requires AR.UniqueKeys(answers) && i < |Results(answers)|
    ensures AR.Get(answers, Results(answers)[i].questionId) == Some(Results(answers)[i].answerId)
  {
    ResultsFields(answers);
    AR.GetEntry(answers, i);
  }

  /** A question has a result exactly when it has a recorded answer. */
  lemma ResultsCoverAnswers(answers: AR.Record, k: string)
    ensures AR.Has(answers, k) <==> exists i :: 0 <= i < |Results(answers)| && Results(answers)[i].questionId == k
  {
    var res := Results(answers);
    var ks := AR.Keys(answers);
    ResultsFields(answers);
    if AR.Has(answers, k) {
      var i :| 0 <= i < |ks| && ks[i] == k;
      assert res[i] == ResultEntry(answers[i].key, answers[i].value);
      assert 0 <= i < |Results(answers)| && Results(answers)[i].questionId == k;
      assert exists j :: 0 <= j < |Results(answers)| && Results(answers)[j].questionId == k;
      assert AR.Has(answers, k);
    } else {
      forall i | 0 <= i < |res|
        ensures res[i].questionId != k
      {
        assert res[i] == ResultEntry(answers[i].key, answers[i].value);
        assert ks[i] in ks;
      }
    }
  }

  /** No question has two results. */
  lemma ResultsDistinct(answers: AR.Record, i: nat, j: nat)
    requires AR.UniqueKeys(answers) && i < j < |Results(answers)|
    ensures Results(answers)[i].questionId != Results(answers)[j].questionId
  {
    ResultsFields(answers);
    assert AR.Keys(answers)[i] != AR.Keys(answers)[j];
  }

  /** Entry `i` of the results is entry `i` of the answers. */
  lemma {:induction false} ResultsFields(answers: AR.Record)
    ensures forall i :: 0 <= i < |answers| ==>
      Results(answers)[i] == ResultEntry(answers[i].key, answers[i].value)
  {
    if |answers| > 0 {
      ResultsFields(answers[1..]);
      var res := Results(answers);
      forall i | 0 < i < |answers|
        ensures res[i] == ResultEntry(answers[i].key, answers[i].value)
      {
        assert res[i] == Results(answers[1..])[i - 1];
        assert answers[1..][i - 1] == answers[i];
      }
    }
  }

  /** `setView`: the view always changes; entering the test with questions
      loaded restarts at the first question. */
  function SetView(q: Quiz, v: View): (r: Quiz)
    ensures r.view == v
    ensures r.index == if v == Test && |q.questions| > 0 then 0 else q.index
    ensures r.(view := q.view, index := q.index) == q
  {
    var r := q.(view := v);
    if v == Test && |q.questions| > 0 then r.(index := 0) else r
  }

  function SetFullName(q: Quiz, name: string): (r: Quiz)
    ensures r.fullName == name && r.(fullName := q.fullName) == q
  {
    q.(fullName := name)
  }

  function SetPassword(q: Quiz, password: string): (r: Quiz)
    ensures r.password == password && r.(password := q.password) == q
  {
    q.(password := password)
  }

  /** The questions arriving from the service. */
  function QuestionsLoaded(q: Quiz, qs: seq<Question>): (r: Quiz)
    ensures r.questions == qs && r.(questions := q.questions) == q
  {
    q.(questions := qs)
  }

  /** `handleAnswer`: records the answer under `questionId` (which is not
      checked against the current question), then advances, or on the last
      question submits the results; the view changes only when the
      submission is acknowledged. */
  function HandleAnswer(q: Quiz, questionId: string, answerId: string): (o: AnswerOutcome)
    ensures AR.Get(o.quiz.answers, questionId) == Some(answerId)
    ensures forall k :: k != questionId ==> AR.Get(o.quiz.answers, k) == AR.Get(q.answers, k)
    ensures o.quiz.view == q.view && o.quiz.questions == q.questions
    ensures o.quiz.fullName == q.fullName && o.quiz.password == q.password
    ensures HasMoreQuestions(q) ==> o.quiz.index == q.index + 1 && o.submitted.None?
    ensures !HasMoreQuestions(q) ==>
      && o.quiz.index == q.index
      && o.submitted == Some(QS.Submission(q.password, q.fullName, Results(o.quiz.answers)))
  {
    AR.PutGet(q.answers, questionId, answerId);
    AR.PutKeepsAllOthers(q.answers, questionId, answerId);
    var recorded := q.(answers := AR.Put(q.answers, questionId, answerId));
    if HasMoreQuestions(recorded) then
      AnswerOutcome(recorded.(index := recorded.index + 1), None)
    else
      AnswerOutcome(recorded, Some(QS.Submission(recorded.password, recorded.fullName, Results(recorded.answers))))
  }

  /** The submission's subscriber: a value moves the quiz to the summary;
      completion changes nothing. */
  function OnSubmission(q: Quiz, n: QS.Notification): (r: Quiz)
    ensures n.Next? ==> r == q.(view := Summary)
    ensures n.Complete? ==> r == q
  {
    match n
    case Next(_) => q.(view := Summary)
    case Complete => q
  }

  function OnSubmissionAll(q: Quiz, ns: seq<QS.Notification>): Quiz
    decreases |ns|
  {
    if |ns| == 0 then q else OnSubmissionAll(OnSubmission(q, ns[0]), ns[1..])
  }

  /** Once the submission's notifications arrive, the quiz shows the
      summary and nothing else has changed. */
  lemma SubmissionShowsSummary(q: Quiz, sub: QS.Submission)
    ensures OnSubmissionAll(q, QS.PostResults(sub)) == q.(view := Summary)
  {
    var ns := QS.PostResults(sub);
    assert ns[1..][1..] == [];
  }

  /** The handlers the template invokes. */
  datatype Event =
    | ChangeView(view: View)
    | ChangeFullName(name: string)
    | ChangePassword(password: string)
    | Answer(questionId: string, answerId: string)
    | Acknowledge(notification: QS.Notification)

  function Step(q: Quiz, e: Event): Quiz {
    match e
    case ChangeView(v) => SetView(q, v)
    case ChangeFullName(n) => SetFullName(q, n)
    case ChangePassword(p) => SetPassword(q, p)
    case Answer(qid, aid) => HandleAnswer(q, qid, aid).quiz
    case Acknowledge(n) => OnSubmission(q, n)
  }

  function Run(q: Quiz, es: seq<Event>): Quiz
    decreases |es|
  {
    if |es| == 0 then q else Run(Step(q, es[0]), es[1..])
  }

  /** Every handler keeps the index on a question (or at 0 while there
      are no questions) and the answer keys unique. */
  lemma StepPreservesValid(q: Quiz, e: Event)
    requires Valid(q) && AR.UniqueKeys(q.answers)
    ensures Valid(Step(q, e)) && AR.UniqueKeys(Step(q, e).answers)
  {
    if e.Answer? {
      AR.PutKeepsUniqueKeys(q.answers, e.questionId, e.answerId);
    }
  }

  lemma {:induction false} RunPreservesValid(q: Quiz, es: seq<Event>)
    requires Valid(q) && AR.UniqueKeys(q.answers)
    ensures Valid(Run(q, es)) && AR.UniqueKeys(Run(q, es).answers)
    ensures Run(q, es).questions == q.questions
    decreases |es|
  {
    if |es| > 0 {
      StepPreservesValid(q, es[0]);
      RunPreservesValid(Step(q, es[0]), es[1..]);
    }
  }

  /** Loading questions into a quiz that has none keeps it valid. */
  lemma LoadKeepsValid(q: Quiz, qs: seq<Question>)
    requires Valid(q) && q.questions == []
    ensures Valid(QuestionsLoaded(q, qs))
  {
  }

  /** The welcome form's outputs, as the quiz's template binds them. */
  function OnWelcome(q: Quiz, e: WC.WelcomeEvent): Quiz {
    match e
    case FullNameChange(n) => SetFullName(q, n)
    case PasswordChange(p) => SetPassword(q, p)
    case ViewChange(v) => SetView(q, v)
  }

  function OnWelcomeAll(q: Quiz, es: seq<WC.WelcomeEvent>): Quiz
    decreases |es|
  {
    if |es| == 0 then q else OnWelcomeAll(OnWelcome(q, es[0]), es[1..])
  }

  /** Submitting the welcome form stores the identity and opens the test;
      with questions loaded it starts at the first question. */
  lemma WelcomeSubmitStartsTest(q: Quiz, w: WC.WelcomeForm)
    ensures var r := OnWelcomeAll(q, WC.HandleSubmit(w));
      && r.view == Test && r.fullName == w.inputFullName && r.password == w.inputPassword
      && r.answers == q.answers && r.questions == q.questions
      && r.index == (if |q.questions| > 0 then 0 else q.index)
  {
    var es := WC.HandleSubmit(w);
    var q1 := SetFullName(q, w.inputFullName);
    var q2 := SetPassword(q1, w.inputPassword);
    var q3 := SetView(q2, Test);
    assert es[1..][1..][1..] == [];
    assert OnWelcomeAll(q2, es[1..][1..]) == q3;
    assert OnWelcomeAll(q1, es[1..]) == q3;
  }

  /** The submission an answer made, if any, as a list. */
  function Submitted(o: AnswerOutcome): seq<QS.Submission> {
    if o.submitted.Some? then [o.submitted.value] else []
  }

  /** Answering the current question `|choices|` times in a row. */
  function AnswerInTurn(q: Quiz, choices: seq<string>): (r: (Quiz, seq<QS.Submission>))
    requires Valid(q)
    decreases |choices|
  {
    if |choices| == 0 || |q.questions| == 0 then (q, [])
    else
      var o := HandleAnswer(q, q.questions[q.index].id, choices[0]);
      var rest := AnswerInTurn(o.quiz, choices[1..]);
      (rest.0, Submitted(o) + rest.1)
  }

  /** Answering each remaining question in turn submits exactly once, on
      the last question, which stays current, and the submission carries
      the final answers. */
  lemma {:induction false} AnswerInTurnSubmitsOnce(q: Quiz, choices: seq<string>)
    requires Valid(q) && |q.questions| > 0
    requires |choices| == |q.questions| - q.index
    ensures |AnswerInTurn(q, choices).1| == 1
    ensures AnswerInTurn(q, choices).0.index == |q.questions| - 1
    ensures AnswerInTurn(q, choices).0.view == q.view
    ensures AnswerInTurn(q, choices).1[0].results == Results(AnswerInTurn(q, choices).0.answers)
    decreases |choices|
  {
    if HasMoreQuestions(q) {
      var o := HandleAnswer(q, q.questions[q.index].id, choices[0]);
      AnswerInTurnAdvances(q, choices);
      AnswerInTurnSubmitsOnce(o.quiz, choices[1..]);
    } else {
      AnswerInTurnLast(q, choices);
    }
  }

  /** Before the last question, answering in turn is answering the rest in
      turn from the next question, with nothing submitted on the way. */
  lemma AnswerInTurnAdvances(q: Quiz, choices: seq<string>)
    requires Valid(q) && |choices| > 0 && HasMoreQuestions(q)
    ensures var o := HandleAnswer(q, q.questions[q.index].id, choices[0]);
      && Valid(o.quiz)
      && AnswerInTurn(q, choices) == AnswerInTurn(o.quiz, choices[1..])
  {
    var o := HandleAnswer(q, q.questions[q.index].id, choices[0]);
    var rest := AnswerInTurn(o.quiz, choices[1..]);
    SubmittedNone(o);
    assert AnswerInTurn(q, choices) == (rest.0, Submitted(o) + rest.1);
    assert Submitted(o) + rest.1 == rest.1;
  }

  lemma SubmittedNone(o: AnswerOutcome)
    requires o.submitted.None?
    ensures Submitted(o) == []
  {}

  /** On the last question one answer submits the answers and stays put. */
  lemma AnswerInTurnLast(q: Quiz, choices: seq<string>)
    requires Valid(q) && |q.questions| > 0 && |choices| == 1 && !HasMoreQuestions(q)
    ensures var o := HandleAnswer(q, q.questions[q.index].id, choices[0]);
      && o.submitted.Some?
      && AnswerInTurn(q, choices) == (o.quiz, [o.submitted.value])
      && o.quiz.index == q.index && o.quiz.view == q.view
      && o.submitted.value.results == Results(o.quiz.answers)
  {
    var o := HandleAnswer(q, q.questions[q.index].id, choices[0]);
    assert choices[1..] == [];
    var rest := AnswerInTurn(o.quiz, choices[1..]);
    assert rest == (o.quiz, []);
    assert [o.submitted.value] + rest.1 == [o.submitted.value];
  }

  /** Every question from the current one on gets an entry. */
  lemma {:induction false} AnswerInTurnRecordsAll(q: Quiz, choices: seq<string>, j: nat)
    requires Valid(q) && |q.questions| > 0
    requires |choices| == |q.questions| - q.index
    requires q.index <= j < |q.questions|
    ensures AR.Has(AnswerInTurn(q, choices).0.answers, q.questions[j].id)
    decreases |choices|
  {
    var id := q.questions[q.index].id;
    var o := HandleAnswer(q, id, choices[0]);
    var rest := AnswerInTurn(o.quiz, choices[1..]);
    assert AnswerInTurn(q, choices).0 == rest.0;
    if j == q.index {
      assert AR.Has(o.quiz.answers, id);
      AnswerKeptLater(o.quiz, choices[1..], id);
    } else {
      AnswerInTurnRecordsAll(o.quiz, choices[1..], j);
    }
  }

  /** A key once answered stays answered. */
  lemma {:induction false} AnswerKeptLater(q: Quiz, choices: seq<string>, k: string)
    requires Valid(q) && AR.Has(q.answers, k)
    ensures AR.Has(AnswerInTurn(q, choices).0.answers, k)
    decreases |choices|
  {
    if |choices| > 0 && |q.questions| > 0 {
      var o := HandleAnswer(q, q.questions[q.index].id, choices[0]);
      assert AR.Has(o.quiz.answers, k) by {
        assert AR.Get(q.answers, k).Some?;
      }
      AnswerKeptLater(o.quiz, choices[1..], k);
    }
  }

  /** The question view's Next button feeding `handleAnswer`: the staged
      selection is recorded for the shown question, so an answer recorded
      this way is never empty, and with nothing staged nothing changes. */
  lemma NextRecordsSelection(q: Quiz, selected: string)
    requires CurrentQuestion(q).Some?
    ensures var shown := CurrentQuestion(q).value;
      var next := QC.HandleNext(shown, selected);
      && (selected == QC.NoSelection ==> next.emitted.None?)
      && (next.emitted.Some? ==>
        var o := HandleAnswer(q, next.emitted.value.questionId, next.emitted.value.answerId);
        AR.Get(o.quiz.answers, shown.id) == Some(selected) && selected != "")
  {
  }
}
