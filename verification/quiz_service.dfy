/** The quiz's data service (src/app/components/quiz/quiz.service.ts):
    loading the questions, ordered by priority, with a captured error and a
    loading flag, and the simulated results submission. */
module QuizService {
  import opened Wrappers
  import opened QuizTypes

  /** What the question source delivered: the questions, or a failure. */
  datatype FetchResult = Fetched(questions: seq<Question>) | FetchFailed(reason: string)

  /** The service's observable flags. */
  datatype LoadState = LoadState(error: Option<string>, isLoading: bool)

  /** The questions the quiz receives, and the flags afterwards. */
  datatype LoadOutcome = LoadOutcome(state: LoadState, questions: seq<Question>)

  /** Before any load: nothing is loading and there is no error. */
  function InitialLoadState(): (s: LoadState)
    ensures !s.isLoading && s.error.None?
  {
    LoadState(None, false)
  }

  const LoadErrorPrefix := "Failed to load questions: "

  predicate SortedByPriority(qs: seq<Question>) {
    forall i, j :: 0 <= i < j < |qs| ==> qs[i].priority <= qs[j].priority
  }

  /** The questions of `qs` with priority `p`, in their order in `qs`. */
  function WithPriority(qs: seq<Question>, p: int): seq<Question> {
    if |qs| == 0 then []
    else (if qs[0].priority == p then [qs[0]] else []) + WithPriority(qs[1..], p)
  }

  /** Places `x` before the first element of `qs` whose priority is not
      smaller than its own. */
  function Insert(x: Question, qs: seq<Question>): (r: seq<Question>)
    ensures |r| == |qs| + 1
  {
    if |qs| == 0 || x.priority <= qs[0].priority then [x] + qs
    else [qs[0]] + Insert(x, qs[1..])
  }

  /** Inserting into a sorted list keeps it sorted, and the head is either
      `x` or the old head. */
  lemma {:induction false} InsertSorted(x: Question, qs: seq<Question>)
    requires SortedByPriority(qs)
    ensures SortedByPriority(Insert(x, qs))
    ensures Insert(x, qs)[0] == x || (|qs| > 0 && Insert(x, qs)[0] == qs[0])
  {
    if |qs| > 0 && x.priority > qs[0].priority {
      var rest := Insert(x, qs[1..]);
      InsertSorted(x, qs[1..]);
      assert qs[0].priority <= rest[0].priority;
      var r := [qs[0]] + rest;
      assert Insert(x, qs) == r;
      forall i, j | 0 <= i < j < |r|
        ensures r[i].priority <= r[j].priority
      {
        if i > 0 {
          assert r[i] == rest[i - 1] && r[j] == rest[j - 1];
        } else if j > 1 {
          assert r[j] == rest[j - 1];
        }
      }
    }
  }

  /** Insertion adds exactly `x`. */
  lemma {:induction false} InsertPermutes(x: Question, qs: seq<Question>)
    ensures multiset(Insert(x, qs)) == multiset(qs) + multiset{x}
  {
    if |qs| > 0 && x.priority > qs[0].priority {
      var rest := Insert(x, qs[1..]);
      InsertPermutes(x, qs[1..]);
      assert Insert(x, qs) == [qs[0]] + rest;
      assert qs == [qs[0]] + qs[1..];
      assert multiset([qs[0]] + rest) == multiset{qs[0]} + multiset(rest);
      assert multiset(qs) == multiset{qs[0]} + multiset(qs[1..]);
    }
  }

  /** `x` overtakes only questions of a smaller priority, so the order
      among the questions of each priority is the order in `[x] + qs`. */
  lemma {:induction false} InsertWithPriority(x: Question, qs: seq<Question>, p: int)
    ensures WithPriority(Insert(x, qs), p) == WithPriority([x] + qs, p)
  {
    if |qs| > 0 && x.priority > qs[0].priority {
      var rest := Insert(x, qs[1..]);
      var tail := WithPriority(qs[1..], p);
      InsertWithPriority(x, qs[1..], p);
      assert Insert(x, qs) == [qs[0]] + rest;
      assert qs == [qs[0]] + qs[1..];
      WithPriorityCons(qs[0], rest, p);
      WithPriorityCons(x, qs[1..], p);
      WithPriorityCons(qs[0], qs[1..], p);
      WithPriorityCons(x, qs, p);
      if x.priority == p {
        assert WithPriority(rest, p) == [x] + tail;
        assert WithPriority(Insert(x, qs), p) == [x] + tail;
        assert WithPriority(qs, p) == tail;
      } else if qs[0].priority == p {
        assert WithPriority(rest, p) == tail;
        assert WithPriority(Insert(x, qs), p) == [qs[0]] + tail;
      } else {
        assert WithPriority(rest, p) == tail;
      }
    }
  }

  lemma WithPriorityCons(y: Question, s: seq<Question>, p: int)
    ensures WithPriority([y] + s, p) == (if y.priority == p then [y] else []) + WithPriority(s, p)
  {
    assert ([y] + s)[1..] == s;
  }

  /** `questions.sort((a, b) => a.priority - b.priority)`: ascending by
      priority, and stable, as JavaScript's `Array.prototype.sort` is. */
  function SortByPriority(qs: seq<Question>): (r: seq<Question>)
    ensures SortedByPriority(r)
    ensures multiset(r) == multiset(qs)
  {
    if |qs| == 0 then []
    else
      var rest := SortByPriority(qs[1..]);
      InsertSorted(qs[0], rest);
      InsertPermutes(qs[0], rest);
      assert qs == [qs[0]] + qs[1..];
      Insert(qs[0], rest)
  }

  /** Stability: the questions of each priority keep their relative order. */
  lemma {:induction false} SortWithPriority(qs: seq<Question>, p: int)
    ensures WithPriority(SortByPriority(qs), p) == WithPriority(qs, p)
  {
    if |qs| > 0 {
      var sorted := SortByPriority(qs[1..]);
      SortWithPriority(qs[1..], p);
      InsertWithPriority(qs[0], sorted, p);
      assert ([qs[0]] + sorted)[1..] == sorted;
      assert qs == [qs[0]] + qs[1..];
    }
  }

  lemma SortIsStable(qs: seq<Question>)
    ensures forall p :: WithPriority(SortByPriority(qs), p) == WithPriority(qs, p)
  {
    forall p
      ensures WithPriority(SortByPriority(qs), p) == WithPriority(qs, p)
    {
      SortWithPriority(qs, p);
    }
  }

  /** The subscription starting: the flag goes up and the error is cleared. */
  function BeginLoad(s: LoadState): (r: LoadState)
    ensures r.isLoading && r.error.None?
  {
    LoadState(None, true)
  }

  /** The pipeline settling: sorted questions on success; on failure an
      empty list and the error message. Either way the flag goes down. */
  function SettleLoad(s: LoadState, f: FetchResult): (r: LoadOutcome)
    ensures !r.state.isLoading
    ensures f.Fetched? ==>
      && r.state.error == s.error
      && SortedByPriority(r.questions)
      && multiset(r.questions) == multiset(f.questions)
    ensures f.FetchFailed? ==>
      && r.questions == []
      && r.state.error == Some(LoadErrorPrefix + f.reason)
  {
    match f
    case Fetched(qs) => LoadOutcome(s.(isLoading := false), SortByPriority(qs))
    case FetchFailed(reason) =>
      LoadOutcome(LoadState(Some(LoadErrorPrefix + reason), false), [])
  }

  /** A whole load: no error remains after a successful fetch. */
  function LoadQuestions(s: LoadState, f: FetchResult): (r: LoadOutcome)
    ensures !r.state.isLoading
    ensures r.state.error.None? <==> f.Fetched?
    ensures f.Fetched? ==>
      && SortedByPriority(r.questions)
      && multiset(r.questions) == multiset(f.questions)
      && forall p :: WithPriority(r.questions, p) == WithPriority(f.questions, p)
    ensures f.FetchFailed? ==> r.questions == []
  {
    match f
    case Fetched(qs) => SortIsStable(qs); SettleLoad(BeginLoad(s), f)
    case FetchFailed(_) => SettleLoad(BeginLoad(s), f)
  }

  /** A notification of an observable. */
  datatype Notification = Next(success: bool) | Complete

  /** What the quiz submits. */
  datatype Submission = Submission(password: string, fullName: string, results: seq<ResultEntry>)

  /** `postResults` delivers exactly one `{success: true}` and then
      completes, whatever it is given. */
  function PostResults(sub: Submission): (ns: seq<Notification>)
    ensures |ns| >= 1 && ns[|ns| - 1] == Complete
    ensures forall i :: 0 <= i < |ns| - 1 ==> ns[i] == Next(true)
    ensures |ns| == 2
  {
    [Next(true), Complete]
  }
}
