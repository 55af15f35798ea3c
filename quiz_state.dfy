/** The quiz session state of the page script and its transitions, as values. The class in
    module Controller updates the same state in place and is proved to follow these functions. */
module QuizState {
  import opened QuizData
  import opened Selections
  import opened Views
  import opened Scoring

  /** A handle returned by setTimeout or setInterval: always positive, so a stored handle is
      truthy and `null` is the only falsy value of the two variables. */
  type TimerId = x: nat | 0 < x witness 1

  /** The six module-level variables of the script. */
  datatype Session = Session(
    currentIndex: nat,
    userAnswers: map<nat, seq<nat>>,
    started: bool,
    visited: set<nat>,
    scoreTimer: Option<TimerId>,
    scoreTimeout: Option<TimerId>)

  /** The variables as declared, before initQuiz runs. */
  const Loaded: Session := Session(0, map[], false, {}, None, None)

  /** An answer list holds each answer at most once, and only answers the question offers. */
  predicate ListWellFormed(list: seq<nat>, answerCount: nat)
  {
    NoDuplicates(list) && forall a :: a in list ==> a < answerCount
  }

  /** Every index in range, every list well formed. */
  predicate WellFormed(s: Session)
  {
    s.currentIndex < N &&
    (forall q :: q in s.visited ==> q < N) &&
    (forall q :: q in s.userAnswers ==> q < N && ListWellFormed(s.userAnswers[q], Questions[q].answerCount))
  }

  /** Once the quiz has started, the current question has been displayed. */
  predicate Valid(s: Session)
  {
    WellFormed(s) &&
    (s.started ==> s.currentIndex in s.visited && s.currentIndex in s.userAnswers)
  }

  /** The state part of displayQuestion: mark the question visited and create its answer list
      when it has none. The recorded answers do not change. */
  function Display(s: Session): (r: Session)
    requires WellFormed(s)
    ensures Valid(r)
    ensures r.currentIndex in r.visited && r.currentIndex in r.userAnswers
    ensures r.visited == s.visited + {s.currentIndex}
    ensures s.userAnswers.Keys <= r.userAnswers.Keys
    ensures forall q :: AnswersFor(r.userAnswers, q) == AnswersFor(s.userAnswers, q)
    ensures r == s.(visited := r.visited, userAnswers := r.userAnswers)
  {
    var shown := s.(visited := s.visited + {s.currentIndex});
    if s.currentIndex in s.userAnswers then shown
    else shown.(userAnswers := s.userAnswers[s.currentIndex := []])
  }

  /** initQuiz: question 0, nothing answered, only question 0 visited, started; the timer
      handles are left as they were. */
  function Init(s: Session): (r: Session)
    ensures Valid(r)
    ensures r.currentIndex == 0 && r.started && r.visited == {0}
    ensures r.userAnswers == map[0 := []]
    ensures forall q :: AnswersFor(r.userAnswers, q) == []
    ensures r.scoreTimer == s.scoreTimer && r.scoreTimeout == s.scoreTimeout
  {
    Display(Session(0, map[], true, {0}, s.scoreTimer, s.scoreTimeout))
  }

  /** selectAnswer: the answer joins the current question's list when absent. */
  function Select(s: Session, a: nat): (r: Session)
    requires Valid(s) && a < Questions[s.currentIndex].answerCount
    ensures Valid(r)
    ensures AnswersFor(r.userAnswers, s.currentIndex) == AddSelection(AnswersFor(s.userAnswers, s.currentIndex), a)
    ensures forall q :: q != s.currentIndex ==> AnswersFor(r.userAnswers, q) == AnswersFor(s.userAnswers, q)
    ensures forall q :: AnswersFor(s.userAnswers, q) <= AnswersFor(r.userAnswers, q)
    ensures a in AnswersFor(s.userAnswers, s.currentIndex) ==> r == s
    ensures r.userAnswers.Keys == s.userAnswers.Keys + {s.currentIndex}
    ensures r == s.(userAnswers := r.userAnswers)
  {
    var q := s.currentIndex;
    var list := AnswersFor(s.userAnswers, q);
    if a in list then
      s
    else
      var grown := list + [a];
      assert ListWellFormed(grown, Questions[q].answerCount) by {
        assert grown == AddSelection(list, a);
      }
      var r := s.(userAnswers := s.userAnswers[q := grown]);
      assert forall p :: AnswersFor(r.userAnswers, p) == if p == q then grown else AnswersFor(s.userAnswers, p);
      r
  }

  /** nextQuestion: on the last question nothing changes; otherwise the index moves up by one and
      both the question left and the question reached are visited. */
  function Next(s: Session): (r: Session)
    requires Valid(s)
    ensures Valid(r)
    ensures s.currentIndex == N - 1 ==> r == s
    ensures s.currentIndex < N - 1 ==>
      r.currentIndex == s.currentIndex + 1 &&
      r.visited == s.visited + {s.currentIndex, s.currentIndex + 1}
    ensures s.visited <= r.visited
    ensures forall q :: AnswersFor(r.userAnswers, q) == AnswersFor(s.userAnswers, q)
    ensures r.started == s.started && r.scoreTimer == s.scoreTimer && r.scoreTimeout == s.scoreTimeout
  {
    if s.currentIndex < N - 1 then
      var left := s.(visited := s.visited + {s.currentIndex});
      var moved := left.(currentIndex := left.currentIndex + 1);
      Display(moved.(visited := moved.visited + {moved.currentIndex}))
    else
      s
  }

  /** previousQuestion: on the first question nothing changes; otherwise the index moves down by
      one and the question reached is visited. */
  function Previous(s: Session): (r: Session)
    requires Valid(s)
    ensures Valid(r)
    ensures s.currentIndex == 0 ==> r == s
    ensures 0 < s.currentIndex ==>
      r.currentIndex == s.currentIndex - 1 &&
      r.visited == s.visited + {s.currentIndex - 1}
    ensures s.visited <= r.visited
    ensures forall q :: AnswersFor(r.userAnswers, q) == AnswersFor(s.userAnswers, q)
    ensures r.started == s.started && r.scoreTimer == s.scoreTimer && r.scoreTimeout == s.scoreTimeout
  {
    if 0 < s.currentIndex then
      Display(s.(currentIndex := s.currentIndex - 1))
    else
      s
  }

  /** The timer-clearing block shared by showResults and startAgain. */
  function ClearTimers(s: Session): (r: Session)
    ensures r.scoreTimer == None && r.scoreTimeout == None
    ensures r == s.(scoreTimer := None, scoreTimeout := None)
  {
    var r := if s.scoreTimer.Some? then s.(scoreTimer := None) else s;
    if r.scoreTimeout.Some? then r.(scoreTimeout := None) else r
  }

  /** The state part of showResults: both handles are cleared, then the delayed start is armed
      with the handle setTimeout returns. */
  function ShowResults(s: Session, timeout: TimerId): (r: Session)
    ensures r.scoreTimer == None && r.scoreTimeout == Some(timeout)
    ensures r == s.(scoreTimer := r.scoreTimer, scoreTimeout := r.scoreTimeout)
  {
    ClearTimers(s).(scoreTimeout := Some(timeout))
  }

  /** startAgain: clear both handles, reset the four quiz variables to their declared values,
      then run initQuiz. The result is the state of the first initQuiz after page load. */
  function Restart(s: Session): (r: Session)
    ensures r == Init(Loaded)
    ensures r.scoreTimer == None && r.scoreTimeout == None
  {
    var cleared := ClearTimers(s);
    Init(cleared.(currentIndex := 0, userAnswers := map[], started := false, visited := {}))
  }

  /** What the three view updates paint for a state. */
  datatype Screen = Screen(highlights: seq<bool>, progress: seq<ProgressClass>, buttons: ButtonState)

  function Render(s: Session): (screen: Screen)
    requires s.currentIndex < N
    ensures |screen.highlights| == Questions[s.currentIndex].answerCount
    ensures forall i :: 0 <= i < |screen.highlights| ==>
      (screen.highlights[i] <==> i in AnswersFor(s.userAnswers, s.currentIndex))
    ensures |screen.progress| == N && screen.progress[s.currentIndex] == Active
    ensures forall i :: 0 <= i < N && i != s.currentIndex ==>
      (screen.progress[i] == Completed <==> i in s.visited)
    ensures screen.buttons.submit == Shown(true) <==> s.currentIndex == N - 1
    ensures screen.buttons.submit == Hidden <==> s.currentIndex != N - 1
  {
    Screen(
      AnswerHighlights(Questions[s.currentIndex].answerCount, AnswersFor(s.userAnswers, s.currentIndex)),
      ProgressIndicator(N, s.currentIndex, s.visited),
      NavigationButtons(s.currentIndex, N))
  }

  /** The variables as declared satisfy the session invariant: nothing started, answered,
      visited or scheduled. */
  lemma LoadedIsValid()
    ensures Valid(Loaded) && !Loaded.started
    ensures forall q :: AnswersFor(Loaded.userAnswers, q) == [] && q !in Loaded.visited
    ensures Loaded.scoreTimer.None? && Loaded.scoreTimeout.None?
  {
  }

  /** The buttons match what their handlers do: next is shown and enabled exactly when
      nextQuestion would move, previous is shown and enabled exactly when previousQuestion would
      move and the question is not the last, and it is shown disabled exactly when
      previousQuestion would do nothing. On the last question previous is hidden although
      previousQuestion would still move back. */
  lemma ButtonsMatchHandlers(s: Session)
    requires Valid(s)
    ensures NavigationButtons(s.currentIndex, N).next == Shown(true) <==> Next(s).currentIndex != s.currentIndex
    ensures NavigationButtons(s.currentIndex, N).next == Hidden ==> Next(s) == s
    ensures NavigationButtons(s.currentIndex, N).prev == Shown(true) <==>
      Previous(s).currentIndex != s.currentIndex && s.currentIndex != N - 1
    ensures NavigationButtons(s.currentIndex, N).prev == Shown(false) <==> Previous(s) == s
    ensures s.currentIndex == N - 1 ==>
      NavigationButtons(s.currentIndex, N).prev == Hidden && Previous(s).currentIndex == s.currentIndex - 1
  {
  }

  /** The key of every question is one of its answer buttons, so it can be clicked; clicking it
      makes the current question count as answered correctly, and when every other question is
      already right the quiz then scores 100. */
  lemma SelectingTheKeyCounts(s: Session)
    requires Valid(s)
    ensures Questions[s.currentIndex].correctAnswer < Questions[s.currentIndex].answerCount
    ensures AnsweredCorrectly(Questions, Select(s, Questions[s.currentIndex].correctAnswer).userAnswers, s.currentIndex)
    ensures (forall q :: 0 <= q < N && q != s.currentIndex ==> AnsweredCorrectly(Questions, s.userAnswers, q)) ==>
      QuizScore(Select(s, Questions[s.currentIndex].correctAnswer).userAnswers) == 100
  {
    QuestionTableWellFormed();
    var r := Select(s, Questions[s.currentIndex].correctAnswer);
    assert forall q :: 0 <= q < N && q != s.currentIndex ==>
      (AnsweredCorrectly(Questions, r.userAnswers, q) <==> AnsweredCorrectly(Questions, s.userAnswers, q));
    PerfectScore(r.userAnswers);
  }

  /** Displaying a question twice leaves the same state as displaying it once. */
  lemma DisplayIdempotent(s: Session)
    requires WellFormed(s)
    ensures Display(Display(s)) == Display(s)
  {
  }

  /** Clicking next k times. */
  function Advance(s: Session, k: nat): (r: Session)
    requires Valid(s)
    ensures Valid(r)
  {
    if k == 0 then s else Next(Advance(s, k - 1))
  }

  function Min(a: int, b: int): int
  {
    if a <= b then a else b
  }

  /** After k clicks on next from a displayed question the index is k further on, stopping at
      the last question, and every question passed on the way has been visited. */
  lemma {:induction false} AdvanceVisitsEveryStep(s: Session, k: nat)
    requires Valid(s) && s.started
    ensures Advance(s, k).currentIndex == Min(s.currentIndex + k, N - 1)
    ensures forall i :: s.currentIndex <= i <= Advance(s, k).currentIndex ==> i in Advance(s, k).visited
    ensures s.visited <= Advance(s, k).visited
  {
    if k > 0 {
      AdvanceVisitsEveryStep(s, k - 1);
    }
  }

  /** From the first initQuiz, k clicks on next visit exactly the questions 0 .. min(k, N - 1). */
  lemma AdvanceFromStart(k: nat)
    ensures Advance(Init(Loaded), k).currentIndex == Min(k, N - 1)
    ensures forall i :: 0 <= i <= Min(k, N - 1) ==> i in Advance(Init(Loaded), k).visited
  {
    AdvanceVisitsEveryStep(Init(Loaded), k);
  }

  /** After a move forward the question left is drawn completed and the one reached active. */
  lemma NextMarksProgress(s: Session)
    requires Valid(s) && s.currentIndex < N - 1
    ensures ProgressIndicator(N, Next(s).currentIndex, Next(s).visited)[s.currentIndex] == Completed
    ensures ProgressIndicator(N, Next(s).currentIndex, Next(s).visited)[s.currentIndex + 1] == Active
  {
  }

  /** The clicks and timer events the page can deliver to the session state. */
  datatype Event =
    | NextClick
    | PreviousClick
    | AnswerClick(answer: nat)
    | SubmitClick(timeout: TimerId)
    | StartAgainClick

  /** One event. Only rendered answer buttons can be clicked, so a click on an answer the current
      question does not offer changes nothing. */
  function Apply(s: Session, e: Event): (r: Session)
    requires Valid(s)
    ensures Valid(r)
  {
    match e
    case NextClick => Next(s)
    case PreviousClick => Previous(s)
    case AnswerClick(a) => if a < Questions[s.currentIndex].answerCount then Select(s, a) else s
    case SubmitClick(h) => ShowResults(s, h)
    case StartAgainClick => Restart(s)
  }

  function Replay(s: Session, events: seq<Event>): (r: Session)
    requires Valid(s)
    ensures Valid(r)
    decreases |events|
  {
    if events == [] then s else Replay(Apply(s, events[0]), events[1..])
  }

  /** The lines of the progress indicator that are not Default. */
  predicate Lit(s: Session, i: nat)
  {
    ProgressLine(i, s.currentIndex, s.visited) != Default
  }

  /** What one event other than startAgain keeps. */
  ghost predicate Grows(s: Session, r: Session)
  {
    r.started &&
    s.visited <= r.visited &&
    (forall q :: AnswersFor(s.userAnswers, q) <= AnswersFor(r.userAnswers, q)) &&
    (forall i: nat :: Lit(s, i) ==> Lit(r, i)) &&
    QuizScore(s.userAnswers) <= QuizScore(r.userAnswers)
  }

  lemma ApplyGrows(s: Session, e: Event)
    requires Valid(s) && s.started && e != StartAgainClick
    ensures Grows(s, Apply(s, e))
  {
    var r := Apply(s, e);
    CorrectUpToMonotone(Questions, s.userAnswers, r.userAnswers, N);
    forall i: nat | Lit(s, i)
      ensures Lit(r, i)
    {
      assert i in s.visited || i == s.currentIndex;
    }
  }

  lemma GrowsTransitive(s: Session, t: Session, r: Session)
    requires Grows(s, t) && Grows(t, r)
    ensures Grows(s, r)
  {
    forall q
      ensures AnswersFor(s.userAnswers, q) <= AnswersFor(r.userAnswers, q)
    {
      PrefixTransitive(AnswersFor(s.userAnswers, q), AnswersFor(t.userAnswers, q), AnswersFor(r.userAnswers, q));
    }
  }

  /** Until startAgain, no event takes anything away: the visited set only grows, every answer
      list keeps its old entries at its front, the session stays started, a progress line that
      left Default never returns to it, and the score never drops. */
  lemma {:induction false} ReplayOnlyGrows(s: Session, events: seq<Event>)
    requires Valid(s) && s.started
    requires StartAgainClick !in events
    ensures Grows(s, Replay(s, events))
    decreases |events|
  {
    if events == [] {
      assert Grows(s, s);
    } else {
      var t := Apply(s, events[0]);
      assert events[0] in events;
      ApplyGrows(s, events[0]);
      assert forall e :: e in events[1..] ==> e in events;
      ReplayOnlyGrows(t, events[1..]);
      GrowsTransitive(s, t, Replay(t, events[1..]));
    }
  }

  lemma PrefixTransitive(a: seq<nat>, b: seq<nat>, c: seq<nat>)
    requires a <= b && b <= c
    ensures a <= c
  {
    assert b[..|a|] == a;
    assert c[..|b|] == b;
    assert c[..|a|] == b[..|a|];
  }

  /** Selecting an answer never lowers the score: answers count once given. */
  lemma SelectNeverLowersScore(s: Session, a: nat)
    requires Valid(s) && a < Questions[s.currentIndex].answerCount
    ensures QuizScore(s.userAnswers) <= QuizScore(Select(s, a).userAnswers)
  {
    CorrectUpToMonotone(Questions, s.userAnswers, Select(s, a).userAnswers, N);
  }

  /** A second submit before the score animation settles forgets the first one's handles: afterwards the
      state holds only the handle armed last, exactly as after a single submit. */
  lemma ResubmitSupersedes(s: Session, first: TimerId, second: TimerId)
    ensures ShowResults(ShowResults(s, first), second) == ShowResults(s, second)
  {
  }

  /** startAgain from any state, including in the middle of the score animation, is a fresh initQuiz. */
  lemma RestartForgetsEverything(s: Session, t: Session)
    ensures Restart(s) == Restart(t)
    ensures Restart(s) == Session(0, map[0 := []], true, {0}, None, None)
  {
  }
}
