/** The page script's quiz controller: its module-level variables as the fields of one object,
    and each handler as a method that updates them in place. */
module Controller {
  import opened QuizData
  import opened Selections
  import opened Views
  import opened Scoring
  import opened ScoreTicker
  import opened QuizState

  class Quiz {
    var currentIndex: nat
    var userAnswers: map<nat, seq<nat>>
    var started: bool
    var visited: set<nat>
    var scoreTimer: Option<TimerId>
    var scoreTimeout: Option<TimerId>
    /** The ticker's counter and what the score number and the percent sign show. */
    var readout: Readout

    /** The six script variables as one value. */
    function State(): Session
      reads this
    {
      Session(currentIndex, userAnswers, started, visited, scoreTimer, scoreTimeout)
    }

    /** Loading the script: the variables as declared; the score display as the markup has it,
        taken to read "0" with the percent sign hidden. */
    constructor ()
      ensures State() == Loaded
      ensures readout == Readout(0, 0, false)
    {
      currentIndex := 0;
      userAnswers := map[];
      started := false;
      visited := {};
      scoreTimer := None;
      scoreTimeout := None;
      readout := Readout(0, 0, false);
    }

    method InitQuiz() returns (screen: Screen)
      modifies this
      ensures State() == Init(old(State()))
      ensures readout == old(readout)
      ensures screen == Render(State())
    {
      currentIndex := 0;
      userAnswers := map[];
      started := true;
      visited := {0};
      screen := Repaint();
    }

    /** displayQuestion, updateProgressIndicator and updateNavigationButtons, in that order. */
    method Repaint() returns (screen: Screen)
      requires WellFormed(State())
      modifies this
      ensures State() == Display(old(State()))
      ensures readout == old(readout)
      ensures screen == Render(State())
    {
      var highlights := DisplayQuestion();
      screen := Screen(highlights, ProgressIndicator(N, currentIndex, visited), NavigationButtons(currentIndex, N));
    }

    /** The state part of displayQuestion; it answers which answer buttons are highlighted. */
    method DisplayQuestion() returns (highlights: seq<bool>)
      requires WellFormed(State())
      modifies this
      ensures State() == Display(old(State()))
      ensures readout == old(readout)
      ensures highlights == AnswerHighlights(Questions[currentIndex].answerCount, AnswersFor(userAnswers, currentIndex))
    {
      visited := visited + {currentIndex};
      if currentIndex !in userAnswers {
        userAnswers := userAnswers[currentIndex := []];
      }
      highlights := AnswerHighlights(Questions[currentIndex].answerCount, userAnswers[currentIndex]);
    }

    /** A click on answer button `answer` of the current question; it repaints the buttons. */
    method SelectAnswer(answer: nat) returns (buttons: ButtonState)
      requires Valid(State()) && answer < Questions[currentIndex].answerCount
      modifies this
      ensures State() == Select(old(State()), answer)
      ensures readout == old(readout)
      ensures buttons == NavigationButtons(currentIndex, N)
    {
      if currentIndex !in userAnswers {
        userAnswers := userAnswers[currentIndex := []];
      }
      var selected := userAnswers[currentIndex];
      if answer !in selected {
        userAnswers := userAnswers[currentIndex := selected + [answer]];
      }
      buttons := NavigationButtons(currentIndex, N);
    }

    /** The next button; it repaints only when it moves. */
    method NextQuestion() returns (screen: Option<Screen>)
      requires Valid(State())
      modifies this
      ensures State() == Next(old(State()))
      ensures readout == old(readout)
      ensures screen == (if old(currentIndex) < N - 1 then Some(Render(State())) else None)
    {
      screen := None;
      if currentIndex < N - 1 {
        visited := visited + {currentIndex};
        currentIndex := currentIndex + 1;
        visited := visited + {currentIndex};
        var painted := Repaint();
        screen := Some(painted);
      }
    }

    /** The previous button; it repaints only when it moves. */
    method PreviousQuestion() returns (screen: Option<Screen>)
      requires Valid(State())
      modifies this
      ensures State() == Previous(old(State()))
      ensures readout == old(readout)
      ensures screen == (if 0 < old(currentIndex) then Some(Render(State())) else None)
    {
      screen := None;
      if currentIndex > 0 {
        currentIndex := currentIndex - 1;
        var painted := Repaint();
        screen := Some(painted);
      }
    }

    /** The submit button: count the questions answered correctly, compute the percentage and
        show the results. `timeout` is the handle setTimeout returns when the score animation is armed. */
    method SubmitQuiz(timeout: TimerId) returns (score: nat)
      modifies this
      ensures score == QuizScore(old(userAnswers))
      ensures score <= 100
      ensures State() == QuizState.ShowResults(old(State()), timeout)
      ensures readout == ResetDisplay(old(readout))
    {
      var correct := CountCorrect(Questions, userAnswers);
      score := Score(correct, N);
      ShowResults(score, timeout);
    }

    /** Cancel the interval and the delayed start when they are set. */
    method ClearTimers()
      modifies this
      ensures State() == QuizState.ClearTimers(old(State()))
      ensures scoreTimer == None && scoreTimeout == None
      ensures readout == old(readout)
    {
      if scoreTimer.Some? {
        scoreTimer := None;
      }
      if scoreTimeout.Some? {
        scoreTimeout := None;
      }
    }

    /** showResults: both handles are cleared before the delayed start is armed again. The score
        it is given is not what the animation shows. */
    method ShowResults(score: nat, timeout: TimerId)
      modifies this
      ensures State() == QuizState.ShowResults(old(State()), timeout)
      ensures readout == ResetDisplay(old(readout))
    {
      ClearTimers();
      readout := ResetDisplay(readout);
      scoreTimeout := Some(timeout);
    }

    /** The delayed start firing 1000 ms after showResults: a fresh counter at 0 and the interval
        armed with the handle setInterval returns. The timeout handle is not cleared. */
    method StartTicker(interval: TimerId)
      requires scoreTimeout.Some? && scoreTimer.None?
      modifies this
      ensures State() == old(State()).(scoreTimer := Some(interval))
      ensures readout == old(readout).(counter := 0)
    {
      readout := readout.(counter := 0);
      scoreTimer := Some(interval);
    }

    /** One firing of the interval: it fires only while its handle is set. */
    method Tick()
      requires scoreTimer.Some?
      modifies this
      ensures Ticker(readout, scoreTimer.Some?) == Step(Ticker(old(readout), true))
      ensures scoreTimer == (if ClearsInterval(old(readout)) then None else old(scoreTimer))
      ensures State() == old(State()).(scoreTimer := scoreTimer)
    {
      var counter := readout.counter + 1;
      var percentShown := readout.percentShown;
      if counter > 0 {
        percentShown := true;
      }
      if counter == SnapAt {
        counter := FixedScore;
        readout := Readout(counter, counter, percentShown);
        scoreTimer := None;
      } else if counter < SnapAt {
        readout := Readout(counter, counter, percentShown);
      } else {
        readout := readout.(counter := counter, percentShown := percentShown);
      }
    }

    /** The start-again button: cancel the score animation, reset the quiz variables and run initQuiz. */
    method StartAgain() returns (screen: Screen)
      modifies this
      ensures State() == Restart(old(State()))
      ensures State() == Init(Loaded)
      ensures readout == ResetDisplay(old(readout))
      ensures screen == Render(State())
    {
      ClearTimers();
      currentIndex := 0;
      userAnswers := map[];
      started := false;
      visited := {};
      readout := ResetDisplay(readout);
      screen := InitQuiz();
    }
  }
}
