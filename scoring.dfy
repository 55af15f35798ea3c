/** The score computed by submitQuiz. */
module Scoring {
  import opened QuizData
  import opened Selections

  /** Question q counts as right when its answer list contains the key, whatever else it holds. */
  predicate AnsweredCorrectly(questions: seq<Question>, answers: map<nat, seq<nat>>, q: nat)
    requires q < |questions|
  {
    questions[q].correctAnswer in AnswersFor(answers, q)
  }

  /** How many of the first k questions are answered correctly. */
  function CorrectUpTo(questions: seq<Question>, answers: map<nat, seq<nat>>, k: nat): (c: nat)
    requires k <= |questions|
    ensures c <= k
  {
    if k == 0 then 0
    else CorrectUpTo(questions, answers, k - 1) + (if AnsweredCorrectly(questions, answers, k - 1) then 1 else 0)
  }

  /** correctAnswers after the forEach of submitQuiz. */
  function CorrectCount(questions: seq<Question>, answers: map<nat, seq<nat>>): (c: nat)
    ensures c <= |questions|
  {
    CorrectUpTo(questions, answers, |questions|)
  }

  /** The questions among the first k that are answered correctly. */
  ghost function CorrectSet(questions: seq<Question>, answers: map<nat, seq<nat>>, k: nat): set<nat>
    requires k <= |questions|
  {
    set q: nat | q < k && AnsweredCorrectly(questions, answers, q)
  }

  /** The running count is the number of correctly answered questions. */
  lemma {:induction false} CorrectUpToIsCardinality(questions: seq<Question>, answers: map<nat, seq<nat>>, k: nat)
    requires k <= |questions|
    ensures CorrectUpTo(questions, answers, k) == |CorrectSet(questions, answers, k)|
  {
    if k == 0 {
      assert CorrectSet(questions, answers, 0) == {};
    } else {
      CorrectUpToIsCardinality(questions, answers, k - 1);
      var before, now := CorrectSet(questions, answers, k - 1), CorrectSet(questions, answers, k);
      var last: nat := k - 1;
      if AnsweredCorrectly(questions, answers, last) {
        SetGrowsByOne(before, now, last);
      } else {
        assert now == before by {
          forall q: nat | q in now
            ensures q in before
          {
            assert q != last;
          }
        }
      }
    }
  }

  lemma SetGrowsByOne(before: set<nat>, now: set<nat>, last: nat)
    requires last !in before && last in now
    requires forall q :: q in now ==> q in before || q == last
    requires forall q :: q in before ==> q in now
    ensures |now| == |before| + 1
  {
    assert now == before + {last};
  }

  /** The forEach loop of submitQuiz. */
  method CountCorrect(questions: seq<Question>, answers: map<nat, seq<nat>>) returns (correct: nat)
    ensures correct == CorrectCount(questions, answers)
    ensures correct == |CorrectSet(questions, answers, |questions|)|
  {
    correct := 0;
    var index := 0;
    while index < |questions|
      invariant index <= |questions|
      invariant correct == CorrectUpTo(questions, answers, index)
    {
      var selected := AnswersFor(answers, index);
      if questions[index].correctAnswer in selected {
        correct := correct + 1;
      }
      index := index + 1;
    }
    CorrectUpToIsCardinality(questions, answers, |questions|);
  }

  /** Euclidean division of a natural number, spelled out. */
  lemma DivFacts(x: int, d: int, q: int)
    requires 0 < d && 0 <= x && q == x / d
    ensures d * q <= x < d * q + d
  {
  }

  lemma MulAssoc(n: int, s: int)
    ensures n * (2 * s) == (2 * n) * s
    ensures n * (2 * s + 2) == (2 * n) * s + 2 * n
  {
  }

  lemma AtMostHundred(correct: int, n: int, score: int)
    requires 0 < n && 0 <= correct <= n
    requires (2 * n) * score <= 200 * correct + n
    ensures score <= 100
  {
  }

  /** Math.round((correct / n) * 100) on integers: 100 * correct / n rounded half up. */
  function Score(correct: nat, n: nat): (score: nat)
    requires 0 < n && correct <= n
    ensures score <= 100
    ensures n * (2 * score) <= 200 * correct + n < n * (2 * score + 2)
  {
    var score := (200 * correct + n) / (2 * n);
    DivFacts(200 * correct + n, 2 * n, score);
    MulAssoc(n, score);
    AtMostHundred(correct, n, score);
    score
  }

  /** With the shipped four questions every correct answer is worth exactly 25 points, so the
      integer rounding agrees with the floating-point computation. */
  lemma ScoreOfFourQuestions(correct: nat)
    requires correct <= 4
    ensures Score(correct, 4) == 25 * correct
  {
  }

  /** The score of submitQuiz for the shipped table. */
  function QuizScore(answers: map<nat, seq<nat>>): (score: nat)
    ensures score <= 100
    ensures score == 25 * CorrectCount(Questions, answers)
  {
    ScoreOfFourQuestions(CorrectCount(Questions, answers));
    Score(CorrectCount(Questions, answers), N)
  }

  lemma MulMono(d: int, a: int, b: int)
    requires 0 <= d && a <= b
    ensures d * a <= d * b
  {
    assert d * b - d * a == d * (b - a);
  }

  /** The quotient is the only q with d * q <= x < d * q + d. */
  lemma DivUnique(x: int, d: int, q: int)
    requires 0 < d && d * q <= x < d * q + d
    ensures q == x / d
  {
    var r := x / d;
    if q < r {
      MulMono(d, q + 1, r);
    } else if r < q {
      MulMono(d, r + 1, q);
    }
  }

  /** Nothing answered scores 0, everything answered correctly scores 100. */
  lemma ScoreBounds(n: nat)
    requires 0 < n
    ensures Score(0, n) == 0 && Score(n, n) == 100
  {
    DivUnique(n, 2 * n, 0);
    DivUnique(200 * n + n, 2 * n, 100);
  }

  /** All of the first k questions are right exactly when the count reaches k. */
  lemma {:induction false} FullCountMeansAllCorrect(questions: seq<Question>, answers: map<nat, seq<nat>>, k: nat)
    requires k <= |questions|
    ensures CorrectUpTo(questions, answers, k) == k <==> forall q :: 0 <= q < k ==> AnsweredCorrectly(questions, answers, q)
  {
    if k > 0 {
      FullCountMeansAllCorrect(questions, answers, k - 1);
    }
  }

  /** The quiz scores 100 exactly when every question's list contains its key. */
  lemma PerfectScore(answers: map<nat, seq<nat>>)
    ensures QuizScore(answers) == 100 <==> forall q :: 0 <= q < N ==> AnsweredCorrectly(Questions, answers, q)
  {
    FullCountMeansAllCorrect(Questions, answers, N);
  }

  /** Answer lists that only grew never lower the count: appending answers cannot cost points. */
  lemma {:induction false} CorrectUpToMonotone(questions: seq<Question>, before: map<nat, seq<nat>>, after: map<nat, seq<nat>>, k: nat)
    requires k <= |questions|
    requires forall q: nat :: q < k ==> AnswersFor(before, q) <= AnswersFor(after, q)
    ensures CorrectUpTo(questions, before, k) <= CorrectUpTo(questions, after, k)
  {
    if k > 0 {
      CorrectUpToMonotone(questions, before, after, k - 1);
      var q := k - 1;
      if AnsweredCorrectly(questions, before, q) {
        var s, t := AnswersFor(before, q), AnswersFor(after, q);
        assert s <= t;
        var i :| 0 <= i < |s| && s[i] == questions[q].correctAnswer;
        assert t[i] == s[i];
      }
    }
  }

  /** The worked example: answers [[1], [1], [0], [1, 2]] against the shipped key score 75. */
  lemma ExampleScore()
    ensures QuizScore(map[0 := [1], 1 := [1], 2 := [0], 3 := [1, 2]]) == 75
  {
    var answers := map[0 := [1], 1 := [1], 2 := [0], 3 := [1, 2]];
    assert AnsweredCorrectly(Questions, answers, 0);
    assert AnsweredCorrectly(Questions, answers, 1);
    assert !AnsweredCorrectly(Questions, answers, 2);
    assert AnsweredCorrectly(Questions, answers, 3) by {
      assert AnswersFor(answers, 3)[0] == 1;
    }
    assert CorrectUpTo(Questions, answers, 1) == 1;
    assert CorrectUpTo(Questions, answers, 2) == 2;
    assert CorrectUpTo(Questions, answers, 3) == 2;
    assert CorrectUpTo(Questions, answers, 4) == 3;
  }
}
