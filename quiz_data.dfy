/** The fixed question table of the quiz and the small wrapper types the model shares. */
module QuizData {

  /** A JavaScript value that may be `null` (a timer handle) or missing. */
  datatype Option<T> = None | Some(value: T)

  /** One entry of the question table: how many answer buttons it offers and which one is right.
      The question and answer texts are not modelled. */
  datatype Question = Question(answerCount: nat, correctAnswer: nat)

  /** The shipped table: four questions, three answers each, the second answer correct. */
  const Questions: seq<Question> :=
    [Question(3, 1), Question(3, 1), Question(3, 1), Question(3, 1)]

  /** quizQuestions.length */
  const N: nat := |Questions|

  /** The key is usable: every correct answer is one of the offered answers. */
  lemma QuestionTableWellFormed()
    ensures N == 4
    ensures forall q :: 0 <= q < N ==> Questions[q].correctAnswer < Questions[q].answerCount
  {
  }
}
