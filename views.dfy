/** The decisions behind the three view updates: the answer buttons' highlight, the progress
    lines and the navigation buttons. Each is a pure function of the quiz state. */
module Views {

  /** The class a progress line carries besides `progress-line`. */
  datatype ProgressClass = Active | Completed | Default

  /** How a navigation button is painted: `display: none`, or shown and enabled or disabled. */
  datatype Control = Hidden | Shown(enabled: bool)

  datatype ButtonState = ButtonState(prev: Control, next: Control, submit: Control)

  /** The class of the line for question `index`. */
  function ProgressLine(index: int, current: int, visited: set<int>): (c: ProgressClass)
    ensures c == Active <==> index == current
    ensures c == Completed <==> index != current && index in visited
    ensures c == Default <==> index != current && index !in visited
  {
    if index == current then Active
    else if index in visited then Completed
    else Default
  }

  /** updateProgressIndicator: one line per question, left to right. */
  function ProgressIndicator(n: nat, current: int, visited: set<int>): (lines: seq<ProgressClass>)
    ensures |lines| == n
    ensures forall i :: 0 <= i < n ==> (lines[i] == Active <==> i == current)
    ensures forall i :: 0 <= i < n ==> (lines[i] == Completed <==> i in visited && i != current)
    ensures forall i :: 0 <= i < n ==> (lines[i] == Default <==> i !in visited && i != current)
  {
    seq(n, i => ProgressLine(i, current, visited))
  }

  /** Exactly one line is active when the current index is in range. */
  lemma OneActiveLine(n: nat, current: int, visited: set<int>)
    requires 0 <= current < n
    ensures (set i | 0 <= i < n && ProgressIndicator(n, current, visited)[i] == Active) == {current}
  {
  }

  /** The lines that are not Default are exactly the visited questions and the current one. */
  lemma ProgressShowsVisited(n: nat, current: int, visited: set<int>)
    requires 0 <= current < n
    requires forall i :: i in visited ==> 0 <= i < n
    ensures (set i | 0 <= i < n && ProgressIndicator(n, current, visited)[i] != Default) == visited + {current}
  {
  }

  /** updateNavigationButtons. */
  function NavigationButtons(index: int, n: int): ButtonState
  {
    if index == n - 1 then
      ButtonState(Hidden, Hidden, Shown(true))
    else
      ButtonState(Shown(index != 0), Shown(true), Hidden)
  }

  /** On the last question previous and next are hidden and submit is shown and enabled; on any
      other question previous is shown and disabled only on the first, next is shown and
      enabled, and submit is hidden. Submitting and advancing never wait for an answer. */
  lemma ButtonsByPosition(index: int, n: int)
    requires 0 <= index < n
    ensures var b := NavigationButtons(index, n);
      (index == n - 1 <==> b.submit == Shown(true)) &&
      (index == n - 1 <==> b.prev == Hidden && b.next == Hidden) &&
      (index < n - 1 ==> b.prev == Shown(index != 0) && b.next == Shown(true) && b.submit == Hidden)
  {
  }

  /** A shown, enabled navigation button is one whose click handler moves, except previous on the
      last question, which is hidden although previousQuestion would move. */
  lemma EnabledButtonsMove(index: int, n: int)
    requires 0 <= index < n
    ensures NavigationButtons(index, n).next == Shown(true) <==> index < n - 1
    ensures NavigationButtons(index, n).prev == Shown(true) <==> 0 < index < n - 1
    ensures NavigationButtons(index, n).next.Shown? != NavigationButtons(index, n).submit.Shown?
  {
  }

  /** displayQuestion's highlight: button i carries `selected` exactly when i was chosen. */
  function AnswerHighlights(answerCount: nat, selected: seq<nat>): (highlighted: seq<bool>)
    ensures |highlighted| == answerCount
    ensures forall i :: 0 <= i < answerCount ==> (highlighted[i] <==> i in selected)
  {
    seq(answerCount, i => 0 <= i && i as nat in selected)
  }
}
