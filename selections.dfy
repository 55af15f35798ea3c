/** The per-question answer lists of the quiz and how a click adds to them. */
module Selections {

  /** `userAnswers[q] || []`: the list recorded for question q, a missing list read as empty. */
  function AnswersFor(answers: map<nat, seq<nat>>, q: nat): seq<nat>
  {
    if q in answers then answers[q] else []
  }

  predicate NoDuplicates(list: seq<nat>)
  {
    forall i, j :: 0 <= i < j < |list| ==> list[i] != list[j]
  }

  /** One answer click on a list: push the answer if it is absent, otherwise leave the list. */
  function AddSelection(list: seq<nat>, a: nat): (r: seq<nat>)
    ensures list <= r
    ensures a in r
    ensures forall x :: x in r <==> x in list || x == a
    ensures a in list <==> r == list
    ensures |r| == if a in list then |list| else |list| + 1
    ensures NoDuplicates(list) ==> NoDuplicates(r)
  {
    if a in list then list else list + [a]
  }

  /** A run of answer clicks on one question, in order. */
  function AddSelections(list: seq<nat>, picks: seq<nat>): seq<nat>
    decreases |picks|
  {
    if picks == [] then list else AddSelections(AddSelection(list, picks[0]), picks[1..])
  }

  /** However the clicks go, the list only grows at its end, holds exactly the old answers and
      the clicked ones, and never gains a duplicate. */
  lemma {:induction false} AddSelectionsAccumulates(list: seq<nat>, picks: seq<nat>)
    ensures list <= AddSelections(list, picks)
    ensures forall x :: x in AddSelections(list, picks) <==> x in list || x in picks
    ensures NoDuplicates(list) ==> NoDuplicates(AddSelections(list, picks))
    decreases |picks|
  {
    if picks != [] {
      var once := AddSelection(list, picks[0]);
      AddSelectionsAccumulates(once, picks[1..]);
      assert picks == [picks[0]] + picks[1..];
      var r := AddSelections(list, picks);
      forall x
        ensures x in r <==> x in list || x in picks
      {
        assert x in picks <==> x == picks[0] || x in picks[1..];
      }
    }
  }

  /** Clicking answers that are all already selected changes nothing: no deselection. */
  lemma {:induction false} ReselectingIsNoOp(list: seq<nat>, picks: seq<nat>)
    requires forall x :: x in picks ==> x in list
    ensures AddSelections(list, picks) == list
    decreases |picks|
  {
    if picks != [] {
      assert picks[0] in picks;
      forall x | x in picks[1..]
        ensures x in list
      {
        assert x in picks;
      }
      ReselectingIsNoOp(list, picks[1..]);
    }
  }

  /** Two runs of clicks compose. */
  lemma {:induction false} AddSelectionsAppend(list: seq<nat>, p: seq<nat>, q: seq<nat>)
    ensures AddSelections(list, p + q) == AddSelections(AddSelections(list, p), q)
    decreases |p|
  {
    if p == [] {
      assert p + q == q;
    } else {
      assert (p + q)[0] == p[0];
      assert (p + q)[1..] == p[1..] + q;
      AddSelectionsAppend(AddSelection(list, p[0]), p[1..], q);
    }
  }

  /** Repeating a whole run of clicks is a no-op: selection is idempotent. */
  lemma RepeatingClicksIsNoOp(list: seq<nat>, picks: seq<nat>)
    ensures AddSelections(list, picks + picks) == AddSelections(list, picks)
  {
    AddSelectionsAppend(list, picks, picks);
    AddSelectionsAccumulates(list, picks);
    ReselectingIsNoOp(AddSelections(list, picks), picks);
  }
}
