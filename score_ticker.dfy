/** The score animation of showResults: a counter that counts up once per firing of the
    interval, then snaps to a fixed value and clears the interval. */
module ScoreTicker {

  /** The value the animation always lands on; the computed score is not shown. */
  const FixedScore: int := 62

  /** The count at which the display snaps to FixedScore. */
  const SnapAt: int := 35

  /** The ticker's closure variable `currentScore`, the text of the score number and whether the
      percent sign is displayed. */
  datatype Readout = Readout(counter: int, display: int, percentShown: bool)

  /** showResults and startAgain paint "0" and hide the percent sign. */
  function ResetDisplay(r: Readout): (d: Readout)
    ensures d.display == 0 && !d.percentShown && d.counter == r.counter
  {
    r.(display := 0, percentShown := false)
  }

  /** The body of the 20 ms interval callback. */
  function Tick(r: Readout): Readout
  {
    var c := r.counter + 1;
    var shown := if c > 0 then true else r.percentShown;
    if c == SnapAt then Readout(FixedScore, FixedScore, shown)
    else if c < SnapAt then Readout(c, c, shown)
    else Readout(c, r.display, shown)
  }

  /** Whether this firing clears the interval. */
  predicate ClearsInterval(r: Readout)
  {
    r.counter + 1 == SnapAt
  }

  /** The readout together with whether its interval is still scheduled. */
  datatype Ticker = Ticker(readout: Readout, live: bool)

  /** One firing: a cleared interval does not fire again. */
  function Step(t: Ticker): Ticker
  {
    if t.live then Ticker(Tick(t.readout), !ClearsInterval(t.readout)) else t
  }

  /** k firings of the interval. */
  function Run(t: Ticker, k: nat): Ticker
  {
    if k == 0 then t else Step(Run(t, k - 1))
  }

  /** From an armed ticker with counter 0: after k < 35 firings the counter and the display are k
      and the percent sign shows; from the 35th firing on the display is 62, the interval is
      cleared and nothing changes any more. */
  lemma {:induction false} RunFromArmed(start: Readout, k: nat)
    requires start.counter == 0
    ensures k < SnapAt ==>
      Run(Ticker(start, true), k) == Ticker(Readout(k, if k == 0 then start.display else k, start.percentShown || k > 0), true)
    ensures SnapAt <= k ==> Run(Ticker(start, true), k) == Ticker(Readout(FixedScore, FixedScore, true), false)
  {
    if k > 0 {
      RunFromArmed(start, k - 1);
    }
  }

  /** Once clearInterval has run, no number of further firings changes anything. */
  lemma {:induction false} ClearedIntervalNeverFires(t: Ticker, k: nat)
    requires !t.live
    ensures Run(t, k) == t
  {
    if k > 0 {
      ClearedIntervalNeverFires(t, k - 1);
    }
  }

  /** Every value the score number shows during the animation is its starting text, one of 1..34,
      or 62; 35 is never shown, and no input but the number of firings decides which. */
  lemma DisplayedValues(start: Readout, k: nat)
    requires start.counter == 0
    ensures var d := Run(Ticker(start, true), k).readout.display;
      d == start.display || 1 <= d < SnapAt || d == FixedScore
    ensures Run(Ticker(start, true), k).readout.display != SnapAt || start.display == SnapAt
    ensures Run(Ticker(start, true), k).live <==> k < SnapAt
    ensures 0 < k ==> Run(Ticker(start, true), k).readout.percentShown
  {
    RunFromArmed(start, k);
  }
}
