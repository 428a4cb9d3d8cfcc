/** Instants that keep their distance, and how many of them fit in a span. */
module Spacing {

  ghost predicate Spaced(times: seq<real>, gap: real) {
    forall i, j :: 0 <= i < j < |times| ==> times[i] + gap <= times[j]
  }

  /** So many gaps, end to end. */
  function Gaps(n: nat, gap: real): real {
    n as real * gap
  }

  lemma OneMoreGap(n: nat, gap: real)
    ensures Gaps(n + 1, gap) == Gaps(n, gap) + gap && Gaps(0, gap) == 0.0
  {
  }

  lemma {:induction false} SpacedApart(times: seq<real>, gap: real, i: nat, j: nat)
    requires Spaced(times, gap)
    requires i <= j < |times|
    ensures times[i] + Gaps(j - i, gap) <= times[j]
    decreases j - i
  {
    hide Gaps;
    if i < j {
      SpacedApart(times, gap, i + 1, j);
      assert times[i] + gap <= times[i + 1];
      OneMoreGap(j - (i + 1), gap);
    } else {
      OneMoreGap(0, gap);
    }
  }

  /** A span from one instant to another holds at most one more than the whole gaps in it. */
  ghost predicate AtMostOnePer(times: seq<real>, gap: real)
    requires 0.0 < gap
  {
    forall i, j :: 0 <= i <= j < |times| ==> j - i + 1 <= ((times[j] - times[i]) / gap).Floor + 1
  }

  lemma SpacedIsSparse(times: seq<real>, gap: real)
    requires 0.0 < gap
    requires Spaced(times, gap)
    ensures AtMostOnePer(times, gap)
  {
    hide Gaps;
    forall i, j | 0 <= i <= j < |times|
      ensures j - i + 1 <= ((times[j] - times[i]) / gap).Floor + 1
    {
      SpacedApart(times, gap, i, j);
      Fit(j - i, times[j] - times[i], gap);
    }
  }

  lemma Fit(n: nat, span: real, gap: real)
    requires 0.0 < gap && Gaps(n, gap) <= span
    ensures n <= (span / gap).Floor
  {
    DividedBack(span, gap);
    Cancel(n as real, span / gap, gap);
  }

  lemma DividedBack(x: real, gap: real)
    requires 0.0 < gap
    ensures (x / gap) * gap == x
  {
  }

  lemma Cancel(a: real, b: real, gap: real)
    requires 0.0 < gap
    requires a * gap <= b * gap
    ensures a <= b
  {
    assert (b - a) * gap >= 0.0;
  }
}
