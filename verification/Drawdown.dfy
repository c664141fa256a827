/** The one-pass maximum drawdown of a strategy's closed PnLs (strategy_summary in analytics.py). */
module Drawdown {
  import opened Options

  /** Cumulative PnL after the first n outcomes. */
  function Equity(pnls: seq<real>, n: nat): real
    requires n <= |pnls|
  {
    if n == 0 then 0.0 else Equity(pnls, n - 1) + pnls[n - 1]
  }

  /** The fall from the equity after i outcomes to the equity after j outcomes. */
  function Fall(pnls: seq<real>, i: nat, j: nat): real
    requires i <= |pnls| && j <= |pnls|
  {
    Equity(pnls, i) - Equity(pnls, j)
  }

  /** The defining property: the deepest fall from one outcome to a later, or the same, one. */
  ghost predicate IsMaxDrawdown(pnls: seq<real>, d: real) {
    if pnls == [] then d == 0.0
    else
      && (exists i: nat, j: nat :: 1 <= i <= j <= |pnls| && Fall(pnls, i, j) == d)
      && (forall i: nat, j: nat :: 1 <= i <= j <= |pnls| ==> Fall(pnls, i, j) <= d)
  }

  /** The total of the losses, as a non-negative number. */
  function Losses(pnls: seq<real>, from: nat, until: nat): real
    requires until <= |pnls|
  {
    if until <= from then 0.0
    else Losses(pnls, from, until - 1) + if pnls[until - 1] < 0.0 then -pnls[until - 1] else 0.0
  }

  lemma {:induction false} LossesGrow(pnls: seq<real>, from: nat, until: nat)
    requires until <= |pnls|
    ensures 0.0 <= Losses(pnls, from, until) <= Losses(pnls, 0, until)
    decreases until
  {
    if until > 0 {
      LossesGrow(pnls, from, until - 1);
      LossesGrow(pnls, 0, until - 1);
    }
  }

  lemma {:induction false} FallWithinLosses(pnls: seq<real>, i: nat, j: nat)
    requires i <= j <= |pnls|
    ensures Fall(pnls, i, j) <= Losses(pnls, i, j)
    decreases j
  {
    if i < j {
      FallWithinLosses(pnls, i, j - 1);
    }
  }

  lemma {:induction false} LossesMonotone(pnls: seq<real>, a: nat, b: nat)
    requires a <= b <= |pnls|
    ensures Losses(pnls, 0, a) <= Losses(pnls, 0, b)
    decreases b
  {
    if a < b {
      LossesMonotone(pnls, a, b - 1);
    }
  }

  /** A maximum drawdown is never negative and never more than all losses together; there is only one. */
  lemma MaxDrawdownBounds(pnls: seq<real>, d: real, d': real)
    requires IsMaxDrawdown(pnls, d) && IsMaxDrawdown(pnls, d')
    ensures d == d' && 0.0 <= d <= Losses(pnls, 0, |pnls|)
  {
    if pnls != [] {
      assert Fall(pnls, 1, 1) == 0.0;
      var i: nat, j: nat :| 1 <= i <= j <= |pnls| && Fall(pnls, i, j) == d;
      FallWithinLosses(pnls, i, j);
      LossesGrow(pnls, i, j);
      LossesMonotone(pnls, j, |pnls|);
    }
  }

  lemma {:induction false} EquityShift(pnls: seq<real>, x: real, n: nat)
    requires 1 <= n <= |pnls|
    ensures Equity(pnls[0 := x], n) == Equity(pnls, n) - pnls[0] + x
    decreases n
  {
    if n > 1 {
      EquityShift(pnls, x, n - 1);
    } else {
      assert Equity(pnls[0 := x], 0) == Equity(pnls, 0);
    }
  }

  /** The first outcome does not count at all, since it is already the first peak: whatever it is, even the
      greatest loss, the maximum drawdown is the same. */
  lemma FirstOutcomeDoesNotCount(pnls: seq<real>, x: real, d: real)
    requires pnls != [] && IsMaxDrawdown(pnls, d)
    ensures IsMaxDrawdown(pnls[0 := x], d)
  {
    var other := pnls[0 := x];
    forall i: nat, j: nat | 1 <= i <= j <= |pnls| ensures Fall(other, i, j) == Fall(pnls, i, j) {
      EquityShift(pnls, x, i);
      EquityShift(pnls, x, j);
    }
    var i: nat, j: nat :| 1 <= i <= j <= |pnls| && Fall(pnls, i, j) == d;
    assert Fall(other, i, j) == d;
  }

  /** The deepest fall when the starting equity, 0, counts as a peak too. */
  ghost predicate IsFullDrawdown(pnls: seq<real>, d: real) {
    && (exists i: nat, j: nat :: i <= j <= |pnls| && Fall(pnls, i, j) == d)
    && (forall i: nat, j: nat :: i <= j <= |pnls| ==> Fall(pnls, i, j) <= d)
  }

  /** No equity is below the level. */
  ghost predicate StaysAbove(pnls: seq<real>, level: real) {
    forall j: nat :: j <= |pnls| ==> Equity(pnls, j) >= level
  }

  /** For all outcomes: the value also covers the falls from the starting equity if and only if no later equity
      is below minus that value; which is so when the first outcome is no loss. */
  lemma FullDrawdownIff(pnls: seq<real>, d: real)
    requires IsMaxDrawdown(pnls, d)
    ensures IsFullDrawdown(pnls, d) <==> StaysAbove(pnls, -d)
    ensures pnls != [] && pnls[0] >= 0.0 ==> IsFullDrawdown(pnls, d)
  {
    MaxDrawdownBounds(pnls, d, d);
    if pnls == [] {
      assert Fall(pnls, 0, 0) == 0.0;
      assert forall i: nat, j: nat :: i <= j <= |pnls| ==> Fall(pnls, i, j) == 0.0;
      assert Equity(pnls, 0) == 0.0;
    } else {
      assert Equity(pnls, 1) == Equity(pnls, 0) + pnls[0];
      forall k: nat | k <= |pnls| && pnls[0] >= 0.0 ensures Equity(pnls, k) >= -d {
        if k > 0 {
          assert Fall(pnls, 1, k) <= d;
        }
      }
      FromTheStart(pnls, d);
    }
  }

  lemma FromTheStart(pnls: seq<real>, d: real)
    requires pnls != [] && IsMaxDrawdown(pnls, d)
    ensures IsFullDrawdown(pnls, d) <==> StaysAbove(pnls, -d)
  {
    if IsFullDrawdown(pnls, d) {
      forall j: nat | j <= |pnls| ensures Equity(pnls, j) >= -d {
        assert Fall(pnls, 0, j) <= d;
      }
    }
    if StaysAbove(pnls, -d) {
      var i: nat, j: nat :| 1 <= i <= j <= |pnls| && Fall(pnls, i, j) == d;
      assert i <= j <= |pnls|;
      forall a: nat, b: nat | a <= b <= |pnls| ensures Fall(pnls, a, b) <= d {
        if a == 0 {
          assert Equity(pnls, b) >= -d;
        }
      }
    }
  }

  /** d is the fall to outcome j from the highest equity up to it. */
  ghost predicate IsPeakFall(pnls: seq<real>, j: nat, d: real)
    requires 1 <= j <= |pnls|
  {
    && (exists i: nat :: 1 <= i <= j && Fall(pnls, i, j) == d)
    && (forall i: nat :: 1 <= i <= j ==> Fall(pnls, i, j) <= d)
  }

  lemma DeepestPeakFall(pnls: seq<real>, drawdowns: seq<real>, d: real)
    requires |drawdowns| == |pnls| > 0
    requires forall j :: 0 <= j < |drawdowns| ==> IsPeakFall(pnls, j + 1, drawdowns[j]) && drawdowns[j] <= d
    requires exists j :: 0 <= j < |drawdowns| && drawdowns[j] == d
    ensures IsMaxDrawdown(pnls, d)
  {
    forall i: nat, j: nat | 1 <= i <= j <= |pnls| ensures Fall(pnls, i, j) <= d {
      assert IsPeakFall(pnls, j - 1 + 1, drawdowns[j - 1]);
    }
    var j :| 0 <= j < |drawdowns| && drawdowns[j] == d;
    assert IsPeakFall(pnls, j + 1, drawdowns[j]);
  }

  method MaxDrawdown(pnls: seq<real>) returns (maxDrawdown: real)
    ensures IsMaxDrawdown(pnls, maxDrawdown)
  {
    var drawdowns: seq<real> := [];
    var peak: Option<real>, cumulative := None, 0.0;  // None is the source's minus infinity
    ghost var peakAt := 0;
    for k := 0 to |pnls|
      invariant cumulative == Equity(pnls, k) && |drawdowns| == k
      invariant k == 0 <==> peak.None?
      invariant k > 0 ==> 1 <= peakAt <= k && peak == Some(Equity(pnls, peakAt))
      invariant forall i: nat :: 1 <= i <= k ==> Equity(pnls, i) <= Equity(pnls, peakAt)
      invariant forall j :: 0 <= j < k ==> IsPeakFall(pnls, j + 1, drawdowns[j])
    {
      cumulative := cumulative + pnls[k];
      if peak.None? || cumulative > peak.value {
        peak, peakAt := Some(cumulative), k + 1;
      }
      var drawdown := peak.value - cumulative;
      assert IsPeakFall(pnls, k + 1, drawdown) by {
        assert Fall(pnls, peakAt, k + 1) == drawdown;
        assert forall i: nat :: 1 <= i <= k + 1 ==> Equity(pnls, i) <= Equity(pnls, peakAt);
      }
      drawdowns := drawdowns + [drawdown];
    }
    maxDrawdown := Maximum(drawdowns);
    if pnls != [] {
      DeepestPeakFall(pnls, drawdowns, maxDrawdown);
    }
  }

  /** max, or 0 for the empty list. */
  function Maximum(values: seq<real>): (m: real)
    ensures forall i :: 0 <= i < |values| ==> values[i] <= m
    ensures if values == [] then m == 0.0 else exists i: nat :: i < |values| && values[i] == m
  {
    if |values| == 0 then 0.0
    else if |values| == 1 then values[0]
    else
      var n := |values| - 1;
      var m := Maximum(values[..n]);
      assert forall i :: 0 <= i < n ==> values[..n][i] == values[i];
      if values[n] > m then values[n] else m
  }
}
