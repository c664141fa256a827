/** Direction reversals of the mode and chains of escalations: the definitions that the simulator's
    report (mode_simulator.py), the live evaluator's metrics (main.py) and the cockpit (cockpit.py)
    all count, each in its own way. */
module ModeFlips {
  import opened Options
  import opened Modes

  datatype Transition = Transition(index: nat, simTime: real, fromMode: SystemMode, toMode: SystemMode)

  /** How far a transition goes along _MODE_ORDER: positive for an escalation. */
  function Dir(t: Transition): int {
    Index(t.toMode) - Index(t.fromMode)
  }

  function Dirs(ts: seq<Transition>): (ds: seq<int>)
    ensures |ds| == |ts|
    ensures forall i :: 0 <= i < |ts| ==> ds[i] == Dir(ts[i])
  {
    seq(|ts|, i requires 0 <= i < |ts| => Dir(ts[i]))
  }

  predicate Opposite(a: int, b: int) {
    (a > 0 && b < 0) || (a < 0 && b > 0)
  }

  lemma ProductSign(a: int, b: int)
    ensures a * b < 0 <==> Opposite(a, b)
  {
    if a > 0 {
      if b < 0 { assert a * -b > 0; }
    } else if a < 0 {
      if b > 0 { assert -a * b > 0; } else { assert -a * -b >= 0; }
    }
  }

  /** Adjacent directions of opposite sign. */
  function SignFlips(ds: seq<int>): nat {
    if |ds| < 2 then 0
    else SignFlips(ds[..|ds| - 1]) + if Opposite(ds[|ds| - 2], ds[|ds| - 1]) then 1 else 0
  }

  /** Escalations since the last move that was not one. */
  function CurrentChain(ds: seq<int>): nat {
    if ds == [] || ds[|ds| - 1] <= 0 then 0 else 1 + CurrentChain(ds[..|ds| - 1])
  }

  function Max(a: nat, b: nat): nat {
    if a < b then b else a
  }

  function MaxChain(ds: seq<int>): nat {
    if ds == [] then 0 else Max(MaxChain(ds[..|ds| - 1]), CurrentChain(ds))
  }

  ghost predicate AllUp(ds: seq<int>, i: nat, j: nat)
    requires i <= j <= |ds|
  {
    forall k :: i <= k < j ==> ds[k] > 0
  }

  lemma {:induction false} CurrentChainIsLongestSuffix(ds: seq<int>)
    ensures CurrentChain(ds) <= |ds| && AllUp(ds, |ds| - CurrentChain(ds), |ds|)
    ensures forall i: nat :: i <= |ds| && AllUp(ds, i, |ds|) ==> |ds| - i <= CurrentChain(ds)
  {
    if ds != [] && ds[|ds| - 1] > 0 {
      var init := ds[..|ds| - 1];
      CurrentChainIsLongestSuffix(init);
      forall i: nat | i < |ds| && AllUp(ds, i, |ds|) ensures |ds| - i <= CurrentChain(ds) {
        assert AllUp(init, i, |init|);
      }
    }
  }

  /** MaxChain is the length of the longest block of consecutive escalations. */
  lemma {:induction false} MaxChainIsLongestBlock(ds: seq<int>)
    ensures exists i: nat, j: nat :: i <= j <= |ds| && AllUp(ds, i, j) && j - i == MaxChain(ds)
    ensures forall i: nat, j: nat :: i <= j <= |ds| && AllUp(ds, i, j) ==> j - i <= MaxChain(ds)
  {
    if ds == [] {
      assert AllUp(ds, 0, 0);
    } else {
      var init := ds[..|ds| - 1];
      MaxChainIsLongestBlock(init);
      CurrentChainIsLongestSuffix(ds);
      if MaxChain(ds) == MaxChain(init) {
        var i: nat, j: nat :| i <= j <= |init| && AllUp(init, i, j) && j - i == MaxChain(init);
        assert AllUp(ds, i, j);
      } else {
        assert AllUp(ds, |ds| - MaxChain(ds), |ds|);
      }
      forall i: nat, j: nat | i <= j <= |ds| && AllUp(ds, i, j) ensures j - i <= MaxChain(ds) {
        if j < |ds| {
          assert AllUp(init, i, j);
        }
      }
    }
  }

  lemma {:induction false} FlipsNeedPairs(ds: seq<int>)
    ensures ds != [] ==> SignFlips(ds) < |ds|
  {
    if |ds| >= 2 {
      FlipsNeedPairs(ds[..|ds| - 1]);
    }
  }

  // ----- the live evaluator's counters

  /** The evaluator loop's memory: the previous mode, the chain depth and the flips counter. */
  datatype Counters = Counters(prev: Option<SystemMode>, chainDepth: nat, flips: nat)

  function Count(c: Counters, current: SystemMode): Counters {
    if c.prev.None? || c.prev.value == current then c.(prev := Some(current))
    else if Index(current) > Index(c.prev.value) then Counters(Some(current), c.chainDepth + 1, c.flips)
    else Counters(Some(current), 0, c.flips + if c.chainDepth >= 1 then 1 else 0)
  }

  class Evaluator {
    var prevMode: Option<SystemMode>
    var chainDepth: nat
    var modeFlipsTotal: nat

    ghost function View(): Counters
      reads this
    {
      Counters(prevMode, chainDepth, modeFlipsTotal)
    }

    constructor ()
      ensures View() == Counters(None, 0, 0)
    {
      prevMode, chainDepth, modeFlipsTotal := None, 0, 0;
    }

    /** The end of one round of the loop, current being what evaluate returned. */
    method Observe(current: SystemMode)
      modifies this
      ensures View() == Count(old(View()), current)
    {
      if prevMode.Some? && prevMode.value != current {
        var prevIdx, currIdx := Index(prevMode.value), Index(current);
        if currIdx > prevIdx {
          chainDepth := chainDepth + 1;
        } else if currIdx < prevIdx {
          if chainDepth >= 1 {
            modeFlipsTotal := modeFlipsTotal + 1;
          }
          chainDepth := 0;
        }
      }
      prevMode := Some(current);
    }
  }

  /** The counters after observing the modes in order. */
  function Observed(modes: seq<SystemMode>): Counters {
    if modes == [] then Counters(None, 0, 0)
    else Count(Observed(modes[..|modes| - 1]), modes[|modes| - 1])
  }

  /** The greatest chain depth shown at any time. */
  function MaxDepth(modes: seq<SystemMode>): nat {
    if modes == [] then 0 else Max(MaxDepth(modes[..|modes| - 1]), Observed(modes).chainDepth)
  }

  /** The directions of the mode changes in a sequence of observed modes. */
  function ChangeDirs(modes: seq<SystemMode>): (ds: seq<int>)
    ensures forall i :: 0 <= i < |ds| ==> ds[i] != 0
  {
    if |modes| < 2 then []
    else
      var init, a, b := ChangeDirs(modes[..|modes| - 1]), modes[|modes| - 2], modes[|modes| - 1];
      if a == b then init else (assert Index(a) != Index(b); init + [Index(b) - Index(a)])
  }

  function Up(ds: seq<int>, i: int): nat
    requires ds != [] ==> 0 <= i < |ds|
  {
    if ds != [] && ds[i] > 0 then 1 else 0
  }

  lemma OneMoreDir(ds: seq<int>, d: int)
    ensures SignFlips(ds + [d]) == SignFlips(ds) + if ds != [] && Opposite(ds[|ds| - 1], d) then 1 else 0
    ensures CurrentChain(ds + [d]) == if d > 0 then CurrentChain(ds) + 1 else 0
    ensures MaxChain(ds + [d]) == Max(MaxChain(ds), CurrentChain(ds + [d]))
    ensures CurrentChain(ds) >= 1 <==> ds != [] && ds[|ds| - 1] > 0
  {
    assert (ds + [d])[..|ds|] == ds;
  }

  /** The online counters, and the greatest depth so far, against the directions of the changes. */
  ghost predicate Meets(ds: seq<int>, c: Counters, depth: nat) {
    && SignFlips(ds) + Up(ds, 0) == 2 * c.flips + Up(ds, |ds| - 1)
    && c.chainDepth == CurrentChain(ds)
    && depth == MaxChain(ds)
  }

  lemma MeetsOneMore(ds: seq<int>, c: Counters, depth: nat, current: SystemMode)
    requires Meets(ds, c, depth) && c.prev.Some? && c.prev.value != current
    requires ds != [] ==> ds[|ds| - 1] != 0
    ensures var c' := Count(c, current);
      Meets(ds + [Index(current) - Index(c.prev.value)], c', Max(depth, c'.chainDepth))
  {
    OneMoreDir(ds, Index(current) - Index(c.prev.value));
  }

  /** The online flip counter against the offline one, exactly: the offline count is twice the online
      one, corrected by whether the first and the last change are escalations. The chain depth is the
      current chain, so its maximum is the longest chain. */
  lemma {:induction false} OnlineMeetsOffline(modes: seq<SystemMode>)
    ensures Meets(ChangeDirs(modes), Observed(modes), MaxDepth(modes))
    ensures Observed(modes).prev == if modes == [] then None else Some(modes[|modes| - 1])
  {
    if modes != [] {
      var init, last := modes[..|modes| - 1], modes[|modes| - 1];
      OnlineMeetsOffline(init);
      if |modes| == 1 || init[|init| - 1] == last {
        assert ChangeDirs(modes) == ChangeDirs(init);
        MaxChainCoversCurrent(ChangeDirs(modes));
      } else {
        MeetsOneMore(ChangeDirs(init), Observed(init), MaxDepth(init), last);
      }
    }
  }

  lemma MaxChainCoversCurrent(ds: seq<int>)
    ensures CurrentChain(ds) <= MaxChain(ds)
  {
  }

  /** So the report's flip count and twice the metric never differ by more than one. */
  lemma CountersAgreeWithinOne(modes: seq<SystemMode>)
    ensures -1 <= SignFlips(ChangeDirs(modes)) - 2 * Observed(modes).flips <= 1
  {
    OnlineMeetsOffline(modes);
  }

  // ----- the cockpit

  /** The cockpit's verdict and count, over transitions read back from the database. */
  method DetectOscillation(transitions: seq<Transition>, minFlips: int) returns (detected: bool, flips: nat)
    ensures minFlips >= 2 ==> (detected <==> SignFlips(Dirs(transitions)) >= minFlips)
    ensures detected <==> |transitions| >= 3 && SignFlips(Dirs(transitions)) >= minFlips
    ensures flips == SignFlips(Dirs(transitions))
      <==> !(|transitions| == 2 && Opposite(Dir(transitions[0]), Dir(transitions[1])))
  {
    ghost var ds := Dirs(transitions);
    if |transitions| < 3 {
      FlipsNeedPairs(ds);
      return false, 0;
    }
    flips := 0;
    for i := 1 to |transitions|
      invariant flips == SignFlips(ds[..i])
    {
      var prevDir := Index(transitions[i - 1].toMode) - Index(transitions[i - 1].fromMode);
      var currDir := Index(transitions[i].toMode) - Index(transitions[i].fromMode);
      ProductSign(prevDir, currDir);
      assert ds[..i + 1][..i] == ds[..i];
      if prevDir * currDir < 0 {
        flips := flips + 1;
      }
    }
    assert ds[..|ds|] == ds;
    detected := flips >= minFlips;
  }
}
