/** Sliding windows over timestamps: what pruning a list at every call keeps of the full history. */
module Windows {

  /** The timestamps younger than window at time now, in order. */
  function Young(ts: seq<real>, now: real, window: real): (young: seq<real>)
    ensures |young| <= |ts|
  {
    if ts == [] then []
    else
      var before, last := Young(ts[..|ts| - 1], now, window), ts[|ts| - 1];
      if now - last < window then before + [last] else before
  }

  /** Pruning drops exactly the timestamps that have left the window. */
  lemma {:induction false} YoungExact(ts: seq<real>, now: real, window: real, t: real)
    ensures t in Young(ts, now, window) <==> t in ts && now - t < window
  {
    if ts != [] {
      YoungExact(ts[..|ts| - 1], now, window, t);
    }
  }

  lemma YoungOneMore(ts: seq<real>, t: real, now: real, window: real)
    ensures Young(ts + [t], now, window) ==
      if now - t < window then Young(ts, now, window) + [t] else Young(ts, now, window)
  {
    assert (ts + [t])[..|ts|] == ts;
  }

  /** Pruning early loses nothing that a later pruning would keep. */
  lemma {:induction false} PruneTwice(ts: seq<real>, earlier: real, now: real, window: real)
    requires earlier <= now
    ensures Young(Young(ts, earlier, window), now, window) == Young(ts, now, window)
  {
    if ts != [] {
      var init, last := ts[..|ts| - 1], ts[|ts| - 1];
      PruneTwice(init, earlier, now, window);
      if earlier - last < window {
        YoungOneMore(Young(init, earlier, window), last, now, window);
      }
    }
  }

  /** How many timestamps lie in the window that starts at from. */
  function CountFrom(ts: seq<real>, from: real, window: real): nat {
    if ts == [] then 0
    else
      var last := ts[|ts| - 1];
      CountFrom(ts[..|ts| - 1], from, window) + if from <= last < from + window then 1 else 0
  }

  lemma CountOneMore(ts: seq<real>, t: real, from: real, window: real)
    ensures CountFrom(ts + [t], from, window) == CountFrom(ts, from, window) +
      if from <= t < from + window then 1 else 0
  {
    assert (ts + [t])[..|ts|] == ts;
  }

  /** A window that contains now holds no more than what is young now. */
  lemma {:induction false} WindowWithinYoung(ts: seq<real>, from: real, now: real, window: real)
    requires now < from + window
    ensures CountFrom(ts, from, window) <= |Young(ts, now, window)|
  {
    if ts != [] {
      WindowWithinYoung(ts[..|ts| - 1], from, now, window);
    }
  }

  /** The clock never runs backwards over the timestamps. */
  ghost predicate Monotone(ts: seq<real>) {
    forall i, j :: 0 <= i < j < |ts| ==> ts[i] <= ts[j]
  }
}
