/** Two rate limiters over sliding windows: the command limiter, which remembers every attempt
    (checkRateLimit in commandHandler.ts), and the log-storm suppressor, which remembers only what it
    let through (StormSuppressor in logging.py). */
module RateWindows {
  import opened Windows

  const RATE_LIMIT_WINDOW := 60000.0
  const MAX_COMMANDS_PER_WINDOW := 10

  // ----- the command limiter, for one user's attempts

  /** The list kept after the attempts at times ts. */
  function Attempts(ts: seq<real>): (kept: seq<real>)
    ensures ts != [] ==> kept != [] && kept[|kept| - 1] == ts[|ts| - 1]
  {
    if ts == [] then []
    else
      var now := ts[|ts| - 1];
      Young(Attempts(ts[..|ts| - 1]), now, RATE_LIMIT_WINDOW) + [now]
  }

  lemma AttemptsOneMore(ts: seq<real>, now: real)
    ensures Attempts(ts + [now]) == Young(Attempts(ts), now, RATE_LIMIT_WINDOW) + [now]
  {
    assert (ts + [now])[..|ts|] == ts;
  }

  predicate Allowed(ts: seq<real>) {
    |Attempts(ts)| <= MAX_COMMANDS_PER_WINDOW
  }

  /** The times of the attempts that were let through. */
  function AllowedTimes(ts: seq<real>): seq<real> {
    if ts == [] then []
    else
      var before := AllowedTimes(ts[..|ts| - 1]);
      if Allowed(ts) then before + [ts[|ts| - 1]] else before
  }

  /** The kept list is exactly the attempts, accepted or not, of the last window. */
  lemma {:induction false} AttemptsExact(ts: seq<real>)
    requires ts != [] && Monotone(ts)
    ensures Attempts(ts) == Young(ts, ts[|ts| - 1], RATE_LIMIT_WINDOW)
    ensures Attempts(ts) == Young(ts[..|ts| - 1], ts[|ts| - 1], RATE_LIMIT_WINDOW) + [ts[|ts| - 1]]
  {
    var init, now := ts[..|ts| - 1], ts[|ts| - 1];
    if init != [] {
      AttemptsExact(init);
      PruneTwice(init, init[|init| - 1], now, RATE_LIMIT_WINDOW);
    }
  }

  lemma {:induction false} AllowedAmongAttempts(ts: seq<real>, now: real)
    ensures |Young(AllowedTimes(ts), now, RATE_LIMIT_WINDOW)| <= |Young(ts, now, RATE_LIMIT_WINDOW)|
  {
    if ts != [] {
      var init, last := ts[..|ts| - 1], ts[|ts| - 1];
      AllowedAmongAttempts(init, now);
      YoungOneMore(AllowedTimes(init), last, now, RATE_LIMIT_WINDOW);
    }
  }

  /** No window of 60 seconds, wherever it starts, contains more than ten accepted commands. */
  lemma {:induction false} LimiterBound(ts: seq<real>, from: real)
    requires Monotone(ts)
    ensures CountFrom(AllowedTimes(ts), from, 60000.0) <= 10
  {
    if ts != [] {
      var init, now := ts[..|ts| - 1], ts[|ts| - 1];
      LimiterBound(init, from);
      if Allowed(ts) && from <= now < from + RATE_LIMIT_WINDOW {
        AttemptsExact(ts);
        AllowedAmongAttempts(init, now);
        WindowWithinYoung(AllowedTimes(init), from, now, RATE_LIMIT_WINDOW);
      }
      CountOneMore(AllowedTimes(init), now, from, RATE_LIMIT_WINDOW);
    }
  }

  // ----- the suppressor, for one key

  /** The list kept after the requests at times ts. */
  function Logged(ts: seq<real>, window: real, max: int): seq<real> {
    if ts == [] then []
    else
      var now := ts[|ts| - 1];
      var kept := Young(Logged(ts[..|ts| - 1], window, max), now, window);
      if |kept| >= max then kept else kept + [now]
  }

  lemma LoggedOneMore(ts: seq<real>, now: real, window: real, max: int)
    ensures var kept := Young(Logged(ts, window, max), now, window);
      && Logged(ts + [now], window, max) == (if |kept| >= max then kept else kept + [now])
      && (ShouldLog(ts + [now], window, max) <==> |kept| < max)
  {
    assert (ts + [now])[..|ts|] == ts;
  }

  /** Whether the last of the requests is let through. */
  predicate ShouldLog(ts: seq<real>, window: real, max: int) {
    ts != [] && |Young(Logged(ts[..|ts| - 1], window, max), ts[|ts| - 1], window)| < max
  }

  function LoggedTimes(ts: seq<real>, window: real, max: int): seq<real> {
    if ts == [] then []
    else
      var before := LoggedTimes(ts[..|ts| - 1], window, max);
      if ShouldLog(ts, window, max) then before + [ts[|ts| - 1]] else before
  }

  /** The kept list is exactly what was let through in the last window. */
  lemma {:induction false} LoggedExact(ts: seq<real>, window: real, max: int)
    requires ts != [] && Monotone(ts) && window > 0.0
    ensures Logged(ts, window, max) == Young(LoggedTimes(ts, window, max), ts[|ts| - 1], window)
    ensures Young(Logged(ts[..|ts| - 1], window, max), ts[|ts| - 1], window)
         == Young(LoggedTimes(ts[..|ts| - 1], window, max), ts[|ts| - 1], window)
  {
    var init, now := ts[..|ts| - 1], ts[|ts| - 1];
    if init != [] {
      LoggedExact(init, window, max);
      PruneTwice(LoggedTimes(init, window, max), init[|init| - 1], now, window);
    }
    YoungOneMore(LoggedTimes(init, window, max), now, now, window);
  }

  /** No window, wherever it starts, contains more than max logged messages. */
  lemma {:induction false} SuppressorBound(ts: seq<real>, window: real, max: nat, from: real)
    requires Monotone(ts) && window > 0.0
    ensures CountFrom(LoggedTimes(ts, window, max), from, window) <= max
  {
    if ts != [] {
      var init, now := ts[..|ts| - 1], ts[|ts| - 1];
      SuppressorBound(init, window, max, from);
      var before := LoggedTimes(init, window, max);
      if ShouldLog(ts, window, max) {
        LoggedExact(ts, window, max);
        CountOneMore(before, now, from, window);
        if from <= now < from + window {
          WindowWithinYoung(before, from, now, window);
        }
      }
    }
  }

  /** A request is let through if and only if fewer than max of the last window were. */
  lemma SuppressedIffFull(ts: seq<real>, window: real, max: int)
    requires ts != [] && Monotone(ts) && window > 0.0
    ensures ShouldLog(ts, window, max)
      <==> |Young(LoggedTimes(ts[..|ts| - 1], window, max), ts[|ts| - 1], window)| < max
  {
    LoggedExact(ts, window, max);
  }

  // ----- the two side by side

  lemma {:induction false} LoggedAmongRequests(ts: seq<real>, max: int, now: real)
    ensures |Young(LoggedTimes(ts, RATE_LIMIT_WINDOW, max), now, RATE_LIMIT_WINDOW)|
      <= |Young(ts, now, RATE_LIMIT_WINDOW)|
  {
    if ts != [] {
      var init, last := ts[..|ts| - 1], ts[|ts| - 1];
      LoggedAmongRequests(init, max, now);
      YoungOneMore(LoggedTimes(init, RATE_LIMIT_WINDOW, max), last, now, RATE_LIMIT_WINDOW);
    }
  }

  /** On the same trace and with equal limits, whatever the limiter accepts the suppressor accepts. */
  lemma LimiterIsStricter(ts: seq<real>)
    requires ts != [] && Monotone(ts) && Allowed(ts)
    ensures ShouldLog(ts, RATE_LIMIT_WINDOW, MAX_COMMANDS_PER_WINDOW)
  {
    AttemptsExact(ts);
    LoggedExact(ts, RATE_LIMIT_WINDOW, MAX_COMMANDS_PER_WINDOW);
    LoggedAmongRequests(ts[..|ts| - 1], MAX_COMMANDS_PER_WINDOW, ts[|ts| - 1]);
  }

  /** Rejected attempts count against the limiter's user: after ten attempts within a window, accepted or
      not, the next one is rejected, so a user who keeps trying stays locked out. */
  lemma LockedOutIffCrowded(ts: seq<real>)
    requires ts != [] && Monotone(ts)
    ensures Allowed(ts) <==> |Young(ts[..|ts| - 1], ts[|ts| - 1], 60000.0)| < 10
  {
    AttemptsExact(ts);
  }

  // ----- the objects

  function HistoryOf<K>(history: map<K, seq<real>>, key: K): seq<real> {
    if key in history then history[key] else []
  }

  class CommandLimiter {
    var userCommandTimestamps: map<int, seq<real>>
    ghost var history: map<int, seq<real>>  // every attempt of every user

    ghost predicate Valid()
      reads this
    {
      && userCommandTimestamps.Keys == history.Keys
      && forall u :: u in history ==> history[u] != [] && userCommandTimestamps[u] == Attempts(history[u])
    }

    constructor ()
      ensures Valid() && history == map[]
    {
      userCommandTimestamps, history := map[], map[];
    }

    method CheckRateLimit(userId: int, now: real) returns (allowed: bool)
      requires Valid()
      modifies this
      ensures Valid()
      ensures history == old(history)[userId := HistoryOf(old(history), userId) + [now]]
      ensures allowed == Allowed(history[userId])
    {
      AttemptsOneMore(HistoryOf(history, userId), now);
      history := history[userId := HistoryOf(history, userId) + [now]];
      if userId !in userCommandTimestamps {
        userCommandTimestamps := userCommandTimestamps[userId := [now]];
        return true;
      }
      var validTimestamps := Young(userCommandTimestamps[userId], now, RATE_LIMIT_WINDOW);
      validTimestamps := validTimestamps + [now];
      userCommandTimestamps := userCommandTimestamps[userId := validTimestamps];
      return |validTimestamps| <= MAX_COMMANDS_PER_WINDOW;
    }
  }

  class StormSuppressor {
    const window: real
    const max: int
    var counts: map<string, seq<real>>
    ghost var history: map<string, seq<real>>  // every request for every key

    ghost predicate Valid()
      reads this
    {
      && counts.Keys == history.Keys
      && forall k :: k in history ==> counts[k] == Logged(history[k], window, max)
    }

    constructor (window: real, maxPerWindow: int)
      ensures Valid() && history == map[] && this.window == window && this.max == maxPerWindow
    {
      this.window, this.max := window, maxPerWindow;
      counts, history := map[], map[];
    }

    method ShouldLogNow(key: string, now: real) returns (allowed: bool)
      requires Valid()
      modifies this
      ensures Valid()
      ensures history == old(history)[key := HistoryOf(old(history), key) + [now]]
      ensures allowed == ShouldLog(history[key], window, max)
    {
      ghost var before := HistoryOf(history, key);
      history := history[key := before + [now]];
      var kept;
      kept, allowed := PruneAndLog(before, if key in counts then counts[key] else [], now);
      counts := counts[key := kept];
    }

    /** The list for one key after a request: pruned, and with the request if it is let through. */
    method PruneAndLog(ghost requests: seq<real>, times: seq<real>, now: real) returns (kept: seq<real>, allowed: bool)
      requires times == Logged(requests, window, max)
      ensures kept == Logged(requests + [now], window, max)
      ensures allowed == ShouldLog(requests + [now], window, max)
    {
      LoggedOneMore(requests, now, window, max);
      kept := Young(times, now, window);
      if |kept| >= max {
        return kept, false;
      }
      return kept + [now], true;
    }
  }
}
