/** In-memory sliding-window limiter per client address (apps/api/app/core/rate_limiter.py).
    The monotonic clock is a parameter of each call; times are reals. */
module RateLimiter {

  datatype Verdict = Allowed | Denied(retryAfter: int) | IndexError

  ghost predicate Ascending(log: seq<real>) {
    forall i, j :: 0 <= i < j < |log| ==> log[i] <= log[j]
  }

  ghost predicate UpTo(log: seq<real>, now: real) {
    forall i :: 0 <= i < |log| ==> log[i] <= now
  }

  /** Any `max + 1` consecutive accepted attempts span more than the window. */
  ghost predicate Spaced(log: seq<real>, max: int, window: real) {
    max >= 1 ==> forall i :: 0 <= i && i + max < |log| ==> log[i + max] - log[i] > window
  }

  /** How many attempts fall in the closed interval: the meaning of a sliding window. */
  function CountIn(log: seq<real>, lo: real, hi: real): nat {
    if log == [] then 0
    else CountIn(log[..|log| - 1], lo, hi) + (if lo <= log[|log| - 1] <= hi then 1 else 0)
  }

  /** What is left after evicting from the front. */
  function Live(log: seq<real>, cutoff: real): seq<real> {
    if log != [] && log[0] < cutoff then Live(log[1..], cutoff) else log
  }

  /** The decision over the whole history of accepted attempts. */
  function Decide(log: seq<real>, max: int, window: real, now: real): Verdict {
    var live := Live(log, now - window);
    if |live| < max then Allowed
    else if live == [] then IndexError
    else
      var wait := (window - (now - live[0])).Floor;
      Denied(if wait > 1 then wait else 1)
  }

  // ---- Counting -----------------------------------------------------------------------

  lemma {:induction false} CountConcat(a: seq<real>, b: seq<real>, lo: real, hi: real)
    ensures CountIn(a + b, lo, hi) == CountIn(a, lo, hi) + CountIn(b, lo, hi)
  {
    if b == [] {
      assert a + b == a;
    } else {
      assert (a + b)[..|a + b| - 1] == a + b[..|b| - 1];
      CountConcat(a, b[..|b| - 1], lo, hi);
    }
  }

  lemma {:induction false} CountNone(log: seq<real>, lo: real, hi: real)
    requires forall i :: 0 <= i < |log| ==> log[i] < lo
    ensures CountIn(log, lo, hi) == 0
  {
    if log != [] { CountNone(log[..|log| - 1], lo, hi); }
  }

  lemma {:induction false} CountAll(log: seq<real>, lo: real, hi: real)
    requires forall i :: 0 <= i < |log| ==> lo <= log[i] <= hi
    ensures CountIn(log, lo, hi) == |log|
  {
    if log != [] { CountAll(log[..|log| - 1], lo, hi); }
  }

  lemma {:induction false} CountAtMost(log: seq<real>, lo: real, hi: real)
    ensures CountIn(log, lo, hi) <= |log|
  {
    if log != [] { CountAtMost(log[..|log| - 1], lo, hi); }
  }

  lemma {:induction false} LiveIsSuffix(log: seq<real>, cutoff: real)
    ensures |Live(log, cutoff)| <= |log| && Live(log, cutoff) == log[|log| - |Live(log, cutoff)|..]
    ensures forall i :: 0 <= i < |log| - |Live(log, cutoff)| ==> log[i] < cutoff
    ensures Live(log, cutoff) != [] ==> Live(log, cutoff)[0] >= cutoff
  {
    if log != [] && log[0] < cutoff {
      LiveIsSuffix(log[1..], cutoff);
      var k := |log| - |Live(log, cutoff)|;
      assert log[1..][k - 1..] == log[k..];
      assert forall i :: 1 <= i < k ==> log[i] == log[1..][i - 1];
    }
  }

  /** For a log in time order, eviction leaves exactly the attempts of the closed window. */
  lemma LiveCounts(log: seq<real>, cutoff: real, now: real)
    requires Ascending(log) && UpTo(log, now)
    ensures |Live(log, cutoff)| == CountIn(log, cutoff, now)
  {
    hide Live, CountIn;
    LiveIsSuffix(log, cutoff);
    var live := Live(log, cutoff);
    var k := |log| - |live|;
    var gone := log[..k];
    assert log == gone + live;
    CountConcat(gone, live, cutoff, now);
    CountNone(gone, cutoff, now);
    forall i | 0 <= i < |live| ensures cutoff <= live[i] <= now {
      assert live[i] == log[k + i] && live[0] == log[k];
    }
    CountAll(live, cutoff, now);
  }

  /** The oldest of the last `max + 1` attempts is too old for any window that holds the newest. */
  lemma OnlyLatestCount(log: seq<real>, max: int, window: real, lo: real)
    requires 1 <= max < |log| && Ascending(log) && Spaced(log, max, window)
    requires log[|log| - 1] <= lo + window
    ensures CountIn(log, lo, lo + window) <= max
  {
    hide CountIn;
    var k := |log| - max;
    var early, recent := log[..k], log[k..];
    assert log[(k - 1) + max] - log[k - 1] > window;
    forall i | 0 <= i < |early| ensures early[i] < lo {
      assert i < k - 1 ==> log[i] <= log[k - 1];
    }
    assert log == early + recent;
    CountConcat(early, recent, lo, lo + window);
    CountNone(early, lo, lo + window);
    CountAtMost(recent, lo, lo + window);
  }

  /** No closed window of the configured length ever holds more than `max` accepted attempts. */
  lemma {:induction false} WindowNeverOverfull(log: seq<real>, max: int, window: real, lo: real)
    requires max >= 1 && Ascending(log) && Spaced(log, max, window)
    ensures CountIn(log, lo, lo + window) <= max
  {
    if |log| <= max {
      CountAtMost(log, lo, lo + window);
    } else if log[|log| - 1] <= lo + window {
      OnlyLatestCount(log, max, window, lo);
    } else {
      WindowNeverOverfull(log[..|log| - 1], max, window, lo);
    }
  }

  // ---- What a denied client should do -------------------------------------------------

  lemma AllowedWhenFirstExpires(log: seq<real>, max: int, window: real, now: real, later: real)
    requires max >= 1 && now <= later
    requires Ascending(log) && UpTo(log, now) && Spaced(log, max, window)
    requires Decide(log, max, window, now).Denied?
    ensures Live(log, now - window) != []
    ensures Decide(log, max, window, later) == Allowed <==> Live(log, now - window)[0] < later - window
  {
    LiveCounts(log, now - window, now);
    WindowNeverOverfull(log, max, window, now - window);
    var live := Live(log, now - window);
    assert |live| == max;
    LiveIsSuffix(log, now - window);
    LiveIsSuffix(log, later - window);
    var k, k' := |log| - max, |log| - |Live(log, later - window)|;
    assert live[0] == log[k];
    if live[0] < later - window {
      assert k' < |log| ==> log[k'] == Live(log, later - window)[0];
      assert k' > k;
    } else {
      assert k' <= k;
    }
  }

  /** After a denial with nothing accepted meanwhile, waiting one second more than announced
      always works; waiting exactly as announced works only if less than one second was left. */
  lemma RetryAfterIsOneSecondShort(log: seq<real>, max: int, window: real, now: real)
    requires max >= 1
    requires Ascending(log) && UpTo(log, now) && Spaced(log, max, window)
    requires Decide(log, max, window, now).Denied?
    ensures var retry := Decide(log, max, window, now).retryAfter;
            && Decide(log, max, window, now + (retry + 1) as real) == Allowed
            && Live(log, now - window) != []
            && (Decide(log, max, window, now + retry as real) == Allowed
                <==> window - (now - Live(log, now - window)[0]) < 1.0)
  {
    var retry := Decide(log, max, window, now).retryAfter;
    AllowedWhenFirstExpires(log, max, window, now, now + (retry + 1) as real);
    AllowedWhenFirstExpires(log, max, window, now, now + retry as real);
    LiveIsSuffix(log, now - window);
  }

  /** One attempt a minute: after the first, the next is refused for 60 seconds, after which it is
      refused for one second more. */
  lemma OneAttemptAMinute()
    ensures Decide([0.0], 1, 60.0, 0.0) == Denied(60)
    ensures Decide([0.0], 1, 60.0, 60.0) == Denied(1)
    ensures Decide([0.0], 1, 60.0, 61.0) == Allowed
  {
    assert Live([0.0], -60.0) == [0.0] && Live([0.0], 0.0) == [0.0] && Live([0.0], 1.0) == [];
  }

  // ---- The limiter --------------------------------------------------------------------

  /** `kept` is the accepted log of one client minus attempts that can no longer matter. */
  ghost predicate Kept(kept: seq<real>, log: seq<real>, clock: real, max: int, window: real) {
    && Ascending(log) && UpTo(log, clock) && Spaced(log, max, window)
    && |kept| <= |log| && kept == log[|log| - |kept|..]
    && forall i :: 0 <= i < |log| - |kept| ==> log[i] < clock - window
  }

  lemma {:induction false} LiveSkips(log: seq<real>, cutoff: real, k: nat)
    requires k <= |log|
    requires forall i :: 0 <= i < k ==> log[i] < cutoff
    ensures Live(log, cutoff) == Live(log[k..], cutoff)
  {
    if k > 0 {
      LiveSkips(log[1..], cutoff, k - 1);
      assert log[1..][k - 1..] == log[k..];
    } else {
      assert log[0..] == log;
    }
  }

  lemma KeptLater(log: seq<real>, clock: real, now: real, max: int, window: real, kept: seq<real>)
    requires clock <= now && Kept(kept, log, clock, max, window)
    ensures Kept(kept, log, now, max, window)
    ensures Live(kept, now - window) == Live(log, now - window)
  {
    LiveSkips(log, now - window, |log| - |kept|);
  }

  ghost predicate AllKept(history: map<string, seq<real>>, accepted: map<string, seq<real>>,
                          clock: real, max: int, window: real) {
    && history.Keys == accepted.Keys
    && forall ip :: ip in history ==> Kept(history[ip], accepted[ip], clock, max, window)
  }

  lemma AllKeptLater(history: map<string, seq<real>>, accepted: map<string, seq<real>>,
                     clock: real, now: real, max: int, window: real)
    requires clock <= now && AllKept(history, accepted, clock, max, window)
    ensures AllKept(history, accepted, now, max, window)
  {
    forall ip | ip in history ensures Kept(history[ip], accepted[ip], now, max, window) {
      KeptLater(accepted[ip], clock, now, max, window, history[ip]);
    }
  }

  lemma AllKeptUpdate(history: map<string, seq<real>>, accepted: map<string, seq<real>>, ip: string,
                      kept: seq<real>, log: seq<real>, clock: real, max: int, window: real)
    requires AllKept(history, accepted, clock, max, window) && Kept(kept, log, clock, max, window)
    ensures AllKept(history[ip := kept], accepted[ip := log], clock, max, window)
  {
  }

  /** What eviction leaves of a client's log is still enough to decide by. */
  lemma EvictedIsKept(log: seq<real>, now: real, max: int, window: real)
    requires Ascending(log) && UpTo(log, now) && Spaced(log, max, window)
    ensures Kept(Live(log, now - window), log, now, max, window)
    ensures |Live(log, now - window)| == CountIn(log, now - window, now)
    ensures |Live(log, now - window)| < max ==>
              Kept(Live(log, now - window) + [now], log + [now], now, max, window)
  {
    hide Live, CountIn, Spaced;
    LiveIsSuffix(log, now - window);
    LiveCounts(log, now - window, now);
    if |Live(log, now - window)| < max {
      SpacedSnoc(log, max, window, now);
      KeptSnoc(Live(log, now - window), log, now, max, window);
    }
  }

  lemma KeptSnoc(kept: seq<real>, log: seq<real>, now: real, max: int, window: real)
    requires Kept(kept, log, now, max, window) && Spaced(log + [now], max, window)
    ensures Kept(kept + [now], log + [now], now, max, window)
  {
    var k := |log| - |kept|;
    assert (log + [now])[k..] == log[k..] + [now];
    assert forall i :: 0 <= i < k ==> (log + [now])[i] == log[i];
  }

  class InMemoryLoginRateLimiter {
    const maxAttempts: int
    const windowSeconds: int
    var history: map<string, seq<real>>
    /** Every attempt accepted since the last reset, never evicted. */
    ghost var accepted: map<string, seq<real>>
    ghost var clock: real

    ghost predicate Valid()
      reads this
    {
      AllKept(history, accepted, clock, maxAttempts, windowSeconds as real)
    }

    ghost function Accepted(ip: string): seq<real>
      reads this
    {
      if ip in accepted then accepted[ip] else []
    }

    constructor (maxAttempts: int := 10, windowSeconds: int := 60)
      ensures Valid() && this.maxAttempts == maxAttempts && this.windowSeconds == windowSeconds
      ensures accepted == map[]
    {
      this.maxAttempts, this.windowSeconds := maxAttempts, windowSeconds;
      history, accepted, clock := map[], map[], 0.0;
    }

    /** Each verdict is the one the whole accepted history calls for, although evicted
        attempts are gone; other clients are not touched. */
    method CheckRateLimit(ip: string, now: real) returns (verdict: Verdict)
      requires Valid() && clock <= now
      modifies this
      ensures Valid() && clock == now
      ensures verdict == Decide(old(Accepted(ip)), maxAttempts, windowSeconds as real, now)
      ensures verdict == Allowed <==>
              CountIn(old(Accepted(ip)), now - windowSeconds as real, now) < maxAttempts
      ensures Accepted(ip) == old(Accepted(ip)) + (if verdict == Allowed then [now] else [])
      ensures forall other :: other != ip ==> Accepted(other) == old(Accepted(other))
    {
      hide Kept, CountIn, Spaced, Ascending, UpTo;
      ghost var log, window := Accepted(ip), windowSeconds as real;
      var h := if ip in history then history[ip] else [];
      KeptLater(log, clock, now, maxAttempts, window, h);
      AllKeptLater(history, accepted, clock, now, maxAttempts, window);
      EvictedIsKept(log, now, maxAttempts, window);
      var cutoff := now - windowSeconds as real;
      while |h| > 0 && h[0] < cutoff
        invariant Live(h, cutoff) == Live(log, cutoff)
        decreases |h|
      {
        h := h[1..];
      }
      assert h == Live(log, cutoff);
      clock := now;
      if |h| >= maxAttempts {
        AllKeptUpdate(history, accepted, ip, h, log, now, maxAttempts, window);
        history, accepted := history[ip := h], accepted[ip := log];
        if |h| == 0 { return IndexError; }
        var wait := (windowSeconds as real - (now - h[0])).Floor;
        return Denied(if wait > 1 then wait else 1);
      }
      AllKeptUpdate(history, accepted, ip, h + [now], log + [now], now, maxAttempts, window);
      history, accepted := history[ip := h + [now]], accepted[ip := log + [now]];
      return Allowed;
    }

    method Reset()
      modifies this
      ensures Valid() && forall ip :: Accepted(ip) == []
    {
      history, accepted := map[], map[];
    }
  }

  /** Accepting below the limit keeps any `max + 1` consecutive attempts apart. */
  lemma SpacedSnoc(log: seq<real>, max: int, window: real, now: real)
    requires Ascending(log) && UpTo(log, now) && Spaced(log, max, window)
    requires |Live(log, now - window)| < max
    ensures Spaced(log + [now], max, window)
  {
    LiveIsSuffix(log, now - window);
    var next := log + [now];
    forall i | 0 <= i && i + max < |next| ensures next[i + max] - next[i] > window {
      if i + max == |log| {
        assert log[i] < now - window;
      } else {
        assert next[i + max] == log[i + max] && next[i] == log[i];
      }
    }
  }
}
