/**
 * The rate limiter behind the batch logger's debug messages: one dictionary for all keys, swept of
 * every expired entry on each call.
 */
module DebugRateLimiter {
  import opened Basics
  import opened Wrappers

  type Key = string

  const RATE_LIMIT_WINDOW := 60.0
  const MAX_DEBUG_PER_WINDOW := 10

  datatype Window = Window(count: nat, start: real)

  predicate Expired(w: Window, now: real) {
    now - w.start > RATE_LIMIT_WINDOW
  }

  // ---------- A limiter for a single key, without clean-up ----------

  datatype Verdict = Verdict(window: Window, allowed: bool)

  function KeyStep(window: Option<Window>, now: real): Verdict {
    if window.None? || Expired(window.value, now) then Verdict(Window(1, now), true)
    else if window.value.count >= MAX_DEBUG_PER_WINDOW then Verdict(window.value, false)
    else Verdict(window.value.(count := window.value.count + 1), true)
  }

  // ---------- The shared dictionary ----------

  type Table = map<Key, Window>

  function Sweep(table: Table, now: real): Table {
    map key | key in table && !Expired(table[key], now) :: table[key]
  }

  class BatchLogger {
    var debugRateLimiter: Table

    constructor ()
      ensures debugRateLimiter == map[]
    {
      debugRateLimiter := map[];
    }

    method ShouldLogDebug(rateLimitKey: Key, now: real) returns (allowed: bool)
      modifies this
      ensures var v := KeyStep(Get(Sweep(old(debugRateLimiter), now), rateLimitKey), now);
        allowed == v.allowed && debugRateLimiter == Sweep(old(debugRateLimiter), now)[rateLimitKey := v.window]
    {
      var expired := set key | key in debugRateLimiter && Expired(debugRateLimiter[key], now);
      while expired != {}
        invariant forall key :: key in debugRateLimiter <==>
                    key in old(debugRateLimiter) && (key in expired || !Expired(old(debugRateLimiter)[key], now))
        invariant forall key | key in debugRateLimiter :: debugRateLimiter[key] == old(debugRateLimiter)[key]
        invariant forall key | key in expired :: key in debugRateLimiter && Expired(debugRateLimiter[key], now)
        decreases expired
      {
        var key :| key in expired;
        debugRateLimiter := debugRateLimiter - {key};
        expired := expired - {key};
      }
      assert debugRateLimiter == Sweep(old(debugRateLimiter), now);

      if rateLimitKey !in debugRateLimiter {
        debugRateLimiter := debugRateLimiter[rateLimitKey := Window(1, now)];
        return true;
      }
      var window := debugRateLimiter[rateLimitKey];
      if now - window.start > RATE_LIMIT_WINDOW {
        // The sweep has removed every expired entry, this one included.
        assert false;
      }
      if window.count >= MAX_DEBUG_PER_WINDOW {
        assert debugRateLimiter == debugRateLimiter[rateLimitKey := window];
        return false;
      }
      debugRateLimiter := debugRateLimiter[rateLimitKey := Window(window.count + 1, window.start)];
      return true;
    }
  }

  // ---------- Runs ----------

  datatype Call = Call(key: Key, time: real)

  ghost predicate ClockNeverGoesBack(calls: seq<Call>) {
    forall i, j | 0 <= i < j < |calls| :: calls[i].time <= calls[j].time
  }

  function Init(calls: seq<Call>): seq<Call>
    requires calls != []
  {
    calls[..|calls| - 1]
  }

  function Last(calls: seq<Call>): Call
    requires calls != []
  {
    calls[|calls| - 1]
  }

  /** The shared dictionary after a run. */
  function TableAfter(calls: seq<Call>): Table {
    if calls == [] then map[]
    else
      var swept := Sweep(TableAfter(Init(calls)), Last(calls).time);
      swept[Last(calls).key := KeyStep(Get(swept, Last(calls).key), Last(calls).time).window]
  }

  /** The window of `key` after a run, in a limiter that only sees the calls for `key`. */
  function WindowAfter(calls: seq<Call>, key: Key): Option<Window> {
    if calls == [] then None
    else if Last(calls).key != key then WindowAfter(Init(calls), key)
    else Some(KeyStep(WindowAfter(Init(calls), key), Last(calls).time).window)
  }

  /** That limiter's answer to the last call. */
  function Answer(calls: seq<Call>): bool
    requires calls != []
  {
    KeyStep(WindowAfter(Init(calls), Last(calls).key), Last(calls).time).allowed
  }

  // ---------- Sweeping is transparent ----------

  /** From the last call on, the dictionary holds each key's own window until it expires. */
  lemma {:induction false} TableHoldsLiveWindows(calls: seq<Call>, key: Key, now: real)
    requires ClockNeverGoesBack(calls) && (calls != [] ==> Last(calls).time <= now)
    ensures var own := WindowAfter(calls, key);
      Get(Sweep(TableAfter(calls), now), key) ==
      if own.Some? && !Expired(own.value, now) then own else None
  {
    if calls != [] {
      TableHoldsLiveWindows(Init(calls), key, Last(calls).time);
      TableHoldsLiveWindows(Init(calls), key, now);
    }
  }

  /** On every interleaving of keys, the shared dictionary answers as one limiter per key would. */
  lemma SweepIsTransparent(calls: seq<Call>)
    requires calls != [] && ClockNeverGoesBack(calls)
    ensures var last := Last(calls);
      KeyStep(Get(Sweep(TableAfter(Init(calls)), last.time), last.key), last.time).allowed == Answer(calls)
  {
    TableHoldsLiveWindows(Init(calls), Last(calls).key, Last(calls).time);
  }

  /** A run of the logger. */
  method Run(calls: seq<Call>) returns (answers: seq<bool>)
    requires ClockNeverGoesBack(calls)
    ensures |answers| == |calls|
    ensures forall i | 0 <= i < |calls| :: answers[i] == Answer(calls[..i + 1])
  {
    var limiter := new BatchLogger();
    answers := [];
    for n := 0 to |calls|
      invariant |answers| == n
      invariant fresh(limiter) && limiter.debugRateLimiter == TableAfter(calls[..n])
      invariant forall i | 0 <= i < n :: answers[i] == Answer(calls[..i + 1])
    {
      assert Init(calls[..n + 1]) == calls[..n];
      SweepIsTransparent(calls[..n + 1]);
      var allowed := limiter.ShouldLogDebug(calls[n].key, calls[n].time);
      answers := answers + [allowed];
    }
  }

  // ---------- Bounds over whole runs ----------

  /** How many calls for `key` were allowed at times in `[from, to]`. */
  function AllowedCount(calls: seq<Call>, key: Key, from: real, to: real): nat {
    if calls == [] then 0
    else
      var last := Last(calls);
      AllowedCount(Init(calls), key, from, to)
      + if last.key == key && from <= last.time <= to && Answer(calls) then 1 else 0
  }

  /** The bound on the calls in `[a, a + 60]`, by where the current window starts. */
  function BoundFor(w: Window, a: real): int {
    if w.start + RATE_LIMIT_WINDOW < a then 0
    else if w.start < a then w.count - 1
    else if w.start == a then w.count
    else if w.start <= a + RATE_LIMIT_WINDOW then MAX_DEBUG_PER_WINDOW - 1 + w.count
    else 2 * MAX_DEBUG_PER_WINDOW - 1
  }

  lemma {:induction false} IntervalBound(calls: seq<Call>, key: Key, a: real)
    requires ClockNeverGoesBack(calls)
    ensures var n, own := AllowedCount(calls, key, a, a + RATE_LIMIT_WINDOW), WindowAfter(calls, key);
      if own.None? then n == 0
      else
        && 1 <= own.value.count <= MAX_DEBUG_PER_WINDOW
        && own.value.start <= Last(calls).time
        && n <= BoundFor(own.value, a)
  {
    if calls != [] {
      IntervalBound(Init(calls), key, a);
    }
  }

  /**
   * No closed interval as long as the window contains more than 19 allowed calls for a key: it can
   * meet two windows, but then the call that opened the first one lies before it.
   */
  lemma AtMostNineteenPerInterval(calls: seq<Call>, key: Key, a: real)
    requires ClockNeverGoesBack(calls)
    ensures AllowedCount(calls, key, a, a + RATE_LIMIT_WINDOW) <= 2 * MAX_DEBUG_PER_WINDOW - 1
  {
    IntervalBound(calls, key, a);
  }

  /** A window's counter counts the calls allowed since it was opened. */
  lemma {:induction false} WindowCountsItsCalls(calls: seq<Call>, key: Key, from: real, to: real)
    requires ClockNeverGoesBack(calls) && WindowAfter(calls, key).Some?
    requires from <= WindowAfter(calls, key).value.start && Last(calls).time <= to
    ensures AllowedCount(calls, key, from, to) >= WindowAfter(calls, key).value.count
  {
    var init := Init(calls);
    IntervalBound(calls, key, from);
    if WindowAfter(init, key).Some? && WindowAfter(init, key).value.start == WindowAfter(calls, key).value.start {
      WindowCountsItsCalls(init, key, from, to);
    }
  }

  /** A message is suppressed only after ten were allowed in the sixty seconds before it. */
  lemma SuppressedOnlyAfterTen(calls: seq<Call>)
    requires calls != [] && ClockNeverGoesBack(calls) && !Answer(calls)
    ensures var last := Last(calls);
      AllowedCount(Init(calls), last.key, last.time - RATE_LIMIT_WINDOW, last.time) >= MAX_DEBUG_PER_WINDOW
  {
    var last := Last(calls);
    WindowCountsItsCalls(Init(calls), last.key, last.time - RATE_LIMIT_WINDOW, last.time);
  }

  // ---------- The bound of 19 is reached ----------

  function Repeat(call: Call, n: nat): seq<Call> {
    seq(n, _ => call)
  }

  /** While the window has room, `n` further calls at one time are all allowed. */
  lemma {:induction false} Burst(calls: seq<Call>, call: Call, n: nat, from: real, to: real)
    requires WindowAfter(calls, call.key).Some? && !Expired(WindowAfter(calls, call.key).value, call.time)
    requires WindowAfter(calls, call.key).value.count + n <= MAX_DEBUG_PER_WINDOW
    requires from <= call.time <= to
    ensures var w, more := WindowAfter(calls, call.key).value, calls + Repeat(call, n);
      && WindowAfter(more, call.key) == Some(w.(count := w.count + n))
      && AllowedCount(more, call.key, from, to) == AllowedCount(calls, call.key, from, to) + n
  {
    var more := calls + Repeat(call, n);
    if n == 0 {
      assert more == calls;
    } else {
      assert Init(more) == calls + Repeat(call, n - 1);
      Burst(calls, call, n - 1, from, to);
    }
  }

  /** One call, nine more just before its window ends, ten more just after. */
  lemma NineteenIsReached(key: Key)
    ensures var calls := [Call(key, 0.0)] + Repeat(Call(key, 60.0), 9) + [Call(key, 61.0)] + Repeat(Call(key, 61.0), 9);
      ClockNeverGoesBack(calls) && AllowedCount(calls, key, 60.0, 120.0) == 19
  {
    var c1 := [Call(key, 0.0)];
    var c2 := c1 + Repeat(Call(key, 60.0), 9);
    var c3 := c2 + [Call(key, 61.0)];
    assert Init(c1) == [] && Init(c3) == c2;
    Burst(c1, Call(key, 60.0), 9, 60.0, 120.0);
    Burst(c3, Call(key, 61.0), 9, 60.0, 120.0);
  }

  /**
   * The condition on the clock is needed: an exhausted window that is swept at a later time is
   * missed when the clock steps back, and the suppressed call is allowed.
   */
  lemma SweepIsVisibleWhenClockStepsBack(a: Key, b: Key)
    requires a != b
    ensures var before := [Call(a, 0.0)] + Repeat(Call(a, 0.0), 9) + [Call(b, 100.0)];
      && !Answer(before + [Call(a, 1.0)])
      && KeyStep(Get(Sweep(TableAfter(before), 1.0), a), 1.0).allowed
  {
    var c1 := [Call(a, 0.0)];
    var c2 := c1 + Repeat(Call(a, 0.0), 9);
    var c3 := c2 + [Call(b, 100.0)];
    assert Init(c1) == [] && Init(c3) == c2 && Init(c3 + [Call(a, 1.0)]) == c3;
    Burst(c1, Call(a, 0.0), 9, 0.0, 0.0);
    IntervalBound(c2, a, 0.0);
    TableHoldsLiveWindows(c2, a, 100.0);
  }

  // ---------- Any clock ----------

  /** Some call of another key came so late that its sweep dropped the window. */
  ghost predicate SweptBy(w: Window, others: seq<Call>) {
    exists i | 0 <= i < |others| :: Expired(w, others[i].time)
  }

  /** Whatever the clock does: while only other keys are called, a window leaves the dictionary exactly if one of them sweeps it. */
  lemma {:induction false} WindowUntilSwept(before: seq<Call>, others: seq<Call>, key: Key)
    requires Get(TableAfter(before), key) == WindowAfter(before, key)
    requires forall c | c in others :: c.key != key
    ensures var own := WindowAfter(before, key);
      && WindowAfter(before + others, key) == own
      && Get(TableAfter(before + others), key) == if own.Some? && SweptBy(own.value, others) then None else own
  {
    var calls := before + others;
    if others == [] {
      assert calls == before;
    } else {
      var init, last := others[..|others| - 1], others[|others| - 1];
      assert Init(calls) == before + init && Last(calls) == last && last in others;
      WindowUntilSwept(before, init, key);
      var own := WindowAfter(before, key);
      if own.Some? {
        assert SweptBy(own.value, others) <==> SweptBy(own.value, init) || Expired(own.value, last.time);
      }
    }
  }

  /**
   * With any clock, a key's next answer differs from its own limiter's if and only if its window is
   * exhausted and still live, but was swept at a later time in between.
   */
  lemma SweepIsVisibleIff(before: seq<Call>, others: seq<Call>, key: Key, now: real)
    requires Get(TableAfter(before), key) == WindowAfter(before, key)
    requires forall c | c in others :: c.key != key
    ensures var calls, own := before + others, WindowAfter(before, key);
      KeyStep(Get(Sweep(TableAfter(calls), now), key), now).allowed != Answer(calls + [Call(key, now)]) <==>
      own.Some? && own.value.count >= MAX_DEBUG_PER_WINDOW && !Expired(own.value, now) && SweptBy(own.value, others)
  {
    var calls := before + others;
    WindowUntilSwept(before, others, key);
    assert Init(calls + [Call(key, now)]) == calls;
  }
}
