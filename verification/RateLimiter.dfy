/**
 The rate limiter of `crates/lc-a2a/src/rate_limiter.rs`: a tumbling request window and a
 semaphore, entered in one critical section. Instants are naturals read by the caller.
 */
module RateLimiting {
  import opened Common

  const MINUTE: Positive := 60_000_000_000

  /** The semaphore's own ceiling, used when concurrency is unlimited. */
  const MAX_PERMITS: nat := 0x1FFF_FFFF_FFFF_FFFF

  /** Zero disables a limit. */
  datatype Config = Config(maxConcurrent: nat, maxRequests: nat, window: Positive)

  datatype RateLimitError = TooManyRequests | ConcurrencyLimitExceeded

  datatype State = State(windowStart: nat, count: nat, available: nat, outstanding: nat)

  datatype Event = Acquire(now: nat) | Release

  function Cap(config: Config): nat {
    if config.maxConcurrent == 0 then MAX_PERMITS else config.maxConcurrent
  }

  function Fresh(config: Config, start: nat): State {
    State(start, 0, Cap(config), 0)
  }

  /** The window the request falls into: the current one, or a new one starting now. */
  function Roll(config: Config, s: State, now: nat): State {
    if Elapsed(s.windowStart, now) >= config.window then s.(windowStart := now, count := 0) else s
  }

  function TryAcquire(config: Config, s: State, now: nat): (State, Result<(), RateLimitError>) {
    var r := Roll(config, s, now);
    if config.maxRequests > 0 && r.count >= config.maxRequests then (r, Err(TooManyRequests))
    else if r.available == 0 then (r, Err(ConcurrencyLimitExceeded))
    else
      (r.(available := r.available - 1, outstanding := r.outstanding + 1,
          count := if config.maxRequests > 0 then r.count + 1 else r.count), Ok(()))
  }

  /** Dropping a permit frees its slot; without a permit there is nothing to drop. */
  function Drop(s: State): State {
    if s.outstanding == 0 then s else s.(available := s.available + 1, outstanding := s.outstanding - 1)
  }

  function Step(config: Config, s: State, e: Event): State {
    match e
    case Acquire(now) => TryAcquire(config, s, now).0
    case Release => Drop(s)
  }

  function Run(config: Config, start: nat, events: seq<Event>): State {
    if events == [] then Fresh(config, start)
    else Step(config, Run(config, start, events[..|events| - 1]), events[|events| - 1])
  }

  // ---------- The history of admissions ----------

  /** An admitted request: when, and in which window. */
  datatype Admission = Admission(time: nat, windowStart: nat)

  function Log(config: Config, start: nat, events: seq<Event>): seq<Admission> {
    if events == [] then []
    else
      var front, e := events[..|events| - 1], events[|events| - 1];
      Log(config, start, front) + Admitted(config, Run(config, start, front), e)
  }

  function Admitted(config: Config, s: State, e: Event): seq<Admission> {
    match e
    case Release => []
    case Acquire(now) =>
      var (s', r) := TryAcquire(config, s, now);
      if r.Ok? then [Admission(now, s'.windowStart)] else []
  }

  function LastTime(start: nat, events: seq<Event>): nat {
    if events == [] then start
    else
      match events[|events| - 1]
      case Acquire(now) => now
      case Release => LastTime(start, events[..|events| - 1])
  }

  /** The clock never runs backwards. */
  predicate Monotone(start: nat, events: seq<Event>) {
    events != [] ==>
      var front := events[..|events| - 1];
      Monotone(start, front) && LastTime(start, front) <= LastTime(start, events)
  }

  function CountBetween(log: seq<Admission>, from: int, to: int): nat {
    if log == [] then 0
    else
      var last := log[|log| - 1];
      CountBetween(log[..|log| - 1], from, to) + if from <= last.time < to then 1 else 0
  }

  function CountWindow(log: seq<Admission>, w: nat): nat {
    if log == [] then 0
    else CountWindow(log[..|log| - 1], w) + if log[|log| - 1].windowStart == w then 1 else 0
  }

  predicate Apart(config: Config, v: nat, w: nat) {
    v == w || v + config.window <= w
  }

  /** Windows are disjoint, each admission lies in its window, and the counter counts the current one. */
  ghost predicate Inv(config: Config, s: State, log: seq<Admission>, now: nat) {
    && s.windowStart <= now
    && s.available + s.outstanding == Cap(config)
    && (forall i :: 0 <= i < |log| ==> log[i].windowStart <= log[i].time < log[i].windowStart + config.window)
    && (forall i :: 0 <= i < |log| ==> Apart(config, log[i].windowStart, s.windowStart))
    && (forall i, j :: 0 <= i < j < |log| ==> Apart(config, log[i].windowStart, log[j].windowStart))
    && (config.maxRequests > 0 ==> s.count == CountWindow(log, s.windowStart) <= config.maxRequests)
    && (config.maxRequests > 0 ==> forall w :: CountWindow(log, w) <= config.maxRequests)
  }

  lemma {:induction false} CountWindowAbsent(log: seq<Admission>, w: nat)
    requires forall i :: 0 <= i < |log| ==> log[i].windowStart != w
    ensures CountWindow(log, w) == 0
  {
    if log != [] {
      CountWindowAbsent(log[..|log| - 1], w);
    }
  }

  lemma RollKeepsInv(config: Config, s: State, log: seq<Admission>, last: nat, now: nat)
    requires Inv(config, s, log, last) && last <= now
    ensures Inv(config, Roll(config, s, now), log, now)
    ensures now < Roll(config, s, now).windowStart + config.window
  {
    if Elapsed(s.windowStart, now) >= config.window {
      CountWindowAbsent(log, now);
    }
  }

  lemma AdmitKeepsInv(config: Config, s: State, log: seq<Admission>, now: nat)
    requires Inv(config, s, log, now) && now < s.windowStart + config.window && s.available > 0
    requires config.maxRequests > 0 ==> s.count < config.maxRequests
    ensures Inv(config, s.(available := s.available - 1, outstanding := s.outstanding + 1,
                           count := if config.maxRequests > 0 then s.count + 1 else s.count),
                log + [Admission(now, s.windowStart)], now)
  {
  }

  lemma StepKeepsInv(config: Config, s: State, log: seq<Admission>, last: nat, e: Event)
    requires Inv(config, s, log, last) && (e.Acquire? ==> last <= e.now)
    ensures Inv(config, Step(config, s, e), log + Admitted(config, s, e), if e.Acquire? then e.now else last)
  {
    match e
    case Release =>
      assert log + [] == log;
    case Acquire(now) =>
      RollKeepsInv(config, s, log, last, now);
      if TryAcquire(config, s, now).1.Ok? {
        AdmitKeepsInv(config, Roll(config, s, now), log, now);
      } else {
        assert log + [] == log;
      }
  }

  lemma {:induction false} ReachableInv(config: Config, start: nat, events: seq<Event>)
    requires Monotone(start, events)
    ensures Inv(config, Run(config, start, events), Log(config, start, events), LastTime(start, events))
  {
    if events != [] {
      var front := events[..|events| - 1];
      ReachableInv(config, start, front);
      StepKeepsInv(config, Run(config, start, front), Log(config, start, front), LastTime(start, front),
                   events[|events| - 1]);
    }
  }

  // ---------- What the limits guarantee ----------

  /** Permits are conserved over every run, and no window admits more than its budget. */
  lemma PermitsAndWindows(config: Config, start: nat, events: seq<Event>, w: nat)
    requires Monotone(start, events)
    ensures var s := Run(config, start, events);
            && s.available + s.outstanding == Cap(config)
            && (config.maxRequests > 0 ==> CountWindow(Log(config, start, events), w) <= config.maxRequests)
  {
    ReachableInv(config, start, events);
  }

  /** A rejection takes no permit and never grows the window count; a full cap rejects everybody. */
  lemma RejectionCostsNothing(config: Config, s: State, now: nat)
    ensures var (s', r) := TryAcquire(config, s, now);
            && (r.Err? ==> s'.count <= s.count && s'.available == s.available && s'.outstanding == s.outstanding)
            && (r == Err(TooManyRequests) <==>
                0 < config.maxRequests <= s.count && Elapsed(s.windowStart, now) < config.window)
            && (r.Ok? ==> s.available > 0 && s'.available == s.available - 1)
            && (s.available == 0 ==> r.Err?)
  {
  }

  /** The permits that were handed back. */
  function Returned(config: Config, start: nat, events: seq<Event>): nat {
    if events == [] then 0
    else
      var front := events[..|events| - 1];
      Returned(config, start, front) +
      if events[|events| - 1].Release? && Returned(config, start, front) < |Log(config, start, front)| then 1 else 0
  }

  /** When the current window opened: with the first request that found the window before it over. */
  function WindowOf(config: Config, start: nat, events: seq<Event>): nat {
    if events == [] then start
    else
      var before := WindowOf(config, start, events[..|events| - 1]);
      match events[|events| - 1]
      case Acquire(now) => if before + config.window <= now then now else before
      case Release => before
  }

  /** What is out is what was admitted less what was handed back, and windows open by the clock alone. */
  lemma {:induction false} StateIsHistory(config: Config, start: nat, events: seq<Event>)
    ensures Run(config, start, events).outstanding == |Log(config, start, events)| - Returned(config, start, events)
    ensures Run(config, start, events).windowStart == WindowOf(config, start, events)
  {
    if events != [] {
      StateIsHistory(config, start, events[..|events| - 1]);
    }
  }

  /**
   Told from the history alone: a request is admitted exactly when the budget of its window is not used up and fewer
   permits are out than may be at once. Zero means no such limit; for permits the semaphore's own ceiling remains.
   */
  lemma AdmittedExactly(config: Config, start: nat, events: seq<Event>, now: nat)
    requires Monotone(start, events) && LastTime(start, events) <= now
    ensures var log, window := Log(config, start, events), WindowOf(config, start, events);
            var out := |log| - Returned(config, start, events);
            TryAcquire(config, Run(config, start, events), now).1.Ok? <==>
            && (config.maxRequests == 0 || window + config.window <= now
                || CountWindow(log, window) < config.maxRequests)
            && (if config.maxConcurrent > 0 then out < config.maxConcurrent else out < 0x1FFF_FFFF_FFFF_FFFF)
    ensures var log, window := Log(config, start, events), WindowOf(config, start, events);
            TryAcquire(config, Run(config, start, events), now).1 == Err(TooManyRequests) <==>
            && 0 < config.maxRequests && now < window + config.window
            && CountWindow(log, window) == config.maxRequests
  {
    ReachableInv(config, start, events);
    StateIsHistory(config, start, events);
  }

  lemma {:induction false} TwoWindowsCover(log: seq<Admission>, from: int, to: int, v: nat, w: nat)
    requires forall i :: 0 <= i < |log| && from <= log[i].time < to ==> log[i].windowStart in {v, w}
    ensures CountBetween(log, from, to) <= CountWindow(log, v) + CountWindow(log, w)
  {
    if log != [] {
      TwoWindowsCover(log[..|log| - 1], from, to, v, w);
    }
  }

  /** Every admission falls into its window, and different windows do not overlap. */
  ghost predicate Tumbling(config: Config, log: seq<Admission>) {
    && (forall i :: 0 <= i < |log| ==> log[i].windowStart <= log[i].time < log[i].windowStart + config.window)
    && (forall i, j :: 0 <= i < j < |log| ==> Apart(config, log[i].windowStart, log[j].windowStart))
  }

  lemma WindowsTumble(config: Config, start: nat, events: seq<Event>)
    requires Monotone(start, events)
    ensures Tumbling(config, Log(config, start, events))
  {
    ReachableInv(config, start, events);
  }

  /** Any interval of one window's length meets at most two windows. */
  lemma IntervalMeetsTwoWindows(config: Config, log: seq<Admission>, from: int) returns (v: nat, w: nat)
    requires Tumbling(config, log)
    ensures forall i :: 0 <= i < |log| && from <= log[i].time < from + config.window ==> log[i].windowStart in {v, w}
  {
    v, w := 0, 0;
    if i :| 0 <= i < |log| && from <= log[i].time < from + config.window {
      v, w := log[i].windowStart, log[i].windowStart;
      if j :| 0 <= j < |log| && from <= log[j].time < from + config.window && log[j].windowStart != v {
        w := log[j].windowStart;
      }
    }
  }

  /** Admissions in the interval of one window's length that starts at `from`. */
  function Within(config: Config, start: nat, events: seq<Event>, from: int): nat {
    CountBetween(Log(config, start, events), from, from + config.window)
  }

  /** The true rate bound: no interval of one window's length sees more than twice the budget. */
  lemma TwiceTheBudget(config: Config, start: nat, events: seq<Event>, from: int)
    requires Monotone(start, events) && config.maxRequests > 0
    ensures Within(config, start, events, from) <= 2 * config.maxRequests
  {
    var log := Log(config, start, events);
    WindowsTumble(config, start, events);
    var v, w := IntervalMeetsTwoWindows(config, log, from);
    TwoWindowsCover(log, from, from + config.window, v, w);
    PermitsAndWindows(config, start, events, v);
    PermitsAndWindows(config, start, events, w);
  }

  // ---------- The documented rolling window ----------

  /** No interval of one window's length sees more than the budget, whatever callers do. */
  ghost predicate RollingBound(config: Config, start: nat) {
    forall events, from :: Monotone(start, events) ==> Within(config, start, events, from) <= config.maxRequests
  }

  /** `n` requests at one instant, each releasing its permit at once. */
  function Burst(events: seq<Event>, now: nat, n: nat): seq<Event> {
    if n == 0 then events else Burst(events, now, n - 1) + [Acquire(now), Release]
  }

  /** `all` is what `events` become by `n` more requests at `now`, each admitted and dropped at once. */
  ghost predicate Admits(config: Config, start: nat, events: seq<Event>, all: seq<Event>, now: nat, n: nat,
                         from: int, to: int) {
    && Monotone(start, all) && LastTime(start, all) == now
    && CountBetween(Log(config, start, all), from, to) == CountBetween(Log(config, start, events), from, to) + n
    && var r := Roll(config, Run(config, start, events), now);
       Run(config, start, all) == r.(count := r.count + n)
  }

  lemma AdmitsOneMore(config: Config, start: nat, events: seq<Event>, before: seq<Event>, now: nat, n: nat,
                      from: int, to: int)
    requires Admits(config, start, events, before, now, n, from, to) && from <= now < to
    requires var s := Run(config, start, events);
             s.available >= 1 && Roll(config, s, now).count + n < config.maxRequests
    ensures Admits(config, start, events, before + [Acquire(now), Release], now, n + 1, from, to)
  {
    OneRequest(config, start, before, now, from, to);
  }

  /** A burst that fits the budget of its window is admitted in full. */
  lemma {:induction false} BurstAdmitsAll(config: Config, start: nat, events: seq<Event>, now: nat, n: nat,
                                          from: int, to: int)
    requires 0 < n <= config.maxRequests && from <= now < to
    requires Monotone(start, events) && LastTime(start, events) <= now
    requires var s := Run(config, start, events);
             s.available >= 1 && Roll(config, s, now).count + n <= config.maxRequests
    ensures Admits(config, start, events, Burst(events, now, n), now, n, from, to)
    decreases n
  {
    if n == 1 {
      assert Burst(events, now, 1) == events + [Acquire(now), Release];
      OneRequest(config, start, events, now, from, to);
    } else {
      BurstAdmitsAll(config, start, events, now, n - 1, from, to);
      AdmitsOneMore(config, start, events, Burst(events, now, n - 1), now, n - 1, from, to);
    }
  }

  lemma OneRequest(config: Config, start: nat, events: seq<Event>, now: nat, from: int, to: int)
    requires from <= now < to && Monotone(start, events) && LastTime(start, events) <= now
    requires var s := Run(config, start, events);
             s.available >= 1 && Roll(config, s, now).count < config.maxRequests
    ensures var all := events + [Acquire(now), Release];
            && Monotone(start, all) && LastTime(start, all) == now
            && CountBetween(Log(config, start, all), from, to) == CountBetween(Log(config, start, events), from, to) + 1
            && var r := Roll(config, Run(config, start, events), now);
               Run(config, start, all) == r.(count := r.count + 1)
  {
    var mid := events + [Acquire(now)];
    var s, log := Run(config, start, events), Log(config, start, events);
    assert events + [Acquire(now), Release] == mid + [Release];
    AcquireThenDrop(config, s, now);
    OneMore(config, start, events, Acquire(now));
    OneMore(config, start, mid, Release);
    var admission := Admission(now, Roll(config, s, now).windowStart);
    assert log + [admission] + [] == log + [admission];
    CountOneMore(log, admission, from, to);
  }

  lemma AcquireThenDrop(config: Config, s: State, now: nat)
    requires s.available >= 1 && Roll(config, s, now).count < config.maxRequests
    ensures var r := Roll(config, s, now);
            && Step(config, Step(config, s, Acquire(now)), Release) == r.(count := r.count + 1)
            && Admitted(config, s, Acquire(now)) == [Admission(now, r.windowStart)]
  {
  }

  lemma CountOneMore(log: seq<Admission>, admission: Admission, from: int, to: int)
    requires from <= admission.time < to
    ensures CountBetween(log + [admission], from, to) == CountBetween(log, from, to) + 1
  {
  }

  lemma OneMore(config: Config, start: nat, events: seq<Event>, e: Event)
    ensures var all := events + [e];
            && Run(config, start, all) == Step(config, Run(config, start, events), e)
            && Log(config, start, all) == Log(config, start, events) + Admitted(config, Run(config, start, events), e)
            && LastTime(start, all) == (if e.Acquire? then e.now else LastTime(start, events))
            && (Monotone(start, all) <==> Monotone(start, events) && LastTime(start, events) <= LastTime(start, all))
  {
  }

  /** The documented rolling bound is not what a tumbling window gives: two bursts meet around a boundary. */
  lemma TwiceTheBudgetIsReached(config: Config, start: nat) returns (events: seq<Event>, from: int)
    requires config.maxRequests > 0 && config.window >= 2
    ensures Monotone(start, events)
    ensures Within(config, start, events, from) == 2 * config.maxRequests
  {
    var n, late, next := config.maxRequests, start + config.window - 1, start + config.window;
    from := late;
    var first := Burst([], late, n);
    BurstAdmitsAll(config, start, [], late, n, from, from + config.window);
    BurstAdmitsAll(config, start, first, next, n, from, from + config.window);
    events := Burst(first, next, n);
  }

  /** Exactly when the rolling bound holds: only for a window of a single instant, never for a minute. */
  lemma RollingBoundExactly(config: Config, start: nat)
    requires config.maxRequests > 0
    ensures RollingBound(config, start) <==> config.window == 1
  {
    if config.window >= 2 {
      var events, from := TwiceTheBudgetIsReached(config, start);
      assert !(Within(config, start, events, from) <= config.maxRequests);
    } else {
      forall events, from | Monotone(start, events)
        ensures Within(config, start, events, from) <= config.maxRequests
      {
        SingleInstantBound(config, start, events, from);
      }
    }
  }

  lemma SingleInstantBound(config: Config, start: nat, events: seq<Event>, from: int)
    requires Monotone(start, events) && config.maxRequests > 0 && config.window == 1
    ensures Within(config, start, events, from) <= config.maxRequests
  {
    var log := Log(config, start, events);
    ReachableInv(config, start, events);
    if from >= 0 {
      InstantIsOneWindow(log, from);
    } else {
      NothingBeforeZero(log, from);
    }
  }

  lemma {:induction false} InstantIsOneWindow(log: seq<Admission>, t: nat)
    requires forall i :: 0 <= i < |log| ==> log[i].windowStart == log[i].time
    ensures CountBetween(log, t, t + 1) == CountWindow(log, t)
  {
    if log != [] {
      InstantIsOneWindow(log[..|log| - 1], t);
    }
  }

  lemma {:induction false} NothingBeforeZero(log: seq<Admission>, from: int)
    requires from < 0
    ensures CountBetween(log, from, from + 1) == 0
  {
    if log != [] {
      NothingBeforeZero(log[..|log| - 1], from);
    }
  }

  // ---------- The shared limiter ----------

  class RateLimiter {
    const config: Config
    var available: nat
    var windowStart: nat
    var count: nat
    /** Permits handed out and not yet dropped. */
    ghost var outstanding: nat

    ghost function View(): State
      reads this
    {
      State(windowStart, count, available, outstanding)
    }

    constructor (maxConcurrent: nat, maxRequestsPerMinute: nat, now: nat)
      ensures config == Config(maxConcurrent, maxRequestsPerMinute, MINUTE)
      ensures View() == Fresh(config, now)
      ensures config.window == 60_000_000_000 && windowStart == now && count == 0 && outstanding == 0
      ensures available == if maxConcurrent > 0 then maxConcurrent else MAX_PERMITS
    {
      config := Config(maxConcurrent, maxRequestsPerMinute, MINUTE);
      available := if maxConcurrent == 0 then MAX_PERMITS else maxConcurrent;
      windowStart, count, outstanding := now, 0, 0;
    }

    method TryAcquirePermit(now: nat) returns (r: Result<(), RateLimitError>)
      modifies this
      ensures (View(), r) == TryAcquire(config, old(View()), now)
      ensures var rolled := now >= old(windowStart) + config.window;
              var used := if rolled then 0 else old(count);
              && windowStart == (if rolled then now else old(windowStart))
              && r == (if 0 < config.maxRequests <= used then Err(TooManyRequests)
                       else if old(available) == 0 then Err(ConcurrencyLimitExceeded) else Ok(()))
              && count == used + (if r.Ok? && config.maxRequests > 0 then 1 else 0)
              && available == old(available) - (if r.Ok? then 1 else 0)
              && outstanding == old(outstanding) + (if r.Ok? then 1 else 0)
    {
      if Elapsed(windowStart, now) >= config.window {
        windowStart := now;
        count := 0;
      }
      if config.maxRequests > 0 && count >= config.maxRequests {
        return Err(TooManyRequests);
      }
      if available == 0 {
        return Err(ConcurrencyLimitExceeded);
      }
      available := available - 1;
      outstanding := outstanding + 1;
      if config.maxRequests > 0 {
        count := count + 1;
      }
      r := Ok(());
    }

    method DropPermit()
      requires outstanding > 0
      modifies this
      ensures View() == Drop(old(View()))
      ensures available == old(available) + 1 && outstanding == old(outstanding) - 1
      ensures windowStart == old(windowStart) && count == old(count)
    {
      available := available + 1;
      outstanding := outstanding - 1;
    }
  }
}
