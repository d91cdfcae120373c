/**
 The per-agent circuit breaker of `crates/lc-a2a/src/scale.rs`. Instants are naturals
 handed in by the caller; a clock read before the stored instant counts as no time elapsed.
 */
module AgentBreakers {
  import opened Common

  datatype BreakerState = Closed | Open | HalfOpen

  datatype Config = Config(failureThreshold: nat, openDuration: nat)

  datatype Inner = Inner(state: BreakerState, consecutiveFailures: nat, openedAt: Option<nat>, probeInFlight: bool)

  /** What a caller can do to a breaker, with the clock it reads. */
  datatype Event = Allow(now: nat) | Success(now: nat) | Failure(now: nat)

  datatype Answer = Admitted | Refused | Recorded

  const FRESH := Inner(Closed, 0, None, false)

  predicate Expired(config: Config, s: Inner, now: nat) {
    s.openedAt.Some? && Elapsed(s.openedAt.value, now) >= config.openDuration
  }

  function Step(config: Config, s: Inner, e: Event): (Inner, Answer) {
    match e
    case Allow(now) =>
      (match s.state
       case Closed => (s, Admitted)
       case HalfOpen => (s, if s.probeInFlight then Refused else Admitted)
       case Open =>
         if Expired(config, s, now) then (s.(state := HalfOpen, probeInFlight := true), Admitted)
         else (s, Refused))
    case Success(_) => (FRESH, Recorded)
    case Failure(now) =>
      var n := s.consecutiveFailures + 1;
      if s.state == HalfOpen then (s.(state := Open, openedAt := Some(now), probeInFlight := false), Recorded)
      else if n >= config.failureThreshold then (Inner(Open, n, Some(now), false), Recorded)
      else (s.(consecutiveFailures := n, probeInFlight := false), Recorded)
  }

  function Threshold(config: Config): nat {
    Max(1, config.failureThreshold)
  }

  /** What every reachable breaker satisfies. */
  predicate Inv(config: Config, s: Inner) {
    && (s.probeInFlight <==> s.state == HalfOpen)
    && (s.openedAt.None? <==> s.state == Closed)
    && (s.state == Closed <==> s.consecutiveFailures < Threshold(config))
  }

  function Run(config: Config, events: seq<Event>): Inner {
    if events == [] then FRESH
    else Step(config, Run(config, events[..|events| - 1]), events[|events| - 1]).0
  }

  lemma StepKeepsInv(config: Config, s: Inner, e: Event)
    requires Inv(config, s)
    ensures Inv(config, Step(config, s, e).0)
    ensures Step(config, s, e).1 == Refused ==> Step(config, s, e).0 == s
  {
  }

  lemma {:induction false} ReachableInv(config: Config, events: seq<Event>)
    ensures Inv(config, Run(config, events))
  {
    if events != [] {
      ReachableInv(config, events[..|events| - 1]);
    }
  }

  /** In any reachable breaker a refused call changes nothing, and an admission out of `Open` takes the probe. */
  lemma AllowInReachable(config: Config, events: seq<Event>, now: nat)
    ensures var s := Run(config, events);
            var (s', a) := Step(config, s, Allow(now));
            && (a == Refused <==> s.state == HalfOpen || (s.state == Open && !Expired(config, s, now)))
            && (a == Refused ==> s' == s)
            && (a == Admitted && s.state == Closed ==> s' == s)
            && (a == Admitted && s.state == Open ==> s'.state == HalfOpen && s'.probeInFlight)
            && (s.state != Closed ==> s.openedAt.Some?)
            && (s.state == Open ==> (a == Admitted <==> Elapsed(s.openedAt.value, now) >= config.openDuration))
  {
  }

  predicate AllAllow(events: seq<Event>) {
    forall i :: 0 <= i < |events| ==> events[i].Allow?
  }

  /** Once a probe is out, every call is refused until somebody reports, however long that takes. */
  lemma {:induction false} ProbeDrainsEveryoneElse(config: Config, events: seq<Event>, calls: seq<Event>, now: nat)
    requires Run(config, events).state == HalfOpen && AllAllow(calls)
    ensures Run(config, events + calls) == Run(config, events)
    ensures Step(config, Run(config, events + calls), Allow(now)).1 == Refused
  {
    ReachableInv(config, events);
    if calls == [] {
      assert events + calls == events;
    } else {
      var last := |calls| - 1;
      ProbeDrainsEveryoneElse(config, events, calls[..last], now);
      assert (events + calls)[..|events| + last] == events + calls[..last];
    }
  }

  /** Failures since the last success. */
  function Streak(events: seq<Event>): nat {
    if events == [] then 0
    else
      match events[|events| - 1]
      case Success(_) => 0
      case Failure(_) => Streak(events[..|events| - 1]) + 1
      case Allow(_) => Streak(events[..|events| - 1])
  }

  predicate ClosedThroughout(config: Config, events: seq<Event>) {
    && Run(config, events).state == Closed
    && (events != [] ==> ClosedThroughout(config, events[..|events| - 1]))
  }

  predicate BelowThroughout(config: Config, events: seq<Event>) {
    && Streak(events) < Threshold(config)
    && (events != [] ==> BelowThroughout(config, events[..|events| - 1]))
  }

  /** A breaker stays closed exactly as long as no streak of consecutive failures reaches the threshold. */
  lemma {:induction false} TripsExactlyAtThreshold(config: Config, events: seq<Event>)
    ensures ClosedThroughout(config, events) <==> BelowThroughout(config, events)
    ensures ClosedThroughout(config, events) ==> Run(config, events).consecutiveFailures == Streak(events)
  {
    if events != [] {
      TripsExactlyAtThreshold(config, events[..|events| - 1]);
      ReachableInv(config, events);
      ReachableInv(config, events[..|events| - 1]);
    }
  }

  // ---------- The history on its own ----------

  /** When the last failure was reported. */
  function LastFailure(events: seq<Event>): Option<nat> {
    if events == [] then None
    else
      match events[|events| - 1]
      case Failure(now) => Some(now)
      case _ => LastFailure(events[..|events| - 1])
  }

  /** The open duration has passed since the last failure. */
  predicate Waited(config: Config, events: seq<Event>, now: nat) {
    LastFailure(events).Some? && (config.openDuration == 0 || LastFailure(events).value + config.openDuration <= now)
  }

  /** Since the last report a call came after the open duration. */
  predicate CalledLate(config: Config, events: seq<Event>) {
    events != [] &&
      var front := events[..|events| - 1];
      match events[|events| - 1]
      case Allow(now) => CalledLate(config, front) || Waited(config, front, now)
      case _ => false
  }

  /** The state is a function of the reports: the failures since the last success, and when the last of them came. */
  lemma {:induction false} StateIsHistory(config: Config, events: seq<Event>)
    ensures var s := Run(config, events);
            && (s.state == Closed <==> Streak(events) < Threshold(config))
            && (s.state == HalfOpen <==> Streak(events) >= Threshold(config) && CalledLate(config, events))
            && s.openedAt == (if s.state == Closed then None else LastFailure(events))
            && (s.state == Closed ==> s.consecutiveFailures == Streak(events))
            && (Streak(events) > 0 ==> LastFailure(events).Some?)
  {
    if events != [] {
      StateIsHistory(config, events[..|events| - 1]);
      ReachableInv(config, events[..|events| - 1]);
    }
  }

  /**
   Told from the history alone: a call is refused exactly when the failures since the last success reach the threshold
   and either another call has already come after the open duration or this one comes before it has passed.
   */
  lemma RefusedExactlyByHistory(config: Config, events: seq<Event>, now: nat)
    ensures Step(config, Run(config, events), Allow(now)).1 == Refused <==>
            Streak(events) >= Threshold(config) && (CalledLate(config, events) || !Waited(config, events, now))
  {
    StateIsHistory(config, events);
    ReachableInv(config, events);
  }

  class CircuitBreaker {
    const config: Config
    var state: BreakerState
    var consecutiveFailures: nat
    var openedAt: Option<nat>
    var probeInFlight: bool

    function View(): Inner
      reads this
    {
      Inner(state, consecutiveFailures, openedAt, probeInFlight)
    }

    constructor (config: Config)
      ensures this.config == config && View() == FRESH
    {
      this.config := config;
      state, consecutiveFailures, openedAt, probeInFlight := Closed, 0, None, false;
    }

    method AllowRequest(now: nat) returns (admitted: bool)
      modifies this
      ensures View() == Step(config, old(View()), Allow(now)).0
      ensures admitted <==> Step(config, old(View()), Allow(now)).1 == Admitted
      ensures admitted <==>
              || old(state) == Closed
              || (old(state) == HalfOpen && !old(probeInFlight))
              || (old(state) == Open && old(openedAt).Some? &&
                    (config.openDuration == 0 || old(openedAt).value + config.openDuration <= now))
      ensures admitted && old(state) == Open ==> state == HalfOpen && probeInFlight
      ensures !admitted || old(state) != Open ==> state == old(state) && probeInFlight == old(probeInFlight)
      ensures openedAt == old(openedAt) && consecutiveFailures == old(consecutiveFailures)
    {
      match state
      case Closed => admitted := true;
      case HalfOpen => admitted := !probeInFlight;
      case Open =>
        var reopened := openedAt.Some? && Elapsed(openedAt.value, now) >= config.openDuration;
        if reopened {
          state := HalfOpen;
          probeInFlight := true;
          return true;
        }
        admitted := false;
    }

    method RecordSuccess()
      modifies this
      ensures forall now :: View() == Step(config, old(View()), Success(now)).0
      ensures state == Closed && consecutiveFailures == 0 && openedAt == None && !probeInFlight
    {
      state := Closed;
      consecutiveFailures := 0;
      openedAt := None;
      probeInFlight := false;
    }

    method RecordFailure(now: nat)
      modifies this
      ensures View() == Step(config, old(View()), Failure(now)).0
      ensures !probeInFlight
      ensures var failures := old(consecutiveFailures) + 1;
              if old(state) == HalfOpen then
                state == Open && openedAt == Some(now) && consecutiveFailures == old(consecutiveFailures)
              else
                && consecutiveFailures == failures
                && (failures >= config.failureThreshold ==> state == Open && openedAt == Some(now))
                && (failures < config.failureThreshold ==> state == old(state) && openedAt == old(openedAt))
    {
      probeInFlight := false;
      if state == HalfOpen {
        state := Open;
        openedAt := Some(now);
        return;
      }
      consecutiveFailures := consecutiveFailures + 1;
      if consecutiveFailures >= config.failureThreshold {
        state := Open;
        openedAt := Some(now);
      }
    }
  }
}

/** The handler breaker of `crates/lc-callbacks/src/circuit_breaker.rs`. */
module HandlerBreakers {
  import opened Common
  import opened AgentBreakers

  datatype State = StClosed(consecutiveFailures: nat) | StOpen(since: nat) | StHalfOpen

  datatype BreakerStatus = BreakerStatus(refused: nat, totalCalls: nat, trips: nat)

  datatype Handler = Handler(state: State, status: BreakerStatus)

  const FRESH_HANDLER := Handler(StClosed(0), BreakerStatus(0, 0, 0))

  /** `config` carries the requested threshold; the breaker trips at no less than one failure. */
  function HandlerStep(config: Config, h: Handler, e: Event): (Handler, Answer) {
    var st := h.status;
    match e
    case Allow(now) =>
      var counted := st.(totalCalls := st.totalCalls + 1);
      (match h.state
       case StClosed(_) => (h.(status := counted), Admitted)
       case StHalfOpen => (h.(status := counted), Admitted)
       case StOpen(since) =>
         if Elapsed(since, now) >= config.openDuration then (Handler(StHalfOpen, counted), Admitted)
         else (h.(status := counted.(refused := st.refused + 1)), Refused))
    case Success(_) => (if h.state.StOpen? then h else h.(state := StClosed(0)), Recorded)
    case Failure(now) =>
      var tripped := Handler(StOpen(now), st.(trips := st.trips + 1));
      (match h.state
       case StClosed(n) => if n + 1 >= Threshold(config) then tripped else h.(state := StClosed(n + 1))
       case StHalfOpen => tripped
       case StOpen(_) => h, Recorded)
  }

  function HandlerRun(config: Config, events: seq<Event>): Handler {
    if events == [] then FRESH_HANDLER
    else HandlerStep(config, HandlerRun(config, events[..|events| - 1]), events[|events| - 1]).0
  }

  function HandlerAnswers(config: Config, events: seq<Event>): (answers: seq<Answer>)
    ensures |answers| == |events|
  {
    if events == [] then []
    else
      var front := events[..|events| - 1];
      HandlerAnswers(config, front) + [HandlerStep(config, HandlerRun(config, front), events[|events| - 1]).1]
  }

  /** How often the state went from admitting calls to open. */
  function Openings(config: Config, events: seq<Event>): nat {
    if events == [] then 0
    else
      var front := events[..|events| - 1];
      var tripped := HandlerRun(config, events).state.StOpen? && !HandlerRun(config, front).state.StOpen?;
      Openings(config, front) + if tripped then 1 else 0
  }

  function Count(answers: seq<Answer>, a: Answer): nat {
    if answers == [] then 0
    else Count(answers[..|answers| - 1], a) + if answers[|answers| - 1] == a then 1 else 0
  }

  function CountAllows(events: seq<Event>): nat {
    if events == [] then 0
    else CountAllows(events[..|events| - 1]) + if events[|events| - 1].Allow? then 1 else 0
  }

  lemma StatusOfStep(config: Config, h: Handler, e: Event)
    ensures var (h', a) := HandlerStep(config, h, e);
            && h'.status.totalCalls == h.status.totalCalls + (if e.Allow? then 1 else 0)
            && h'.status.refused == h.status.refused + (if a == Refused then 1 else 0)
            && h'.status.trips == h.status.trips + (if h'.state.StOpen? && !h.state.StOpen? then 1 else 0)
  {
  }

  /** The counters are exact over every run; `trips` counts half-open probes that failed as well. */
  lemma {:induction false} StatusIsExact(config: Config, events: seq<Event>)
    ensures var st := HandlerRun(config, events).status;
            && st.totalCalls == CountAllows(events)
            && st.refused == Count(HandlerAnswers(config, events), Refused)
            && st.trips == Openings(config, events)
  {
    if events != [] {
      var front, e := events[..|events| - 1], events[|events| - 1];
      StatusIsExact(config, front);
      var h, answer := HandlerRun(config, front), HandlerStep(config, HandlerRun(config, front), e).1;
      assert HandlerAnswers(config, events)[..|front|] == HandlerAnswers(config, front);
      StatusOfStep(config, h, e);
    }
  }

  /** How often the breaker tripped open out of closed, as the field is documented. */
  function ClosedTrips(config: Config, events: seq<Event>): nat {
    if events == [] then 0
    else
      var front := events[..|events| - 1];
      var tripped := HandlerRun(config, events).state.StOpen? && HandlerRun(config, front).state.StClosed?;
      ClosedTrips(config, front) + if tripped then 1 else 0
  }

  /** How often a failure was reported to a half-open breaker. */
  function FailedProbes(config: Config, events: seq<Event>): nat {
    if events == [] then 0
    else
      var front := events[..|events| - 1];
      var failed := HandlerRun(config, front).state.StHalfOpen? && events[|events| - 1].Failure?;
      FailedProbes(config, front) + if failed then 1 else 0
  }

  /** No report of the run is a failure while the breaker is half-open. */
  predicate NoProbeFails(config: Config, events: seq<Event>) {
    events != [] ==>
      var front := events[..|events| - 1];
      && NoProbeFails(config, front)
      && !(HandlerRun(config, front).state.StHalfOpen? && events[|events| - 1].Failure?)
  }

  lemma TripsOfStep(config: Config, h: Handler, e: Event)
    ensures var h' := HandlerStep(config, h, e).0;
            h'.status.trips == h.status.trips + (if h'.state.StOpen? && h.state.StClosed? then 1 else 0)
                                              + (if h.state.StHalfOpen? && e.Failure? then 1 else 0)
  {
  }

  /**
   `trips` is the documented number plus the failed probes, so it is the documented number exactly as long as no
   failure is reported while the breaker is half-open.
   */
  lemma {:induction false} TripsAreDocumentedExactly(config: Config, events: seq<Event>)
    ensures var trips := HandlerRun(config, events).status.trips;
            && trips == ClosedTrips(config, events) + FailedProbes(config, events)
            && (trips == ClosedTrips(config, events) <==> NoProbeFails(config, events))
  {
    if events != [] {
      var front := events[..|events| - 1];
      TripsAreDocumentedExactly(config, front);
      TripsOfStep(config, HandlerRun(config, front), events[|events| - 1]);
    }
  }

  /** One trip out of closed and one failed probe: the field says two. */
  lemma FailedProbeIsCounted()
    ensures var config, events := Config(1, 0), [Failure(0), Allow(0), Failure(0)];
            HandlerRun(config, events).status.trips == 2 && ClosedTrips(config, events) == 1
  {
    var config, fail, call := Config(1, 0), Failure(0), Allow(0);
    assert [fail, call, fail][..2] == [fail, call] && [fail, call][..1] == [fail] && [fail][..0] == [];
    assert HandlerRun(config, [fail]).state == StOpen(0) && ClosedTrips(config, [fail]) == 1;
    assert HandlerRun(config, [fail, call]).state == StHalfOpen && ClosedTrips(config, [fail, call]) == 1;
  }

  class CircuitBreaker {
    const tripThreshold: Positive
    const cooldown: nat
    var state: State
    var status: BreakerStatus

    function Configured(): Config {
      Config(tripThreshold, cooldown)
    }

    function View(): Handler
      reads this
    {
      Handler(state, status)
    }

    constructor (config: Config)
      ensures Threshold(Configured()) == Threshold(config) && cooldown == config.openDuration
      ensures View() == FRESH_HANDLER
    {
      tripThreshold := if config.failureThreshold < 1 then 1 else config.failureThreshold;
      cooldown := config.openDuration;
      state, status := StClosed(0), BreakerStatus(0, 0, 0);
    }

    method AllowCall(now: nat) returns (admitted: bool)
      modifies this
      ensures View() == HandlerStep(Configured(), old(View()), Allow(now)).0
      ensures admitted <==> HandlerStep(Configured(), old(View()), Allow(now)).1 == Admitted
      ensures admitted <==>
              (old(state).StOpen? ==> cooldown == 0 || old(state).since + cooldown <= now)
      ensures state == if admitted && old(state).StOpen? then StHalfOpen else old(state)
      ensures status.totalCalls == old(status).totalCalls + 1 && status.trips == old(status).trips
      ensures status.refused == old(status).refused + if admitted then 0 else 1
    {
      status := status.(totalCalls := status.totalCalls + 1);
      match state
      case StClosed(_) => admitted := true;
      case StOpen(since) =>
        if Elapsed(since, now) >= cooldown {
          state := StHalfOpen;
          admitted := true;
        } else {
          status := status.(refused := status.refused + 1);
          admitted := false;
        }
      case StHalfOpen => admitted := true;
    }

    method RecordSuccess()
      modifies this
      ensures forall now :: View() == HandlerStep(Configured(), old(View()), Success(now)).0
      ensures status == old(status) && state == if old(state).StOpen? then old(state) else StClosed(0)
    {
      match state
      case StClosed(_) => state := StClosed(0);
      case StHalfOpen => state := StClosed(0);
      case StOpen(_) =>
    }

    method RecordFailure(now: nat)
      modifies this
      ensures View() == HandlerStep(Configured(), old(View()), Failure(now)).0
      ensures var trips := old(state).StHalfOpen? ||
                           (old(state).StClosed? && old(state).consecutiveFailures + 1 >= tripThreshold);
              && (trips ==> state == StOpen(now) && status == old(status).(trips := old(status).trips + 1))
              && (!trips ==> status == old(status))
              && (!trips && old(state).StClosed? ==> state == StClosed(old(state).consecutiveFailures + 1))
              && (old(state).StOpen? ==> state == old(state))
    {
      match state
      case StClosed(n) =>
        var next := n + 1;
        if next >= tripThreshold {
          status := status.(trips := status.trips + 1);
          state := StOpen(now);
        } else {
          state := StClosed(next);
        }
      case StHalfOpen =>
        status := status.(trips := status.trips + 1);
        state := StOpen(now);
      case StOpen(_) =>
    }
  }
}

/** The two breakers implement one protocol, as long as callers report what they were admitted for. */
module BreakerBisimulation {
  import opened Common
  import opened AgentBreakers
  import opened HandlerBreakers

  predicate Related(a: Inner, h: State) {
    match h
    case StClosed(n) => a.state == Closed && a.consecutiveFailures == n
    case StOpen(since) => a.state == Open && a.openedAt == Some(since)
    case StHalfOpen => a.state == HalfOpen
  }

  /** The events on which the two designs differ: a call beside a probe, and a late report into an open breaker. */
  predicate Differs(a: Inner, e: Event) {
    match e
    case Allow(_) => a.state == HalfOpen
    case Success(_) => a.state == Open
    case Failure(now) => a.state == Open && a.openedAt != Some(now)
  }

  /** From related reachable states one event keeps answers and states together iff it is not one of those. */
  lemma StepsAgreeExactly(config: Config, a: Inner, h: Handler, e: Event)
    requires Inv(config, a) && Related(a, h.state)
    ensures var (a', x) := Step(config, a, e);
            var (h', y) := HandlerStep(config, h, e);
            (x == y && Related(a', h'.state)) <==> !Differs(a, e)
  {
  }

  function Answers(config: Config, events: seq<Event>): (answers: seq<Answer>)
    ensures |answers| == |events|
  {
    if events == [] then []
    else
      var front := events[..|events| - 1];
      Answers(config, front) + [Step(config, Run(config, front), events[|events| - 1]).1]
  }

  /** The breakers agree after every event of the run, in their answers and in their states. */
  predicate AgreeThroughout(config: Config, events: seq<Event>) {
    && Related(Run(config, events), HandlerRun(config, events).state)
    && (events != [] ==>
          var front, e := events[..|events| - 1], events[|events| - 1];
          && AgreeThroughout(config, front)
          && Step(config, Run(config, front), e).1 == HandlerStep(config, HandlerRun(config, front), e).1)
  }

  /** No event of the run is one on which the designs differ. */
  predicate NeverDiffers(config: Config, events: seq<Event>) {
    events != [] ==>
      var front := events[..|events| - 1];
      NeverDiffers(config, front) && !Differs(Run(config, front), events[|events| - 1])
  }

  /** Over whole runs: the breakers agree throughout exactly when no event is one on which the designs differ. */
  lemma {:induction false} RunsAgreeExactly(config: Config, events: seq<Event>)
    ensures AgreeThroughout(config, events) <==> NeverDiffers(config, events)
  {
    if events != [] {
      var front := events[..|events| - 1];
      RunsAgreeExactly(config, front);
      ReachableInv(config, front);
      if AgreeThroughout(config, front) {
        StepsAgreeExactly(config, Run(config, front), HandlerRun(config, front), events[|events| - 1]);
      }
    }
  }

  /** A call that was admitted still owes its report. */
  predicate Owing(config: Config, events: seq<Event>) {
    events != [] && Answers(config, events)[|events| - 1] == Admitted
  }

  /** Every admitted call reports exactly once before the next call. */
  ghost predicate Disciplined(config: Config, events: seq<Event>) {
    events != [] ==>
      var front := events[..|events| - 1];
      && Disciplined(config, front)
      && (events[|events| - 1].Allow? <==> !Owing(config, front))
  }

  /** Under the discipline the two breakers admit the same calls and stay in the same state. */
  lemma {:induction false} Bisimilar(config: Config, events: seq<Event>)
    requires Disciplined(config, events)
    ensures Answers(config, events) == HandlerAnswers(config, events)
    ensures Related(Run(config, events), HandlerRun(config, events).state)
    ensures Owing(config, events) ==> Run(config, events).state != Open
    ensures !Owing(config, events) ==> Run(config, events).state != HalfOpen
  {
    if events != [] {
      var front, e := events[..|events| - 1], events[|events| - 1];
      Bisimilar(config, front);
      ReachableInv(config, front);
      StepsAgreeExactly(config, Run(config, front), HandlerRun(config, front), e);
    }
  }

  /** Without it they part: a second call beside the probe is refused by one and admitted by the other. */
  lemma UndisciplinedRunsPart()
    ensures var config, events := Config(1, 0), [Allow(0), Failure(0), Allow(0), Allow(0)];
            Answers(config, events)[3] == Refused && HandlerAnswers(config, events)[3] == Admitted
  {
  }
}
