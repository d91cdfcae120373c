/**
 Durations of the standard library: whole nanoseconds, at most 2^64 seconds less one nanosecond.
 */
module Durations {
  import opened Common

  const U32: nat := 0x1_0000_0000
  const U64: nat := 0x1_0000_0000_0000_0000
  const DURATION_MAX: nat := U64 * 1_000_000_000 - 1

  type Duration = d: nat | d <= DURATION_MAX

  function CheckedMul(d: Duration, k: nat): Option<Duration> {
    if d * k > DURATION_MAX then None else Some(d * k)
  }

  function SaturatingMul(d: Duration, k: nat): Duration {
    if d * k > DURATION_MAX then DURATION_MAX else d * k
  }

  function Pow2(n: nat): (r: nat)
    ensures r >= 1
  {
    if n == 0 then 1 else 2 * Pow2(n - 1)
  }

  lemma {:induction false} Pow2Grows(m: nat, n: nat)
    requires m <= n
    ensures Pow2(m) <= Pow2(n)
    decreases n - m
  {
    if m < n {
      Pow2Grows(m + 1, n);
    }
  }

  lemma ProductGrows(d: nat, j: nat, k: nat)
    requires j <= k
    ensures d * j <= d * k
  {
  }
}

/**
 The retry loop of `crates/lc-core/src/http.rs`: `execute`, `wait` and the backoff they use. What the network, the
 clock, the cancel token and the entropy source do is an arbitrary script, one entry an attempt.
 */
module HttpRetries {
  import opened Common
  import opened Durations

  datatype Method = Get | Head | Options | Trace | Post | Put | Patch | Delete | Connect | Extension(name: string) {
    /** The safe methods of section 9.2.1 of RFC 9110. */
    predicate IsSafe() {
      Get? || Head? || Options? || Trace?
    }
  }

  datatype TransportRetryMode = AllTransportErrors | PreDispatchOnly

  datatype RetryPolicy = RetryPolicy(
    maxAttempts: nat, baseDelay: Duration, maxDelay: Duration, transport: TransportRetryMode)

  datatype Reply =
    | NoReply
    | Answered(status: nat, retryAfter: Option<Duration>)
    | Failed(isConnect: bool, isTimeout: bool, isRequest: bool)

  /**
   What happens to one attempt: whether it finds the request cancelled, how long it takes to look at the clock, the
   reply and how long it takes (`NoReply`: the deadline came first), the entropy of its backoff, whether the sleep is
   cancelled, and by how much it runs over.
   */
  datatype Attempt = Attempt(
    cancelled: bool, lead: nat, reply: Reply, took: nat, entropy: nat, cancelledAsleep: bool, overrun: nat)

  type Script = nat -> Attempt

  /** One request: its policy, method and per-request override, and the start of its clock. */
  datatype Call = Call(
    policy: RetryPolicy, verb: Method, override: Option<TransportRetryMode>, start: nat, totalTimeout: Duration) {
    function Deadline(): nat {
      start + totalTimeout
    }

    /** The attempts there may be: at least one. */
    function Limit(): nat {
      Max(1, policy.maxAttempts)
    }
  }

  datatype Outcome = Responded(status: nat) | Cancelled | TimedOut | TransportError | Panicked

  /** What a run did: its outcome, when it sent the request, and how long each sleep was meant to be. */
  datatype Log = Log(outcome: Outcome, sends: seq<nat>, naps: seq<nat>)

  // ---------- Classification ----------

  predicate IsRetryableStatus(status: nat) {
    status in {408, 429, 500, 502, 503, 504}
  }

  function EffectiveRetryMode(c: Call): TransportRetryMode {
    match c.override
    case Some(mode) => mode
    case None => if c.verb.IsSafe() then c.policy.transport else PreDispatchOnly
  }

  predicate IsRetryableTransport(reply: Reply, mode: TransportRetryMode)
    requires reply.Failed?
  {
    reply.isConnect || (mode == AllTransportErrors && (reply.isTimeout || reply.isRequest))
  }

  predicate IsRetryable(c: Call, reply: Reply) {
    match reply
    case NoReply => false
    case Answered(status, _) => IsRetryableStatus(status)
    case Failed(_, _, _) => IsRetryableTransport(reply, EffectiveRetryMode(c))
  }

  // ---------- Backoff ----------

  /** The largest delay a backoff may have, without any overflow. */
  function Cap(attempt: nat, p: RetryPolicy): (r: Duration)
  {
    var uncapped := p.baseDelay * Pow2(Min(attempt % U32, 31));
    if uncapped < p.maxDelay then uncapped else p.maxDelay
  }

  /** `None` is the panic of a remainder by zero. */
  function ComputeBackoff(attempt: nat, p: RetryPolicy, entropy: nat): Option<Duration> {
    var multiplier := Pow2(Min(attempt % U32, 31));
    var uncapped := match CheckedMul(p.baseDelay, multiplier) case Some(d) => d case None => p.maxDelay;
    var cap := if uncapped < p.maxDelay then uncapped else p.maxDelay;
    if cap == 0 then Some(0) else if cap % U64 == 0 then None else Some(entropy % (cap % U64))
  }

  /** An overflowing product is at least the largest delay, so falling back to the latter loses nothing. */
  lemma BackoffUsesTheCap(attempt: nat, p: RetryPolicy, entropy: nat)
    ensures var cap := Cap(attempt, p);
            ComputeBackoff(attempt, p, entropy) ==
              if cap == 0 then Some(0) else if cap % U64 == 0 then None else Some(entropy % (cap % U64))
  {
  }

  /**
   The backoffs some entropy yields are exactly those below the cap, taken modulo 2^64 nanoseconds: the cap itself is
   never reached. It panics exactly when that remainder is zero for a cap that is not.
   */
  lemma BackoffRange(attempt: nat, p: RetryPolicy, d: Duration)
    ensures var cap := Cap(attempt, p);
            (exists e: nat :: e < U64 && ComputeBackoff(attempt, p, e) == Some(d)) <==>
            (if cap == 0 then d == 0 else d < cap % U64)
  {
    var cap := Cap(attempt, p);
    BackoffUsesTheCap(attempt, p, d);
    if cap == 0 {
      BackoffUsesTheCap(attempt, p, 0);
      assert ComputeBackoff(attempt, p, 0) == Some(0);
    } else if d < cap % U64 {
      SmallRemainder(d, cap % U64);
      assert ComputeBackoff(attempt, p, d) == Some(d);
    }
    forall e: nat | e < U64 && ComputeBackoff(attempt, p, e) == Some(d)
      ensures if cap == 0 then d == 0 else d < cap % U64
    {
      BackoffUsesTheCap(attempt, p, e);
    }
  }

  lemma SmallRemainder(d: nat, m: nat)
    requires d < m
    ensures d % m == d
  {
  }

  lemma BackoffPanicsExactly(attempt: nat, p: RetryPolicy, entropy: nat)
    ensures var cap := Cap(attempt, p);
            ComputeBackoff(attempt, p, entropy).None? <==> cap > 0 && cap % U64 == 0
    ensures ComputeBackoff(attempt, p, entropy).Some? ==> ComputeBackoff(attempt, p, entropy).value <= Cap(attempt, p)
    ensures p.maxDelay < U64 ==> ComputeBackoff(attempt, p, entropy).Some?
  {
  }

  /** The cap doubles with the attempt up to the largest delay, as long as the attempt fits 32 bits. */
  lemma CapGrows(i: nat, j: nat, p: RetryPolicy)
    requires i <= j < U32
    ensures Cap(i, p) <= Cap(j, p)
  {
    SmallRemainder(i, U32);
    SmallRemainder(j, U32);
    Pow2Grows(Min(i, 31), Min(j, 31));
    ProductGrows(p.baseDelay, Pow2(Min(i, 31)), Pow2(Min(j, 31)));
  }

  lemma Doubled(base: nat, p: nat)
    ensures base * (2 * p) == 2 * (base * p)
  {
  }

  /** The cap starts at the base delay, doubles up to the largest delay, and is the same from the 32nd attempt on. */
  lemma CapDoubles(k: nat, p: RetryPolicy)
    requires k + 1 < U32
    ensures Cap(0, p) == Min(p.baseDelay, p.maxDelay)
    ensures Cap(k + 1, p) == if k < 31 then Min(2 * Cap(k, p), p.maxDelay) else Cap(k, p)
  {
    SmallRemainder(k, U32);
    SmallRemainder(k + 1, U32);
    SmallRemainder(0, U32);
    assert Pow2(0) == 1;
    if k < 31 {
      Doubled(p.baseDelay, Pow2(k));
    }
  }

  // ---------- One request ----------

  /** The clock when attempt `k` begins, if it comes to that. */
  function StartOf(c: Call, script: Script, k: nat): nat
    decreases k, 2
  {
    if k == 0 then c.start else WaitFrom(c, script, k - 1) + SleepFor(c, script, k - 1) + script(k - 1).overrun
  }

  function SentAt(c: Call, script: Script, k: nat): nat
    decreases k, 3
  {
    StartOf(c, script, k) + script(k).lead
  }

  /** The clock when the wait after attempt `k` begins. */
  function WaitFrom(c: Call, script: Script, k: nat): nat
    decreases k, 4
  {
    SentAt(c, script, k) + script(k).took
  }

  function AskedFor(reply: Reply): Option<Duration> {
    if reply.Answered? then reply.retryAfter else None
  }

  function RetryAfter(reply: Reply): nat {
    if AskedFor(reply).Some? then AskedFor(reply).value else 0
  }

  /** The sleep after attempt `k`: what the server asked for or the backoff, and no more than is left. */
  function SleepFor(c: Call, script: Script, k: nat): nat
    decreases k, 5
  {
    var backoff := match ComputeBackoff(k, c.policy, script(k).entropy) case Some(d) => d case None => 0;
    var left := if WaitFrom(c, script, k) < c.Deadline() then c.Deadline() - WaitFrom(c, script, k) else 0;
    Min(Max(RetryAfter(script(k).reply), backoff), left)
  }

  /** Attempt `k` gets to send the request. */
  predicate Sends(c: Call, script: Script, k: nat) {
    !script(k).cancelled && SentAt(c, script, k) <= c.Deadline()
  }

  /** Attempt `k` turns to the wait. */
  predicate Retries(c: Call, script: Script, k: nat) {
    Sends(c, script, k) && IsRetryable(c, script(k).reply) && k + 1 < c.policy.maxAttempts
  }

  /** Attempt `k` comes out of the wait, and the next one begins. */
  predicate Passes(c: Call, script: Script, k: nat) {
    && Retries(c, script, k)
    && ComputeBackoff(k, c.policy, script(k).entropy).Some?
    && WaitFrom(c, script, k) < c.Deadline()
    && !script(k).cancelledAsleep
  }

  /** The outcome of the attempt that is the last. */
  function Verdict(c: Call, script: Script, k: nat): Outcome {
    var e := script(k);
    if e.cancelled then Cancelled
    else if !Sends(c, script, k) || e.reply.NoReply? then TimedOut
    else if Retries(c, script, k) then
      if ComputeBackoff(k, c.policy, e.entropy).None? then Panicked
      else if WaitFrom(c, script, k) >= c.Deadline() then TimedOut
      else Cancelled
    else if e.reply.Answered? then Responded(e.reply.status)
    else if e.reply.isTimeout then TimedOut
    else TransportError
  }

  /** `log` is what the request does under `script`: attempts pass until one does not. */
  ghost predicate Explains(c: Call, script: Script, log: Log) {
    var n := |log.naps|;
    && (forall j | 0 <= j < n :: Passes(c, script, j) && log.naps[j] == SleepFor(c, script, j))
    && !Passes(c, script, n)
    && log.outcome == Verdict(c, script, n)
    && |log.sends| == (if Sends(c, script, n) then n + 1 else n)
    && (forall j | 0 <= j < |log.sends| :: log.sends[j] == SentAt(c, script, j))
  }

  datatype WaitResult = Woke(now: nat, slept: nat) | Stopped(outcome: Outcome)

  /** The wait after attempt `k`, begun at `from` with the delay the server asked for, if it did. */
  method Wait(c: Call, script: Script, k: nat, retryAfter: Option<Duration>, from: nat) returns (r: WaitResult)
    requires Retries(c, script, k) && from == WaitFrom(c, script, k)
    requires retryAfter == AskedFor(script(k).reply)
    ensures r == if Passes(c, script, k) then Woke(StartOf(c, script, k + 1), SleepFor(c, script, k))
                 else Stopped(Verdict(c, script, k))
  {
    var backoff := ComputeBackoff(k, c.policy, script(k).entropy);
    if backoff.None? {
      return Stopped(Panicked);
    }
    var delay := match retryAfter case Some(ra) => Max(ra, backoff.value) case None => backoff.value;
    var remaining := if from <= c.Deadline() then c.Deadline() - from else 0;
    if remaining == 0 {
      return Stopped(TimedOut);
    }
    var sleepFor := Min(delay, remaining);
    if script(k).cancelledAsleep {
      return Stopped(Cancelled);
    }
    r := Woke(from + sleepFor + script(k).overrun, sleepFor);
  }

  /** The first `n` attempts passed, with these sends and sleeps. */
  ghost predicate SoFar(c: Call, script: Script, n: nat, sends: seq<nat>, naps: seq<nat>) {
    && |sends| == |naps| == n
    && forall j | 0 <= j < n ::
         Passes(c, script, j) && naps[j] == SleepFor(c, script, j) && sends[j] == SentAt(c, script, j)
  }

  lemma GoesOn(c: Call, script: Script, n: nat, sends: seq<nat>, naps: seq<nat>)
    requires SoFar(c, script, n, sends, naps) && Passes(c, script, n)
    ensures SoFar(c, script, n + 1, sends + [SentAt(c, script, n)], naps + [SleepFor(c, script, n)])
  {
  }

  lemma Ends(c: Call, script: Script, n: nat, sends: seq<nat>, naps: seq<nat>)
    requires SoFar(c, script, n, sends, naps) && !Passes(c, script, n)
    ensures !Sends(c, script, n) ==> Explains(c, script, Log(Verdict(c, script, n), sends, naps))
    ensures Sends(c, script, n) ==>
              Explains(c, script, Log(Verdict(c, script, n), sends + [SentAt(c, script, n)], naps))
  {
  }

  datatype SendResult =
    | NotSent(outcome: Outcome)
    | Settled(outcome: Outcome, at: nat)
    | Unsettled(retryAfter: Option<Duration>, at: nat, now: nat)

  /** One turn of the loop up to the wait: the checks before the request, the request and what its reply comes to. */
  method Send(c: Call, script: Script, k: nat, start: nat) returns (r: SendResult)
    requires start == StartOf(c, script, k)
    ensures r == if !Sends(c, script, k) then NotSent(Verdict(c, script, k))
                 else if !Retries(c, script, k) then Settled(Verdict(c, script, k), SentAt(c, script, k))
                 else Unsettled(AskedFor(script(k).reply), SentAt(c, script, k), WaitFrom(c, script, k))
  {
    if script(k).cancelled {
      return NotSent(Cancelled);
    }
    var at := start + script(k).lead;
    if at > c.Deadline() {
      return NotSent(TimedOut);
    }
    var mayRetry := k + 1 < c.policy.maxAttempts;
    match script(k).reply {
      case NoReply =>
        return Settled(TimedOut, at);
      case Answered(status, retryAfter) =>
        if mayRetry && IsRetryableStatus(status) {
          return Unsettled(retryAfter, at, at + script(k).took);
        }
        return Settled(Responded(status), at);
      case Failed(_, isTimeout, _) =>
        if mayRetry && IsRetryableTransport(script(k).reply, EffectiveRetryMode(c)) {
          return Unsettled(None, at, at + script(k).took);
        }
        return Settled(if isTimeout then TimedOut else TransportError, at);
    }
  }

  /** The loop of the client: every way out is a return. */
  method Execute(c: Call, script: Script) returns (log: Log)
    ensures Explains(c, script, log)
  {
    var attempt, now := 0, c.start;
    var sends: seq<nat>, naps: seq<nat> := [], [];
    while true
      invariant now == StartOf(c, script, attempt) && attempt < c.Limit()
      invariant SoFar(c, script, attempt, sends, naps)
      decreases c.Limit() - attempt
    {
      var sent := Send(c, script, attempt, now);
      if !sent.Unsettled? {
        Ends(c, script, attempt, sends, naps);
        return Log(sent.outcome, if sent.Settled? then sends + [sent.at] else sends, naps);
      }
      var woke := Wait(c, script, attempt, sent.retryAfter, sent.now);
      if woke.Stopped? {
        Ends(c, script, attempt, sends, naps);
        return Log(woke.outcome, sends + [sent.at], naps);
      }
      GoesOn(c, script, attempt, sends, naps);
      sends, naps := sends + [sent.at], naps + [woke.slept];
      now := woke.now;
      attempt := attempt + 1;
    }
  }

  // ---------- What every run keeps ----------

  lemma StopIsUnique(c: Call, script: Script, m: nat, n: nat)
    requires !Passes(c, script, m) && forall j | 0 <= j < n :: Passes(c, script, j)
    ensures n <= m
  {
  }

  /** A script allows one run only. */
  lemma RunIsUnique(c: Call, script: Script, a: Log, b: Log)
    requires Explains(c, script, a) && Explains(c, script, b)
    ensures a == b
  {
  }

  /** The request is never sent more often than the policy says, nor after the deadline. */
  lemma SendsAreBounded(c: Call, script: Script, log: Log)
    requires Explains(c, script, log)
    ensures |log.sends| <= Max(1, c.policy.maxAttempts)
    ensures forall j :: 0 <= j < |log.sends| ==> log.sends[j] <= c.start + c.totalTimeout
  {
    var n := |log.naps|;
    if n > 0 {
      assert Passes(c, script, n - 1);
    }
    forall j | 0 <= j < |log.sends|
      ensures log.sends[j] <= c.start + c.totalTimeout
    {
      SentInTime(c, script, log, j);
    }
  }

  lemma SentInTime(c: Call, script: Script, log: Log, j: nat)
    requires Explains(c, script, log) && j < |log.sends|
    ensures log.sends[j] == SentAt(c, script, j) <= c.Deadline()
  {
    assert j < |log.naps| ==> Passes(c, script, j);
  }

  /**
   A request is sent again only after a status that may pass or a transport failure. A method that is not safe, with no
   override, is sent again only after such a status or when the connection was never made.
   */
  lemma ResendsAreJustified(c: Call, script: Script, log: Log, j: nat)
    requires Explains(c, script, log) && j + 1 < |log.sends|
    ensures var reply := script(j).reply;
            || (reply.Answered? && reply.status in {408, 429, 500, 502, 503, 504})
            || (reply.Failed? && (reply.isConnect || reply.isTimeout || reply.isRequest))
    ensures !c.verb.IsSafe() && c.override.None? ==>
              script(j).reply.Answered? || (script(j).reply.Failed? && script(j).reply.isConnect)
  {
    assert Passes(c, script, j);
  }

  /**
   Between an answer and the next request lies at least the delay the server asked for (section 10.2.3 of RFC 9110),
   unless the next request goes out at the deadline itself.
   */
  lemma RetryAfterIsHonoured(c: Call, script: Script, log: Log, j: nat)
    requires Explains(c, script, log) && j + 1 < |log.sends|
    ensures || log.sends[j + 1] >= log.sends[j] + script(j).took + RetryAfter(script(j).reply)
            || log.sends[j + 1] == c.Deadline()
    ensures script(j).reply.Answered? ==> RetryAfter(script(j).reply) ==
                                          match script(j).reply.retryAfter case Some(d) => d case None => 0
  {
    SentInTime(c, script, log, j);
    SentInTime(c, script, log, j + 1);
    assert Passes(c, script, j);
    assert log.naps[j] == SleepFor(c, script, j);
    assert StartOf(c, script, j + 1) == WaitFrom(c, script, j) + SleepFor(c, script, j) + script(j).overrun;
  }

  /** The sleeps of a request together fit its total timeout. */
  lemma SleepsFitTheBudget(c: Call, script: Script, log: Log)
    requires Explains(c, script, log)
    ensures Total(log.naps) <= c.totalTimeout
  {
    SleepsFit(c, script, log.naps);
  }

  lemma {:induction false} SleepsFit(c: Call, script: Script, naps: seq<nat>)
    requires forall j | 0 <= j < |naps| :: Passes(c, script, j) && naps[j] == SleepFor(c, script, j)
    ensures c.start + Total(naps) <= StartOf(c, script, |naps|) && Total(naps) <= c.totalTimeout
  {
    if naps != [] {
      var n := |naps| - 1;
      SleepsFit(c, script, naps[..n]);
      assert Passes(c, script, n);
    }
  }

  /** With nothing asked for by the server, a sleep is a backoff: no longer than the cap of its attempt. */
  lemma BackoffSleepsAreCapped(c: Call, script: Script, log: Log, j: nat)
    requires Explains(c, script, log) && j < |log.naps| && RetryAfter(script(j).reply) == 0
    ensures log.naps[j] <= Cap(j, c.policy)
  {
    assert Passes(c, script, j);
    BackoffPanicsExactly(j, c.policy, script(j).entropy);
  }

  /** A status that may pass, or a failure of the kind that may be tried again under the policy or its override. */
  predicate WorthRepeating(c: Call, reply: Reply) {
    match reply
    case NoReply => false
    case Answered(status, _) => status in {408, 429, 500, 502, 503, 504}
    case Failed(isConnect, isTimeout, isRequest) =>
      || isConnect
      || ((isTimeout || isRequest) && c.override == Some(AllTransportErrors))
      || ((isTimeout || isRequest) && c.override.None? && c.verb in {Get, Head, Options, Trace}
          && c.policy.transport == AllTransportErrors)
  }

  /** An attempt turns to the wait exactly when it was sent in time, its reply is worth it and attempts are left. */
  lemma RetriesExactly(c: Call, script: Script, k: nat)
    ensures Retries(c, script, k) <==>
            && !script(k).cancelled && SentAt(c, script, k) <= c.start + c.totalTimeout
            && WorthRepeating(c, script(k).reply) && k + 1 < c.policy.maxAttempts
  {
  }

  /** There is a next attempt exactly when the wait comes to its end: in time, not cancelled and without the panic. */
  lemma GoesOnExactly(c: Call, script: Script, log: Log, j: nat)
    requires Explains(c, script, log) && j <= |log.naps|
    ensures j < |log.naps| <==>
            && Retries(c, script, j) && !script(j).cancelledAsleep
            && SentAt(c, script, j) + script(j).took < c.start + c.totalTimeout
            && ComputeBackoff(j, c.policy, script(j).entropy).Some?
  {
    assert j < |log.naps| ==> Passes(c, script, j);
  }

  /** The clock of a run adds up: each send comes a reply, a sleep and what they take over after the one before. */
  lemma ClockAddsUp(c: Call, script: Script, log: Log, j: nat)
    requires Explains(c, script, log) && j < |log.sends|
    ensures j == 0 ==> log.sends[j] == c.start + script(0).lead
    ensures j > 0 ==> j - 1 < |log.naps| && log.sends[j] ==
                      log.sends[j - 1] + script(j - 1).took + log.naps[j - 1] + script(j - 1).overrun + script(j).lead
  {
    assert log.sends[j] == SentAt(c, script, j);
    if j > 0 {
      assert log.sends[j - 1] == SentAt(c, script, j - 1);
      assert log.naps[j - 1] == SleepFor(c, script, j - 1);
    }
  }

  /** A sleep is the longer of the two delays, or ends at the deadline if that comes first. */
  lemma SleepsExactly(c: Call, script: Script, log: Log, j: nat)
    requires Explains(c, script, log) && j < |log.naps|
    ensures j < |log.sends| && ComputeBackoff(j, c.policy, script(j).entropy).Some?
    ensures var asked := match script(j).reply case Answered(_, Some(d)) => d case _ => 0;
            var wanted := Max(asked, ComputeBackoff(j, c.policy, script(j).entropy).value);
            var from := log.sends[j] + script(j).took;
            || (log.naps[j] == wanted && from + wanted <= c.start + c.totalTimeout)
            || (log.naps[j] < wanted && from + log.naps[j] == c.start + c.totalTimeout)
  {
    assert Passes(c, script, j) && log.naps[j] == SleepFor(c, script, j);
    assert log.sends[j] == SentAt(c, script, j);
  }

  /** How a run ends when no response comes back, told from its last attempt. */
  lemma EndsExactly(c: Call, script: Script, log: Log)
    requires Explains(c, script, log)
    ensures var n := |log.naps|;
            var e, waits, backoff :=
              script(n), Retries(c, script, n), ComputeBackoff(n, c.policy, script(n).entropy);
            var late := SentAt(c, script, n) > c.start + c.totalTimeout;
            var tooLate := SentAt(c, script, n) + e.took >= c.start + c.totalTimeout;
            && (log.outcome == Panicked <==> waits && backoff.None?)
            && (log.outcome == Cancelled <==> e.cancelled || (waits && backoff.Some? && !tooLate))
            && (log.outcome == TransportError <==>
                !e.cancelled && !late && !waits && e.reply.Failed? && !e.reply.isTimeout)
            && (log.outcome == TimedOut <==>
                && !e.cancelled
                && (late || e.reply.NoReply? || (waits && backoff.Some? && tooLate)
                    || (!waits && e.reply.Failed? && e.reply.isTimeout)))
  {
  }

  /** Exactly when a response comes back, and with which status. */
  lemma RespondsExactly(c: Call, script: Script, log: Log, status: nat)
    requires Explains(c, script, log)
    ensures log.outcome == Responded(status) <==>
            exists n: nat :: AnswersAt(c, script, n, status)
  {
    var n := |log.naps|;
    if log.outcome == Responded(status) {
      assert AnswersAt(c, script, n, status);
    }
    forall m: nat | AnswersAt(c, script, m, status)
      ensures m == n
    {
      StopIsUnique(c, script, n, m);
      StopIsUnique(c, script, m, n);
    }
  }

  /** Every attempt before `n` passed, and attempt `n` got a final answer: not retryable, or the last allowed. */
  ghost predicate AnswersAt(c: Call, script: Script, n: nat, status: nat) {
    && (forall j | 0 <= j < n :: Passes(c, script, j))
    && !script(n).cancelled && SentAt(c, script, n) <= c.Deadline()
    && script(n).reply.Answered? && script(n).reply.status == status
    && (status !in {408, 429, 500, 502, 503, 504} || n + 1 >= c.policy.maxAttempts)
  }

  /** The arithmetic panic of the backoff cannot be met with a largest delay below 2^64 nanoseconds, some 584 years. */
  lemma NoPanicBelow584Years(c: Call, script: Script, log: Log)
    requires Explains(c, script, log) && c.policy.maxDelay < U64
    ensures log.outcome != Panicked
  {
    BackoffPanicsExactly(|log.naps|, c.policy, script(|log.naps|).entropy);
  }

  /** A largest delay of exactly 2^64 nanoseconds, and a base delay that reaches it at once. */
  const PANICKING := RetryPolicy(2, U64, U64, PreDispatchOnly)

  /** Above that bound it can: under this policy the first retryable answer ends in the panic, whatever the entropy. */
  lemma PanicExists(entropy: nat)
    ensures var c := Call(PANICKING, Get, None, 0, 1);
            var script := (k: nat) => Attempt(false, 0, Answered(503, None), 0, entropy, false, 0);
            Cap(0, PANICKING) == U64 && Explains(c, script, Log(Panicked, [0], []))
  {
    assert Pow2(0) == 1;
    BackoffPanicsExactly(0, PANICKING, entropy);
  }
}
