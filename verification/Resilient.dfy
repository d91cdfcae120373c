/**
 The resilient client of `crates/lc-a2a/src/resilient.rs`: retries on one agent with exponential backoff, then the
 fallback agents in order. What the agents answer is an arbitrary script over the agent and the attempt.
 */
module ResilientClients {
  import opened Common
  import opened Durations

  datatype A2AError =
    | Http(message: string)
    | Parse(message: string)
    | Api(code: int, message: string)
    | Timeout(message: string)
    | Signature(message: string)
    | InputRequired(taskId: string, message: string)
    | NoRoute(message: string)

  type Reply = Result<string, A2AError>

  /** The reply of agent `0` (the primary), `1`, ... to its attempt `0`, `1`, ... */
  type Script = (nat, nat) -> Reply

  datatype ResilienceConfig = ResilienceConfig(maxTransportRetries: nat, retryBaseDelay: Duration)

  predicate IsTransient(e: A2AError) {
    e.Http? || e.Timeout?
  }

  predicate ShouldFallback(e: A2AError) {
    !(e.Parse? || e.Signature? || e.InputRequired?)
  }

  // ---------- Retries on one agent ----------

  /** Powers of two in 32 bits, stuck at the largest number. */
  function SaturatingPow2(exponent: nat): nat {
    if exponent < 32 then Pow2(exponent) else U32 - 1
  }

  function Delay(base: Duration, attempt: nat): Duration {
    SaturatingMul(base, SaturatingPow2(attempt % U32))
  }

  /** Attempt `a` fails in a way that is tried again. */
  predicate TriedAgain(script: Script, client: nat, maxRetries: nat, a: nat) {
    a < maxRetries && script(client, a).Err? && IsTransient(script(client, a).error)
  }

  /** The reply of the last attempt on one agent, the sleeps between its attempts and the message ids they carried. */
  datatype Tries = Tries(reply: Reply, naps: seq<nat>, carried: seq<string>)

  ghost predicate ExplainsTries(script: Script, client: nat, maxRetries: nat, base: Duration, mid: string, t: Tries) {
    var n := |t.naps|;
    && (forall a | 0 <= a < n :: TriedAgain(script, client, maxRetries, a) && t.naps[a] == Delay(base, a))
    && !TriedAgain(script, client, maxRetries, n) && n <= maxRetries
    && t.reply == script(client, n)
    && |t.carried| == n + 1 && forall a | 0 <= a <= n :: t.carried[a] == mid
  }

  /** `mid` is what the operation captured: it is the same at every call. */
  method RetryOn(script: Script, client: nat, maxRetries: nat, base: Duration, mid: string) returns (t: Tries)
    ensures ExplainsTries(script, client, maxRetries, base, mid, t)
  {
    var naps: seq<nat>, carried: seq<string> := [], [];
    for attempt := 0 to maxRetries + 1
      invariant |naps| == |carried| == attempt && forall a | 0 <= a < attempt :: carried[a] == mid
      invariant attempt > 0 ==> TriedAgain(script, client, maxRetries, attempt - 1)
      invariant forall a | 0 <= a < attempt :: TriedAgain(script, client, maxRetries, a) && naps[a] == Delay(base, a)
    {
      var reply := script(client, attempt);
      carried := carried + [mid];
      match reply
      case Ok(_) => return Tries(reply, naps, carried);
      case Err(e) =>
        if attempt < maxRetries && IsTransient(e) {
          naps := naps + [Delay(base, attempt)];
        } else {
          return Tries(reply, naps, carried);
        }
    }
    assert false;
  }

  lemma StopIsUnique(script: Script, client: nat, maxRetries: nat, m: nat, n: nat)
    requires !TriedAgain(script, client, maxRetries, m)
    requires forall a | 0 <= a < n :: TriedAgain(script, client, maxRetries, a)
    ensures n <= m
  {
  }

  /** The agent ends in `reply` at its attempt `a`: every attempt before it failed transiently. */
  ghost predicate EndsIn(script: Script, client: nat, maxRetries: nat, a: nat, reply: Reply) {
    && a <= maxRetries
    && (forall b | 0 <= b < a :: script(client, b).Err? && IsTransient(script(client, b).error))
    && script(client, a) == reply
    && (reply.Ok? || !IsTransient(reply.error) || a == maxRetries)
  }

  /** Exactly one attempt is the one an agent ends in. */
  lemma TriesEndExactly(script: Script, client: nat, maxRetries: nat, base: Duration, mid: string, t: Tries,
                        a: nat, reply: Reply)
    requires ExplainsTries(script, client, maxRetries, base, mid, t)
    ensures EndsIn(script, client, maxRetries, a, reply) <==> a == |t.naps| && reply == t.reply
  {
    if EndsIn(script, client, maxRetries, a, reply) {
      forall b | 0 <= b < a
        ensures TriedAgain(script, client, maxRetries, b)
      {
        assert script(client, b).Err?;
      }
      StopIsUnique(script, client, maxRetries, a, |t.naps|);
      StopIsUnique(script, client, maxRetries, |t.naps|, a);
    }
    forall b | 0 <= b < |t.naps|
      ensures script(client, b).Err? && IsTransient(script(client, b).error)
    {
      assert TriedAgain(script, client, maxRetries, b);
    }
  }

  /** An attempt is followed by another on the same agent exactly when it failed in transit and retries are left. */
  lemma TriedAgainExactly(script: Script, client: nat, maxRetries: nat, base: Duration, mid: string, t: Tries, a: nat)
    requires ExplainsTries(script, client, maxRetries, base, mid, t) && a <= |t.naps|
    ensures a < |t.naps| <==>
            && a < maxRetries && script(client, a).Err?
            && (script(client, a).error.Http? || script(client, a).error.Timeout?)
  {
    assert a < |t.naps| ==> TriedAgain(script, client, maxRetries, a);
  }

  // ---------- What the retries wait ----------

  function DelaySum(base: Duration, retries: nat): nat {
    if retries == 0 then 0 else DelaySum(base, retries - 1) + Delay(base, retries - 1)
  }

  lemma {:induction false} NapsAreDelays(base: Duration, naps: seq<nat>)
    requires forall a | 0 <= a < |naps| :: naps[a] == Delay(base, a)
    ensures Total(naps) == DelaySum(base, |naps|)
  {
    if naps != [] {
      NapsAreDelays(base, naps[..|naps| - 1]);
    }
  }

  /** The last of `retries` delays, the longest, needs no saturation. */
  predicate Unsaturated(base: Duration, retries: nat) {
    base == 0 || retries == 0 || (retries <= 32 && base * Pow2(retries - 1) <= DURATION_MAX)
  }

  lemma DoubleProduct(base: nat, p: nat)
    requires p >= 1
    ensures base * (2 * p - 1) == base * (p - 1) + base * p
    ensures base * p <= base * (2 * p)
  {
  }

  lemma ProductStrict(base: nat, j: nat, k: nat)
    requires base > 0 && j < k
    ensures base * j < base * k
  {
  }

  lemma Pow2At32()
    ensures Pow2(32) == U32
  {
    assert Pow2(8) == 256;
    assert Pow2(16) == 65536 by { assert Pow2(12) == 4096; }
    assert Pow2(20) == 1048576;
    assert Pow2(24) == 16777216;
    assert Pow2(28) == 268435456;
  }

  /** A delay is the base doubled once an attempt, and less than that exactly when something saturates. */
  lemma DelayDoubles(base: Duration, attempt: nat)
    ensures Delay(base, attempt) <= base * Pow2(attempt)
    ensures Delay(base, attempt) == base * Pow2(attempt) <==>
            base == 0 || (attempt < 32 && base * Pow2(attempt) <= DURATION_MAX)
  {
    var k := SaturatingPow2(attempt % U32);
    if attempt < 32 {
      SmallModulus(attempt);
      assert k == Pow2(attempt);
    } else {
      Pow2At32();
      Pow2Grows(32, attempt);
      assert k < Pow2(attempt) by {
        if attempt % U32 < 32 {
          Pow2Grows(attempt % U32, 31);
          assert Pow2(32) == 2 * Pow2(31);
        }
      }
      if base > 0 {
        ProductStrict(base, k, Pow2(attempt));
      } else {
        ZeroProduct(k, Pow2(attempt));
      }
    }
  }

  /** Where it saturates, a delay is the longest duration, or the largest 32-bit number of bases. */
  lemma DelaySaturates(base: Duration, attempt: nat)
    requires attempt < U32
    ensures attempt < 32 ==> Delay(base, attempt) == Min(base * Pow2(attempt), DURATION_MAX)
    ensures attempt >= 32 ==> Delay(base, attempt) == Min(base * 0xFFFF_FFFF, DURATION_MAX)
  {
    SameModulus(attempt);
  }

  lemma SameModulus(a: nat)
    requires a < U32
    ensures a % U32 == a
  {
  }

  lemma ZeroProduct(j: nat, k: nat)
    ensures 0 * j == 0 * k == 0
  {
  }

  lemma SmallModulus(a: nat)
    requires a < 32
    ensures a % U32 == a
  {
  }

  /** The backoffs of `retries` retries sum to `base * (2^retries - 1)`, and to less exactly when one saturates. */
  lemma {:induction false} BackoffSum(base: Duration, retries: nat)
    ensures DelaySum(base, retries) <= base * (Pow2(retries) - 1)
    ensures DelaySum(base, retries) == base * (Pow2(retries) - 1) <==> Unsaturated(base, retries)
  {
    if retries == 0 {
      assert Pow2(0) == 1;
    } else {
      var r := retries - 1;
      BackoffSum(base, r);
      DelayDoubles(base, r);
      DoubleProduct(base, Pow2(r));
      if Unsaturated(base, retries) && r > 0 && base > 0 {
        DoubleProduct(base, Pow2(r - 1));
        assert Unsaturated(base, r);
      }
    }
  }

  // ---------- Fallbacks ----------

  /** One run over the agents: what each agent that was asked did, in order. */
  datatype Run = Run(reply: Reply, hops: seq<Tries>)

  /** The run is handed on to the next agent. */
  predicate HandedOn(t: Tries) {
    t.reply.Err? && ShouldFallback(t.reply.error)
  }

  ghost predicate Explains(script: Script, fallbacks: nat, c: ResilienceConfig, mid: string, run: Run) {
    var n := |run.hops| - 1;
    && 0 <= n <= fallbacks
    && (forall i: nat | i <= n :: ExplainsTries(script, i, c.maxTransportRetries, c.retryBaseDelay, mid, run.hops[i]))
    && (forall i: nat | i < n :: HandedOn(run.hops[i]))
    && run.reply == run.hops[n].reply
    && (HandedOn(run.hops[n]) ==> n == fallbacks)
  }

  method WithFallbacks(script: Script, fallbacks: nat, c: ResilienceConfig, mid: string) returns (run: Run)
    ensures Explains(script, fallbacks, c, mid, run)
  {
    var lastErr: Option<A2AError> := None;
    var hops: seq<Tries> := [];
    for client := 0 to 1 + fallbacks
      invariant |hops| == client
      invariant forall i: nat | i < client ::
                  ExplainsTries(script, i, c.maxTransportRetries, c.retryBaseDelay, mid, hops[i]) && HandedOn(hops[i])
      invariant lastErr == if client == 0 then None else Some(hops[client - 1].reply.error)
    {
      var tries := RetryOn(script, client, c.maxTransportRetries, c.retryBaseDelay, mid);
      hops := hops + [tries];
      match tries.reply
      case Ok(_) => return Run(tries.reply, hops);
      case Err(e) =>
        if !ShouldFallback(e) {
          return Run(tries.reply, hops);
        }
        lastErr := Some(e);
    }
    // The primary was asked, so there is a last error.
    run := Run(Err(lastErr.value), hops);
  }

  /** A task is sent under one message id drawn before the first attempt, whatever ids are drawn after it. */
  method SendTask(script: Script, fallbacks: nat, c: ResilienceConfig, uuids: nat -> string) returns (run: Run)
    ensures Explains(script, fallbacks, c, uuids(0), run)
  {
    var messageId := uuids(0);
    run := WithFallbacks(script, fallbacks, c, messageId);
  }

  /** Every request of a run, to whichever agent and at whichever attempt, carries the same message id. */
  lemma OneMessageId(script: Script, fallbacks: nat, c: ResilienceConfig, mid: string, run: Run, i: nat, a: nat)
    requires Explains(script, fallbacks, c, mid, run) && i < |run.hops| && a < |run.hops[i].carried|
    ensures run.hops[i].carried[a] == mid && |run.hops[i].carried| == |run.hops[i].naps| + 1
  {
  }

  /** The next agent is asked exactly when there is one and this one failed in transit, at the API or for a route. */
  lemma HandedOnExactly(script: Script, fallbacks: nat, c: ResilienceConfig, mid: string, run: Run, i: nat)
    requires Explains(script, fallbacks, c, mid, run) && i < |run.hops|
    ensures i + 1 < |run.hops| <==>
            && i < fallbacks && run.hops[i].reply.Err?
            && var e := run.hops[i].reply.error;
               e.Http? || e.Timeout? || e.Api? || e.NoRoute?
    ensures i + 1 == |run.hops| ==> run.reply == run.hops[i].reply
  {
    assert i + 1 < |run.hops| ==> HandedOn(run.hops[i]);
  }

  /** Agent `j` ends in an error that another agent may do better on. */
  ghost predicate GivesWay(script: Script, c: ResilienceConfig, j: nat) {
    exists a: nat, e: A2AError :: EndsIn(script, j, c.maxTransportRetries, a, Err(e)) && ShouldFallback(e)
  }

  /** Agent `i` is asked. */
  ghost predicate Asked(script: Script, c: ResilienceConfig, i: nat) {
    forall j: nat | j < i :: GivesWay(script, c, j)
  }

  lemma AskedExactly(script: Script, fallbacks: nat, c: ResilienceConfig, mid: string, run: Run, i: nat)
    requires Explains(script, fallbacks, c, mid, run) && i <= fallbacks
    ensures Asked(script, c, i) <==> i < |run.hops|
  {
    forall j: nat | j < i && i < |run.hops|
      ensures GivesWay(script, c, j)
    {
      assert HandedOn(run.hops[j]);
      TriesEndExactly(script, j, c.maxTransportRetries, c.retryBaseDelay, mid,
                      run.hops[j], |run.hops[j].naps|, run.hops[j].reply);
    }
    var n := |run.hops| - 1;
    if i > n && Asked(script, c, i) {
      assert GivesWay(script, c, n);
      var a: nat, e: A2AError :| EndsIn(script, n, c.maxTransportRetries, a, Err(e)) && ShouldFallback(e);
      TriesEndExactly(script, n, c.maxTransportRetries, c.retryBaseDelay, mid, run.hops[n], a, Err(e));
    }
  }

  /** The run succeeds with `value` exactly when some agent that is asked ends in it. */
  lemma SucceedsExactly(script: Script, fallbacks: nat, c: ResilienceConfig, mid: string, run: Run, value: string)
    requires Explains(script, fallbacks, c, mid, run)
    ensures run.reply == Ok(value) <==>
            exists i: nat, a: nat ::
              i <= fallbacks && Asked(script, c, i) && EndsIn(script, i, c.maxTransportRetries, a, Ok(value))
  {
    var n := |run.hops| - 1;
    if run.reply == Ok(value) {
      AskedExactly(script, fallbacks, c, mid, run, n);
      TriesEndExactly(script, n, c.maxTransportRetries, c.retryBaseDelay, mid,
                      run.hops[n], |run.hops[n].naps|, Ok(value));
      assert Asked(script, c, n) && EndsIn(script, n, c.maxTransportRetries, |run.hops[n].naps|, Ok(value));
    }
    forall i: nat, a: nat |
      i <= fallbacks && Asked(script, c, i) && EndsIn(script, i, c.maxTransportRetries, a, Ok(value))
      ensures run.reply == Ok(value)
    {
      AskedExactly(script, fallbacks, c, mid, run, i);
      TriesEndExactly(script, i, c.maxTransportRetries, c.retryBaseDelay, mid, run.hops[i], a, Ok(value));
    }
  }

  /**
   The run fails with `e` exactly when an agent that is asked ends in it and either no other agent could do better or
   there is none left.
   */
  lemma FailsExactly(script: Script, fallbacks: nat, c: ResilienceConfig, mid: string, run: Run, e: A2AError)
    requires Explains(script, fallbacks, c, mid, run)
    ensures run.reply == Err(e) <==>
            exists i: nat, a: nat ::
              && i <= fallbacks && Asked(script, c, i) && EndsIn(script, i, c.maxTransportRetries, a, Err(e))
              && (i == fallbacks || !ShouldFallback(e))
  {
    var n := |run.hops| - 1;
    if run.reply == Err(e) {
      AskedExactly(script, fallbacks, c, mid, run, n);
      TriesEndExactly(script, n, c.maxTransportRetries, c.retryBaseDelay, mid, run.hops[n], |run.hops[n].naps|, Err(e));
      assert Asked(script, c, n) && EndsIn(script, n, c.maxTransportRetries, |run.hops[n].naps|, Err(e));
    }
    forall i: nat, a: nat |
      && i <= fallbacks && Asked(script, c, i) && EndsIn(script, i, c.maxTransportRetries, a, Err(e))
      && (i == fallbacks || !ShouldFallback(e))
      ensures run.reply == Err(e)
    {
      AskedExactly(script, fallbacks, c, mid, run, i);
      TriesEndExactly(script, i, c.maxTransportRetries, c.retryBaseDelay, mid, run.hops[i], a, Err(e));
    }
  }

  /** An agent that answers with an error of its own is not asked again: the request goes to the next agent. */
  lemma RefusalsAreHandedOn(script: Script, fallbacks: nat, c: ResilienceConfig, mid: string, run: Run, i: nat, a: nat)
    requires Explains(script, fallbacks, c, mid, run) && i < |run.hops|
    requires a < |run.hops[i].carried| && script(i, a).Err? && (script(i, a).error.Api? || script(i, a).error.NoRoute?)
    ensures a + 1 == |run.hops[i].carried|
    ensures i < fallbacks ==> i + 1 < |run.hops|
  {
    assert ExplainsTries(script, i, c.maxTransportRetries, c.retryBaseDelay, mid, run.hops[i]);
    forall b | 0 <= b < a
      ensures script(i, b).Err? && IsTransient(script(i, b).error)
    {
      assert TriedAgain(script, i, c.maxTransportRetries, b);
    }
    TriesEndExactly(script, i, c.maxTransportRetries, c.retryBaseDelay, mid, run.hops[i], a, script(i, a));
  }

  /** The attempts of a run, over all agents. */
  function Attempts(hops: seq<Tries>): nat {
    if hops == [] then 0 else Attempts(hops[..|hops| - 1]) + |hops[|hops| - 1].naps| + 1
  }

  lemma AttemptsAreBounded(script: Script, fallbacks: nat, c: ResilienceConfig, mid: string, run: Run)
    requires Explains(script, fallbacks, c, mid, run)
    ensures 1 <= Attempts(run.hops) <= (1 + fallbacks) * (c.maxTransportRetries + 1)
  {
    AttemptsOfHops(c.maxTransportRetries, run.hops);
    ProductGrows(c.maxTransportRetries + 1, |run.hops|, 1 + fallbacks);
    Swap(c.maxTransportRetries + 1, 1 + fallbacks);
  }

  lemma Swap(a: nat, b: nat)
    ensures a * b == b * a
  {
  }

  lemma {:induction false} AttemptsOfHops(maxRetries: nat, hops: seq<Tries>)
    requires forall i: nat | i < |hops| :: |hops[i].naps| <= maxRetries
    ensures |hops| <= Attempts(hops) <= (maxRetries + 1) * |hops|
  {
    if hops != [] {
      AttemptsOfHops(maxRetries, hops[..|hops| - 1]);
    }
  }

  /** What one agent is made to wait for: the doubling series, cut short only by saturation. */
  lemma WaitsPerAgent(script: Script, fallbacks: nat, c: ResilienceConfig, mid: string, run: Run, i: nat)
    requires Explains(script, fallbacks, c, mid, run) && i < |run.hops|
    ensures var r := |run.hops[i].naps|;
            && Total(run.hops[i].naps) <= c.retryBaseDelay * (Pow2(r) - 1)
            && (Total(run.hops[i].naps) == c.retryBaseDelay * (Pow2(r) - 1) <==> Unsaturated(c.retryBaseDelay, r))
  {
    NapsAreDelays(c.retryBaseDelay, run.hops[i].naps);
    BackoffSum(c.retryBaseDelay, |run.hops[i].naps|);
  }
}
