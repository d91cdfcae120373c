/**
 A sent task end to end: the resilient client of `crates/lc-a2a/src/resilient.rs` against agents that run the idempotent
 send of `crates/lc-a2a/src/server/routes.rs`.
 */
module Deliveries {
  import opened Common
  import opened SetSum
  import opened MessageIds
  import opened ResilientClients
  import opened IdempotentSends

  /** What each agent's server goes through for each message id. */
  type Servers = (nat, string) -> seq<Op>

  /** The call that an agent's attempt became, if it got that far. */
  type Handled = (nat, nat) -> Option<nat>

  /** The agent answered with an error of its own: this call ran nothing. */
  predicate IsRefusal(reply: Reply) {
    reply.Err? && (reply.error.Api? || reply.error.NoRoute?)
  }

  /** What the client saw of an attempt and what became of its call go together. Other errors tell nothing. */
  predicate Matches(reply: Reply, calls: seq<Pc>, call: Option<nat>) {
    && (call.Some? ==> call.value < |calls|)
    && (IsRefusal(reply) && call.Some? ==> calls[call.value] in {Done(Busy), Done(Refused)})
    && (reply.Ok? ==> call.Some? && calls[call.value].Done? && Named(calls[call.value]).Some?)
  }

  function CallsOf(servers: Servers, i: nat, m: string): seq<Pc> {
    IdempotentSends.Run(servers(i, m)).calls
  }

  /** Call `k` of agent `i` under `m` is one of the run's attempts. */
  ghost predicate IsAttempt(run: ResilientClients.Run, handled: Handled, i: nat, m: string, k: nat) {
    exists a: nat :: i < |run.hops| && a < |run.hops[i].carried|
                     && run.hops[i].carried[a] == m && handled(i, a) == Some(k)
  }

  /**
   The servers' calls are the client's requests, in any interleaving. Requests may be lost on their way, and responses
   on theirs, but a reply that arrives tells what became of its call. No server loses a task or an id meanwhile.
   */
  ghost predicate Fits(script: Script, run: ResilientClients.Run, servers: Servers, handled: Handled) {
    && (forall i: nat, m: string :: AllQuiet(servers(i, m)))
    && (forall i: nat, m: string, k: nat :: k < |CallsOf(servers, i, m)| ==> IsAttempt(run, handled, i, m, k))
    && (forall i: nat, a: nat, b: nat {:trigger handled(i, a), handled(i, b)} ::
          a != b && handled(i, a).Some? ==> handled(i, a) != handled(i, b))
    && (forall i: nat, a: nat :: i < |run.hops| && a < |run.hops[i].carried| ==>
          Matches(script(i, a), CallsOf(servers, i, run.hops[i].carried[a]), handled(i, a)))
  }

  /** How often an agent's chain ran for an id. */
  function RunsOf(servers: Servers, i: nat): string -> int {
    m => |IdempotentSends.Run(servers(i, m)).runs|
  }

  ghost function TotalRuns(servers: Servers, ids: set<string>, agents: nat): int {
    if agents == 0 then 0 else TotalRuns(servers, ids, agents - 1) + Sum(ids, RunsOf(servers, agents - 1))
  }

  /** A chain runs on behalf of a call that was accepted. */
  lemma {:induction false} RunsAreAccepted(ops: seq<Op>)
    ensures IdempotentSends.Run(ops).runs != [] ==>
              exists k: nat :: k < |IdempotentSends.Run(ops).calls| && IdempotentSends.Run(ops).calls[k].Done? &&
                               IdempotentSends.Run(ops).calls[k].answer.Accepted?
  {
    if ops != [] {
      var s, op := IdempotentSends.Run(ops[..|ops| - 1]), ops[|ops| - 1];
      RunsAreAccepted(ops[..|ops| - 1]);
      AcceptedStays(s, op);
    }
  }

  lemma AcceptedStays(s: Server, op: Op)
    ensures var t := IdempotentSends.Step(s, op);
            forall k: nat :: k < |s.calls| && s.calls[k].Done? ==> k < |t.calls| && t.calls[k] == s.calls[k]
    ensures IdempotentSends.Step(s, op).runs != s.runs ==>
              op.Go? && op.call < |s.calls| && s.calls[op.call].Spawning? &&
              IdempotentSends.Step(s, op).calls[op.call] == Done(Accepted(s.calls[op.call].tid))
  {
  }

  lemma {:induction false} AtMostOneWeight<T(!new)>(s: set<T>, f: T -> int, x: T)
    requires forall y :: y in s && y != x ==> f(y) == 0
    requires 0 <= f(x) <= 1
    ensures 0 <= Sum(s, f) <= f(x)
    ensures x in s ==> Sum(s, f) == f(x)
    decreases s
  {
    if s != {} {
      AtMostOneWeight(s - {Pick(s)}, f, x);
      if Pick(s) == x && Sum(s - {x}, f) != 0 {
        SumAgree(s - {x}, f, y => 0);
        ZeroWeights(s - {x});
      }
    }
  }

  lemma {:induction false} ZeroWeights<T(!new)>(s: set<T>)
    ensures Sum(s, (y: T) => 0) == 0
    decreases s
  {
    if s != {} {
      ZeroWeights(s - {Pick(s)});
    }
  }

  // ---------- Which agents may have run the task ----------

  /** The agent is asked, and its first reply is no refusal: some request of it may have been accepted. */
  predicate MayRun(script: Script, run: ResilientClients.Run, i: nat) {
    i < |run.hops| && !IsRefusal(script(i, 0))
  }

  /** Attempts but the last fail in transit; so an agent may run the task unless its only reply refuses. */
  lemma AttemptsOfHop(
      script: Script, fallbacks: nat, c: ResilienceConfig, mid: string, run: ResilientClients.Run, i: nat)
    requires Explains(script, fallbacks, c, mid, run) && i < |run.hops|
    ensures var t := run.hops[i];
            && |t.carried| == |t.naps| + 1 && t.reply == script(i, |t.naps|)
            && (forall a: nat :: a < |t.naps| ==> script(i, a).Err? && IsTransient(script(i, a).error))
            && (MayRun(script, run, i) <==> |t.naps| > 0 || !IsRefusal(t.reply))
  {
    assert ExplainsTries(script, i, c.maxTransportRetries, c.retryBaseDelay, mid, run.hops[i]);
    forall a: nat | a < |run.hops[i].naps|
      ensures script(i, a).Err? && IsTransient(script(i, a).error)
    {
      assert TriedAgain(script, i, c.maxTransportRetries, a);
    }
  }

  /** An agent whose first reply is a refusal gets no second request. */
  lemma RefusedOnce(script: Script, fallbacks: nat, c: ResilienceConfig, mid: string, run: ResilientClients.Run, i: nat)
    requires Explains(script, fallbacks, c, mid, run) && i < |run.hops| && IsRefusal(script(i, 0))
    ensures |run.hops[i].carried| == 1
  {
    AttemptsOfHop(script, fallbacks, c, mid, run, i);
  }

  lemma NothingAccepted(script: Script, fallbacks: nat, c: ResilienceConfig, mid: string,
                        run: ResilientClients.Run, servers: Servers, handled: Handled, i: nat, m: string)
    requires Explains(script, fallbacks, c, mid, run) && Fits(script, run, servers, handled)
    requires m != mid || !MayRun(script, run, i)
    ensures IdempotentSends.Run(servers(i, m)).runs == []
  {
    RunsAreAccepted(servers(i, m));
    var calls := CallsOf(servers, i, m);
    forall k: nat | k < |calls|
      ensures calls[k] in {Done(Busy), Done(Refused)}
    {
      assert IsAttempt(run, handled, i, m, k);
      var a: nat :| i < |run.hops| && a < |run.hops[i].carried|
                    && run.hops[i].carried[a] == m && handled(i, a) == Some(k);
      OneMessageId(script, fallbacks, c, mid, run, i, a);
      RefusedOnce(script, fallbacks, c, mid, run, i);
      assert Matches(script(i, a), CallsOf(servers, i, run.hops[i].carried[a]), handled(i, a));
    }
  }

  /**
   However many requests and responses are lost and whatever is retried: over all message ids an agent runs the chain at
   most once for the task, and never if it is not asked or its first reply refuses.
   */
  lemma OneRunPerAgent(script: Script, fallbacks: nat, c: ResilienceConfig, mid: string, run: ResilientClients.Run,
                       servers: Servers, handled: Handled, ids: set<string>, i: nat)
    requires Explains(script, fallbacks, c, mid, run) && Fits(script, run, servers, handled)
    ensures 0 <= Sum(ids, RunsOf(servers, i)) <= if MayRun(script, run, i) then 1 else 0
  {
    forall m | m != mid || !MayRun(script, run, i)
      ensures RunsOf(servers, i)(m) == 0
    {
      NothingAccepted(script, fallbacks, c, mid, run, servers, handled, i, m);
    }
    AtMostOneRun(servers(i, mid));
    AtMostOneWeight(ids, RunsOf(servers, i), mid);
  }

  function MayRunCount(script: Script, run: ResilientClients.Run, agents: nat): nat {
    if agents == 0 then 0 else MayRunCount(script, run, agents - 1) + if MayRun(script, run, agents - 1) then 1 else 0
  }

  lemma {:induction false} TotalIsBounded(script: Script, run: ResilientClients.Run, servers: Servers, ids: set<string>,
                                          agents: nat)
    requires forall i: nat :: Sum(ids, RunsOf(servers, i)) <= if MayRun(script, run, i) then 1 else 0
    ensures TotalRuns(servers, ids, agents) <= MayRunCount(script, run, agents)
    decreases agents
  {
    if agents > 0 {
      TotalIsBounded(script, run, servers, ids, agents - 1);
    }
  }

  /** Over all agents the chain runs at most once for each agent that is asked and does not refuse at first. */
  lemma RunsAreBounded(script: Script, fallbacks: nat, c: ResilienceConfig, mid: string, run: ResilientClients.Run,
                       servers: Servers, handled: Handled, ids: set<string>, agents: nat)
    requires Explains(script, fallbacks, c, mid, run) && Fits(script, run, servers, handled)
    ensures TotalRuns(servers, ids, agents) <= MayRunCount(script, run, agents)
  {
    forall i: nat
      ensures Sum(ids, RunsOf(servers, i)) <= if MayRun(script, run, i) then 1 else 0
    {
      OneRunPerAgent(script, fallbacks, c, mid, run, servers, handled, ids, i);
    }
    TotalIsBounded(script, run, servers, ids, agents);
  }

  /** A task that an agent gave out under the id is the only one whose chain it ran. */
  lemma TaskGivenIsTaskRun(script: Script, run: ResilientClients.Run, servers: Servers, handled: Handled,
                           i: nat, m: string, call: nat)
    requires Fits(script, run, servers, handled)
    requires call < |CallsOf(servers, i, m)| && Named(CallsOf(servers, i, m)[call]).Some?
    ensures var s := IdempotentSends.Run(servers(i, m));
            s.runs == [] || s.runs == [Named(s.calls[call]).value]
  {
    AtMostOneRun(servers(i, m));
    var s := IdempotentSends.Run(servers(i, m));
    var owner: nat :| SingleFor(s, owner);
    assert CallFits(s, owner, call, s.calls[call]);
  }

  // ---------- The bound is attained ----------

  /** Every agent that may run the task accepts one request and runs it to its end. */
  function Eager(script: Script, mid: string, run: ResilientClients.Run, t: TaskId): Servers {
    (i: nat, m: string) => if MayRun(script, run, i) && m == mid then SendOps([], t) else []
  }

  /** The request accepted is the last, or the first if the last is refused. */
  function EagerlyHandled(script: Script, run: ResilientClients.Run): Handled {
    (i: nat, a: nat) =>
      if !MayRun(script, run, i) then None
      else
        var accepted := if IsRefusal(run.hops[i].reply) then 0 else |run.hops[i].naps|;
        if a == accepted then Some(0) else None
  }

  lemma {:induction false} StepsAreQuiet(i: nat, tid: TaskId, n: nat)
    ensures AllQuiet(Steps(i, tid, n))
  {
    if n > 0 {
      StepsAreQuiet(i, tid, n - 1);
    }
  }

  lemma OneSend(t: TaskId)
    requires t != IN_FLIGHT
    ensures AllQuiet(SendOps([], t))
    ensures IdempotentSends.Run(SendOps([], t)).calls == [Done(Accepted(t))]
    ensures IdempotentSends.Run(SendOps([], t)).runs == [t]
  {
    StepsAreQuiet(|IdempotentSends.Run([]).calls|, t, 9);
    SendIsRun([], t);
    SendNew(IdempotentSends.FRESH, t);
  }

  lemma EagerServer(script: Script, mid: string, run: ResilientClients.Run, t: TaskId, i: nat)
    requires t != IN_FLIGHT
    ensures var s := IdempotentSends.Run(Eager(script, mid, run, t)(i, mid));
            if MayRun(script, run, i) then s.calls == [Done(Accepted(t))] && s.runs == [t]
            else s.calls == [] && s.runs == []
  {
    OneSend(t);
  }

  lemma EagerMatches(script: Script, fallbacks: nat, c: ResilienceConfig, mid: string, run: ResilientClients.Run,
                     t: TaskId, i: nat, a: nat)
    requires t != IN_FLIGHT
    requires Explains(script, fallbacks, c, mid, run) && i < |run.hops| && a < |run.hops[i].carried|
    ensures Matches(script(i, a), CallsOf(Eager(script, mid, run, t), i, mid), EagerlyHandled(script, run)(i, a))
  {
    AcceptedIsNoRefusal(script, fallbacks, c, mid, run, i, a);
    EagerServer(script, mid, run, t, i);
    EagerlyMatches(script(i, a), CallsOf(Eager(script, mid, run, t), i, mid), EagerlyHandled(script, run)(i, a), t);
  }

  lemma AcceptedIsNoRefusal(script: Script, fallbacks: nat, c: ResilienceConfig, mid: string,
                            run: ResilientClients.Run, i: nat, a: nat)
    requires Explains(script, fallbacks, c, mid, run) && i < |run.hops| && a < |run.hops[i].carried|
    ensures var call := EagerlyHandled(script, run)(i, a);
            && (call.Some? ==> call.value == 0 && MayRun(script, run, i) && !IsRefusal(script(i, a)))
            && (script(i, a).Ok? ==> call.Some?)
  {
    AttemptsOfHop(script, fallbacks, c, mid, run, i);
  }

  /** An accepted call goes with every reply but a refusal, and no call at all with every reply but an Ok. */
  lemma EagerlyMatches(reply: Reply, calls: seq<Pc>, call: Option<nat>, t: TaskId)
    requires call.Some? ==> call.value == 0 && calls == [Done(Accepted(t))] && !IsRefusal(reply)
    requires reply.Ok? ==> call.Some?
    ensures Matches(reply, calls, call)
  {
  }

  lemma EagerFits(script: Script, fallbacks: nat, c: ResilienceConfig, mid: string, run: ResilientClients.Run,
                  t: TaskId)
    requires t != IN_FLIGHT
    requires Explains(script, fallbacks, c, mid, run)
    ensures Fits(script, run, Eager(script, mid, run, t), EagerlyHandled(script, run))
  {
    OneSend(t);
    var servers, handled := Eager(script, mid, run, t), EagerlyHandled(script, run);
    forall i: nat, m: string, k: nat | k < |CallsOf(servers, i, m)|
      ensures IsAttempt(run, handled, i, m, k)
    {
      assert MayRun(script, run, i) && m == mid && k == 0;
      var a := if IsRefusal(run.hops[i].reply) then 0 else |run.hops[i].naps|;
      OneMessageId(script, fallbacks, c, mid, run, i, 0);
      OneMessageId(script, fallbacks, c, mid, run, i, a);
      assert handled(i, a) == Some(k);
    }
    forall i: nat, a: nat | i < |run.hops| && a < |run.hops[i].carried|
      ensures Matches(script(i, a), CallsOf(servers, i, run.hops[i].carried[a]), handled(i, a))
    {
      OneMessageId(script, fallbacks, c, mid, run, i, a);
      EagerMatches(script, fallbacks, c, mid, run, t, i, a);
    }
  }

  lemma EagerSum(script: Script, mid: string, run: ResilientClients.Run, t: TaskId, i: nat)
    requires t != IN_FLIGHT
    ensures Sum({mid}, RunsOf(Eager(script, mid, run, t), i)) == if MayRun(script, run, i) then 1 else 0
  {
    var f := RunsOf(Eager(script, mid, run, t), i);
    EagerServer(script, mid, run, t, i);
    assert f(mid) == if MayRun(script, run, i) then 1 else 0;
    AtMostOneWeight({mid}, f, mid);
  }

  lemma {:induction false} EagerTotal(script: Script, mid: string, run: ResilientClients.Run, t: TaskId,
                                      agents: nat)
    requires t != IN_FLIGHT
    ensures TotalRuns(Eager(script, mid, run, t), {mid}, agents) == MayRunCount(script, run, agents)
    decreases agents
  {
    if agents > 0 {
      EagerTotal(script, mid, run, t, agents - 1);
      EagerSum(script, mid, run, t, agents - 1);
    }
  }

  // ---------- Never twice? ----------

  /** Whatever the servers do that fits what the client saw, the chain runs at most once in all. */
  ghost predicate NeverTwice(script: Script, run: ResilientClients.Run) {
    forall servers: Servers, handled: Handled, ids: set<string>, agents: nat ::
      Fits(script, run, servers, handled) ==> TotalRuns(servers, ids, agents) <= 1
  }

  /** At most one agent is asked and does not refuse at first. */
  predicate OneMayRun(script: Script, run: ResilientClients.Run) {
    forall i, j :: 0 <= i < j < |run.hops| ==> IsRefusal(script(i, 0)) || IsRefusal(script(j, 0))
  }

  lemma {:induction false} CountOfOne(script: Script, run: ResilientClients.Run, agents: nat)
    requires OneMayRun(script, run)
    ensures MayRunCount(script, run, agents) <= 1
    ensures MayRunCount(script, run, agents) == 1 ==> exists i: nat :: i < agents && MayRun(script, run, i)
  {
    if agents > 0 {
      CountOfOne(script, run, agents - 1);
      if MayRun(script, run, agents - 1) {
        assert MayRunCount(script, run, agents - 1) == 0;
      }
    }
  }

  lemma {:induction false} CountOfTwo(script: Script, run: ResilientClients.Run, i: nat, j: nat, agents: nat)
    requires MayRun(script, run, i) && MayRun(script, run, j) && i < j
    ensures i < agents ==> MayRunCount(script, run, agents) >= 1
    ensures j < agents ==> MayRunCount(script, run, agents) >= 2
  {
    if agents > 0 {
      CountOfTwo(script, run, i, j, agents - 1);
    }
  }

  lemma TwoMayRunTwice(script: Script, fallbacks: nat, c: ResilienceConfig, mid: string, run: ResilientClients.Run,
                       i: nat, j: nat, t: TaskId)
    requires t != IN_FLIGHT
    requires Explains(script, fallbacks, c, mid, run) && i < j && MayRun(script, run, i) && MayRun(script, run, j)
    ensures !NeverTwice(script, run)
  {
    EagerFits(script, fallbacks, c, mid, run, t);
    EagerTotal(script, mid, run, t, |run.hops|);
    CountOfTwo(script, run, i, j, |run.hops|);
  }

  lemma OneRunsOnce(script: Script, fallbacks: nat, c: ResilienceConfig, mid: string, run: ResilientClients.Run)
    requires Explains(script, fallbacks, c, mid, run) && OneMayRun(script, run)
    ensures NeverTwice(script, run)
  {
    forall servers: Servers, handled: Handled, ids: set<string>, agents: nat | Fits(script, run, servers, handled)
      ensures TotalRuns(servers, ids, agents) <= 1
    {
      RunsAreBounded(script, fallbacks, c, mid, run, servers, handled, ids, agents);
      CountOfOne(script, run, agents);
    }
  }

  /**
   One message id does not keep the chain from running twice: a lost response sends the request to the next agent, which
   runs it too. The chain never runs twice exactly when at most one agent that is asked does not refuse at first.
   */
  lemma NeverTwiceExactly(script: Script, fallbacks: nat, c: ResilienceConfig, mid: string, run: ResilientClients.Run)
    requires Explains(script, fallbacks, c, mid, run)
    ensures NeverTwice(script, run) <==> OneMayRun(script, run)
  {
    if OneMayRun(script, run) {
      OneRunsOnce(script, fallbacks, c, mid, run);
    } else {
      var i, j :| 0 <= i < j < |run.hops| && !IsRefusal(script(i, 0)) && !IsRefusal(script(j, 0));
      TwoMayRunTwice(script, fallbacks, c, mid, run, i, j, "t");
    }
  }

  /** The response of the first agent is lost, the second answers: both may have run the chain. */
  lemma LostResponseRunsTwice(mid: string)
    ensures var script: Script := (i: nat, a: nat) => if i == 0 then Err(Http("connection closed")) else Ok("t");
            var c := ResilienceConfig(0, 0);
            var lost, served := Tries(Err(Http("connection closed")), [], [mid]), Tries(Ok("t"), [], [mid]);
            var run := ResilientClients.Run(Ok("t"), [lost, served]);
            Explains(script, 1, c, mid, run) && !NeverTwice(script, run)
  {
    var script: Script := (i: nat, a: nat) => if i == 0 then Err(Http("connection closed")) else Ok("t");
    var lost, served := Tries(Err(Http("connection closed")), [], [mid]), Tries(Ok("t"), [], [mid]);
    var run := ResilientClients.Run(Ok("t"), [lost, served]);
    assert Explains(script, 1, ResilienceConfig(0, 0), mid, run);
    NeverTwiceExactly(script, 1, ResilienceConfig(0, 0), mid, run);
    assert !IsRefusal(script(0, 0)) && !IsRefusal(script(1, 0));
  }

  /** The first agent refuses or has no route, the second answers: the chain runs at most once. */
  lemma RefusalRunsOnce(mid: string, refusal: A2AError)
    requires refusal == Api(429, "busy") || refusal == NoRoute("skill")
    ensures var script: Script := (i: nat, a: nat) => if i == 0 then Err(refusal) else Ok("t");
            var c := ResilienceConfig(0, 0);
            var refused, served := Tries(Err(refusal), [], [mid]), Tries(Ok("t"), [], [mid]);
            var run := ResilientClients.Run(Ok("t"), [refused, served]);
            Explains(script, 1, c, mid, run) && NeverTwice(script, run)
  {
    var script: Script := (i: nat, a: nat) => if i == 0 then Err(refusal) else Ok("t");
    var run := ResilientClients.Run(Ok("t"), [Tries(Err(refusal), [], [mid]), Tries(Ok("t"), [], [mid])]);
    assert Explains(script, 1, ResilienceConfig(0, 0), mid, run);
    NeverTwiceExactly(script, 1, ResilienceConfig(0, 0), mid, run);
    assert IsRefusal(script(0, 0));
  }
}
