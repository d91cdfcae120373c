/**
 Choosing the first agent whose circuit breaker admits a call, as `first_admitting` of
 `crates/lc-a2a/src/scale.rs` does, on snapshots of the breakers.
 */
module AgentRouting {
  import opened Common
  import opened FleetIndexes
  import AgentBreakers

  datatype Guard = Guard(config: AgentBreakers.Config, breaker: AgentBreakers.Inner)

  /** The breaker of every registered agent. */
  type Health = map<string, Guard>

  function AskGuard(g: Guard, now: nat): (AgentBreakers.Inner, AgentBreakers.Answer) {
    AgentBreakers.Step(g.config, g.breaker, AgentBreakers.Allow(now))
  }

  /** An agent without a breaker is never refused. */
  predicate Refuses(h: Health, url: string, now: nat) {
    url in h && AskGuard(h[url], now).1 == AgentBreakers.Refused
  }

  /**
   The agent takes a call: it has no breaker, or that is closed, or its probe is still to be taken, or it is open and
   the open duration has passed.
   */
  predicate TakesCalls(h: Health, url: string, now: nat) {
    url in h ==>
      var Guard(config, b) := h[url];
      || b.state == AgentBreakers.Closed
      || (b.state == AgentBreakers.HalfOpen && !b.probeInFlight)
      || (b.state == AgentBreakers.Open && b.openedAt.Some? &&
            (config.openDuration == 0 || b.openedAt.value + config.openDuration <= now))
  }

  /** In reachable breakers every call that may be taken is, and no other. */
  lemma RefusedExactly(h: Health, url: string, now: nat)
    ensures Refuses(h, url, now) <==> !TakesCalls(h, url, now)
    ensures AllReachable(h) && url in h ==>
              (Refuses(h, url, now) <==>
               var Guard(config, b) := h[url];
               || b.state == AgentBreakers.HalfOpen
               || (b.state == AgentBreakers.Open &&
                     0 < config.openDuration && now < b.openedAt.value + config.openDuration))
  {
  }

  /** The agent at `url` was given a call: an open breaker has taken its probe, and nothing else has changed. */
  ghost predicate Called(h: Health, url: string, after: Health) {
    && after.Keys == h.Keys
    && (forall u :: u in h && u != url ==> after[u] == h[u])
    && (url in h ==>
          && after[url].config == h[url].config
          && after[url].breaker ==
             if h[url].breaker.state == AgentBreakers.Open
             then h[url].breaker.(state := AgentBreakers.HalfOpen, probeInFlight := true) else h[url].breaker)
  }

  lemma ServingCalls(h: Health, card: AgentCard, now: nat)
    requires !Refuses(h, card.url, now)
    ensures Called(h, card.url, AfterServing(h, Some(card), now))
  {
  }

  function FirstServed(h: Health, list: seq<AgentCard>, now: nat): Option<AgentCard> {
    if list == [] then None
    else if Refuses(h, list[0].url, now) then FirstServed(h, list[1..], now)
    else Some(list[0])
  }

  /** Only the breaker of the agent that was chosen moves. */
  function AfterServing(h: Health, served: Option<AgentCard>, now: nat): Health {
    if served.Some? && served.value.url in h then
      var url := served.value.url;
      h[url := h[url].(breaker := AskGuard(h[url], now).0)]
    else h
  }

  /** A report reaches the breaker of its agent only; an unknown agent has none. */
  function Reported(h: Health, url: string, e: AgentBreakers.Event): Health {
    if url in h then h[url := h[url].(breaker := AgentBreakers.Step(h[url].config, h[url].breaker, e).0)] else h
  }

  ghost predicate AllReachable(h: Health) {
    forall u :: u in h ==> AgentBreakers.Inv(h[u].config, h[u].breaker)
  }

  lemma FreshKeepsReachable(h: Health, url: string, config: AgentBreakers.Config)
    requires AllReachable(h)
    ensures AllReachable(h[url := Guard(config, AgentBreakers.FRESH)])
  {
  }

  lemma ReportKeepsReachable(h: Health, url: string, e: AgentBreakers.Event)
    requires AllReachable(h) && url in h
    ensures AllReachable(Reported(h, url, e))
  {
  }

  /** The choice is the first candidate that is not refused, and there is one unless all are refused. */
  lemma {:induction false} ServedIsFirstAdmitting(h: Health, list: seq<AgentCard>, now: nat)
    ensures match FirstServed(h, list, now)
            case None => forall k :: 0 <= k < |list| ==> Refuses(h, list[k].url, now)
            case Some(c) => exists k :: 0 <= k < |list| && list[k] == c && !Refuses(h, c.url, now) &&
                              forall j :: 0 <= j < k ==> Refuses(h, list[j].url, now)
  {
    if list != [] && Refuses(h, list[0].url, now) {
      ServedIsFirstAdmitting(h, list[1..], now);
      var served := FirstServed(h, list[1..], now);
      if served.Some? {
        var k :| 0 <= k < |list[1..]| && list[1..][k] == served.value && !Refuses(h, served.value.url, now) &&
                 forall j :: 0 <= j < k ==> Refuses(h, list[1..][j].url, now);
        assert list[k + 1] == served.value;
        forall j | 0 <= j < k + 1
          ensures Refuses(h, list[j].url, now)
        {
          assert j > 0 ==> list[1..][j - 1] == list[j];
        }
      }
    }
  }

  /**
   Routing leaks no probe: the breakers stay reachable, every breaker but the chosen agent's is
   untouched, and the chosen one either was closed and stays as it is or has just taken its probe.
   */
  lemma RoutingLeaksNoProbe(h: Health, list: seq<AgentCard>, now: nat)
    requires AllReachable(h)
    ensures var served := FirstServed(h, list, now);
            var after := AfterServing(h, served, now);
            && AllReachable(after) && after.Keys == h.Keys
            && (forall u :: u in h && (served.None? || u != served.value.url) ==> after[u] == h[u])
            && (served.Some? && served.value.url in h ==>
                  var before, chosen := h[served.value.url].breaker, after[served.value.url].breaker;
                  || (before.state == AgentBreakers.Closed && chosen == before)
                  || (before.state == AgentBreakers.Open &&
                      chosen.state == AgentBreakers.HalfOpen && chosen.probeInFlight))
            && (served.Some? ==> TakesCalls(h, served.value.url, now) && Called(h, served.value.url, after))
  {
    if FirstServed(h, list, now).Some? {
      ServedIsFirstAdmitting(h, list, now);
      RefusedExactly(h, FirstServed(h, list, now).value.url, now);
    }
  }

  lemma {:induction false} ServedOfBoth(h: Health, a: seq<AgentCard>, b: seq<AgentCard>, now: nat)
    ensures FirstServed(h, a + b, now) ==
            if FirstServed(h, a, now).Some? then FirstServed(h, a, now) else FirstServed(h, b, now)
  {
    if a == [] {
      assert a + b == b;
    } else {
      ServedOfBoth(h, a[1..], b, now);
      assert (a + b)[1..] == a[1..] + b;
    }
  }

  /** A refused pin changes nothing: the choice is the one without it. */
  lemma {:induction false} RefusedPinIsNoPin(h: Health, ranked: seq<AgentCard>, url: string, now: nat)
    requires Refuses(h, url, now)
    ensures FirstServed(h, WithUrl(ranked, url), now).None?
    ensures FirstServed(h, WithoutUrl(ranked, url), now) == FirstServed(h, ranked, now)
    ensures FirstServed(h, WithUrl(ranked, url) + WithoutUrl(ranked, url), now) == FirstServed(h, ranked, now)
  {
    if ranked != [] {
      var front, last := ranked[..|ranked| - 1], ranked[|ranked| - 1];
      RefusedPinIsNoPin(h, front, url, now);
      assert ranked == front + [last];
      ServedOfBoth(h, front, [last], now);
      ServedOfBoth(h, WithUrl(front, url), [last], now);
      ServedOfBoth(h, WithoutUrl(front, url), [last], now);
    }
    ServedOfBoth(h, WithUrl(ranked, url), WithoutUrl(ranked, url), now);
  }

  // ---------- Runs of routing and reports ----------

  datatype FleetOp =
    | Join(url: string, config: AgentBreakers.Config)
    | Choose(candidates: seq<AgentCard>, now: nat)
    | Report(url: string, event: AgentBreakers.Event)

  function HealthStep(h: Health, op: FleetOp): Health {
    match op
    case Join(url, config) => if url in h then h else h[url := Guard(config, AgentBreakers.FRESH)]
    case Choose(candidates, now) => AfterServing(h, FirstServed(h, candidates, now), now)
    case Report(url, event) => Reported(h, url, event)
  }

  function HealthRun(ops: seq<FleetOp>): Health {
    if ops == [] then map[] else HealthStep(HealthRun(ops[..|ops| - 1]), ops[|ops| - 1])
  }

  /** What one operation means to one agent: the call it is given, or the report on it. */
  function Concerns(h: Health, op: FleetOp, url: string): seq<AgentBreakers.Event> {
    if url !in h then []
    else
      match op
      case Join(_, _) => []
      case Choose(candidates, now) =>
        var served := FirstServed(h, candidates, now);
        if served.Some? && served.value.url == url then [AgentBreakers.Allow(now)] else []
      case Report(v, event) => if v == url then [event] else []
  }

  function Own(ops: seq<FleetOp>, url: string): seq<AgentBreakers.Event> {
    if ops == [] then []
    else Own(ops[..|ops| - 1], url) + Concerns(HealthRun(ops[..|ops| - 1]), ops[|ops| - 1], url)
  }

  lemma RunAppend(config: AgentBreakers.Config, events: seq<AgentBreakers.Event>, e: AgentBreakers.Event)
    ensures AgentBreakers.Run(config, events + [e]) ==
            AgentBreakers.Step(config, AgentBreakers.Run(config, events), e).0
  {
    assert (events + [e])[..|events|] == events;
  }

  /** The breaker, if there is one, is what a run of these events makes of a fresh one. */
  ghost predicate RunsOn(h: Health, url: string, events: seq<AgentBreakers.Event>) {
    && (url in h ==> h[url].breaker == AgentBreakers.Run(h[url].config, events))
    && (url !in h ==> events == [])
  }

  lemma StepRunsOn(h: Health, op: FleetOp, url: string, events: seq<AgentBreakers.Event>)
    requires RunsOn(h, url, events)
    ensures RunsOn(HealthStep(h, op), url, events + Concerns(h, op, url))
  {
    var concern := Concerns(h, op, url);
    if concern == [] {
      assert events + concern == events;
    } else {
      assert concern == [concern[0]];
      RunAppend(h[url].config, events, concern[0]);
    }
  }

  /** Whatever is routed to others and reported on them, an agent's breaker runs on its own calls and reports alone. */
  lemma {:induction false} BreakersAreIsolated(ops: seq<FleetOp>, url: string)
    ensures RunsOn(HealthRun(ops), url, Own(ops, url))
  {
    if ops != [] {
      BreakersAreIsolated(ops[..|ops| - 1], url);
      StepRunsOn(HealthRun(ops[..|ops| - 1]), ops[|ops| - 1], url, Own(ops[..|ops| - 1], url));
    }
  }

  /**
   After any run an agent is passed over exactly when the failures reported on it since its last success reach its
   threshold and it has been given a call since the last of them or its open duration has not passed yet.
   */
  lemma PassedOverExactly(ops: seq<FleetOp>, url: string, now: nat)
    requires url in HealthRun(ops)
    ensures var config := HealthRun(ops)[url].config;
            Refuses(HealthRun(ops), url, now) <==>
            && AgentBreakers.Streak(Own(ops, url)) >= AgentBreakers.Threshold(config)
            && (AgentBreakers.CalledLate(config, Own(ops, url)) || !AgentBreakers.Waited(config, Own(ops, url), now))
  {
    BreakersAreIsolated(ops, url);
    AgentBreakers.RefusedExactlyByHistory(HealthRun(ops)[url].config, Own(ops, url), now);
  }

  /** A pinned, relevant agent whose breaker does not refuse is the one served. */
  lemma HealthyPinIsServed(h: Health, ranked: seq<AgentCard>, card: AgentCard, now: nat)
    requires card in ranked && forall c :: c in ranked && c.url == card.url ==> c == card
    requires !Refuses(h, card.url, now)
    ensures FirstServed(h, WithUrl(ranked, card.url) + WithoutUrl(ranked, card.url), now) == Some(card)
  {
    PinnedIsTriedFirst(ranked, card);
  }

  /** `c` is the first candidate that takes calls. */
  ghost predicate IsFirstTaking(h: Health, candidates: seq<AgentCard>, now: nat, c: AgentCard) {
    exists k ::
      && 0 <= k < |candidates| && candidates[k] == c && TakesCalls(h, c.url, now)
      && forall j :: 0 <= j < k ==> !TakesCalls(h, candidates[j].url, now)
  }

  /** The lock-protected table of breakers; `health` is what it looks like from outside. */
  class BreakerTable {
    var table: map<string, AgentBreakers.CircuitBreaker>
    ghost var health: Health

    /** Every agent has its own breaker, in a reachable state, and `health` shows it. */
    ghost predicate Valid()
      reads this, table.Values
    {
      && health.Keys == table.Keys
      && AllReachable(health)
      && (forall u :: u in table ==> health[u] == Guard(table[u].config, table[u].View()))
      && (forall u, v :: u in table && v in table && u != v ==> table[u] != table[v])
    }

    constructor ()
      ensures Valid() && health == map[] && table == map[]
    {
      table, health := map[], map[];
    }

    method Insert(url: string, config: AgentBreakers.Config)
      requires Valid() && url !in table
      modifies this
      ensures Valid() && health == old(health)[url := Guard(config, AgentBreakers.FRESH)]
      ensures url in table && fresh(table[url]) && table == old(table)[url := table[url]]
    {
      var breaker := new AgentBreakers.CircuitBreaker(config);
      FreshKeepsReachable(health, url, config);
      table := table[url := breaker];
      health := health[url := Guard(config, AgentBreakers.FRESH)];
    }

    /** One agent is asked; a refusal leaves every breaker as it was. */
    method Ask(url: string, now: nat) returns (admitted: bool)
      requires Valid()
      modifies this`health, table.Values
      ensures Valid()
      ensures admitted <==> !Refuses(old(health), url, now)
      ensures admitted <==> TakesCalls(old(health), url, now)
      ensures if admitted then Called(old(health), url, health) else health == old(health)
      ensures health == if admitted && url in old(health)
                        then old(health)[url := old(health)[url].(breaker := AskGuard(old(health)[url], now).0)]
                        else old(health)
    {
      RefusedExactly(health, url, now);
      if url !in table {
        return true;
      }
      ReportKeepsReachable(health, url, AgentBreakers.Allow(now));
      AgentBreakers.StepKeepsInv(health[url].config, health[url].breaker, AgentBreakers.Allow(now));
      admitted := table[url].AllowRequest(now);
      health := health[url := health[url].(breaker := AskGuard(health[url], now).0)];
    }

    method FirstAdmitting(candidates: seq<AgentCard>, now: nat) returns (r: Option<AgentCard>)
      requires Valid()
      modifies this`health, table.Values
      ensures Valid()
      ensures r == FirstServed(old(health), candidates, now) && health == AfterServing(old(health), r, now)
      ensures match r
              case None => health == old(health) && forall c :: c in candidates ==> !TakesCalls(old(health), c.url, now)
              case Some(c) => Called(old(health), c.url, health) && IsFirstTaking(old(health), candidates, now, c)
    {
      for i := 0 to |candidates|
        invariant Valid() && health == old(health)
        invariant FirstServed(health, candidates, now) == FirstServed(health, candidates[i..], now)
        invariant forall j :: 0 <= j < i ==> !TakesCalls(health, candidates[j].url, now)
      {
        assert candidates[i..][1..] == candidates[i + 1..];
        var admitted := Ask(candidates[i].url, now);
        if admitted {
          return Some(candidates[i]);
        }
      }
      assert candidates[|candidates|..] == [];
      r := None;
    }

    method RecordSuccess(url: string)
      requires Valid()
      modifies this`health, table.Values
      ensures Valid()
      ensures health == Reported(old(health), url, AgentBreakers.Success(0))
      ensures health == if url in old(health)
                        then old(health)[url := old(health)[url].(breaker := AgentBreakers.FRESH)] else old(health)
    {
      if url in table {
        ReportKeepsReachable(health, url, AgentBreakers.Success(0));
        table[url].RecordSuccess();
        health := Reported(health, url, AgentBreakers.Success(0));
      }
    }

    method RecordFailure(url: string, now: nat)
      requires Valid()
      modifies this`health, table.Values
      ensures Valid()
      ensures health == Reported(old(health), url, AgentBreakers.Failure(now))
    {
      if url in table {
        ReportKeepsReachable(health, url, AgentBreakers.Failure(now));
        table[url].RecordFailure(now);
        health := Reported(health, url, AgentBreakers.Failure(now));
      }
    }
  }
}

/** The agent fleet of `crates/lc-a2a/src/scale.rs`. The clock is read by the caller. */
module AgentFleets {
  import opened Common
  import opened Relevance
  import opened Rankings
  import opened FleetIndexes
  import opened TaskGraphs
  import opened AgentRouting
  import AgentBreakers

  const TWO_TO_64: nat := 0x1_0000_0000_0000_0000
  const FNV_OFFSET: nat := 0xcbf2_9ce4_8422_2325
  const FNV_PRIME: nat := 0x0000_0100_0000_01b3

  /** One FNV-1a round: the byte is xored into the low end, and the product wraps at 64 bits. */
  function Mix(hash: nat, b: bv8): nat {
    var low := ((hash % 256) as bv8 ^ b) as nat;
    (hash - hash % 256 + low) * FNV_PRIME % TWO_TO_64
  }

  function Fnv(bytes: seq<bv8>): nat {
    if bytes == [] then FNV_OFFSET else Mix(Fnv(bytes[..|bytes| - 1]), bytes[|bytes| - 1])
  }

  method Fnv1a(bytes: seq<bv8>) returns (hash: nat)
    ensures hash == Fnv(bytes)
  {
    hash := FNV_OFFSET;
    for i := 0 to |bytes|
      invariant hash == Fnv(bytes[..i])
    {
      assert bytes[..i + 1][..i] == bytes[..i];
      hash := Mix(hash, bytes[i]);
    }
    assert bytes[..|bytes|] == bytes;
  }

  /** The slot of a key among at least one slot. */
  function SlotOf(key: seq<bv8>, slots: nat): (slot: nat)
    ensures slot < Max(1, slots)
  {
    Fnv(key) % Max(1, slots)
  }

  /** Going around the slots some number of times from there takes the whole hash. */
  lemma SlotIsRemainder(key: seq<bv8>, slots: nat) returns (turns: nat)
    requires slots > 0
    ensures Fnv(key) == turns * slots + SlotOf(key, slots)
  {
    turns := Fnv(key) / slots;
    DivMod(Fnv(key), slots);
  }

  lemma SlotsOfTwo()
    ensures SlotOf([0x61], 2) == 0 && SlotOf([0x66], 2) == 1
  {
    FnvOfA();
    FnvOfF();
    SlotIsHash([0x61], 0xaf63_dc4c_8601_ec8c, 2);
    SlotIsHash([0x66], 0xaf63_db4c_8601_ead9, 2);
  }

  lemma SlotIsHash(key: seq<bv8>, hash: nat, slots: nat)
    requires Fnv(key) == hash && slots > 0
    ensures SlotOf(key, slots) == hash % slots
  {
  }

  lemma DivMod(n: nat, m: nat)
    requires m > 0
    ensures n == n / m * m + n % m
  {
  }

  lemma MixLow(hash: nat, low: nat, b: bv8)
    requires low == ((hash % 256) as bv8 ^ b) as nat
    ensures Mix(hash, b) == (hash - hash % 256 + low) * FNV_PRIME % TWO_TO_64
  {
  }

  /** Published vectors of the 64-bit hash: nothing, "a", "f" and "fo". */
  lemma FnvVectors()
    ensures Fnv([]) == 0xcbf2_9ce4_8422_2325
    ensures Fnv([0x61]) == 0xaf63_dc4c_8601_ec8c
    ensures Fnv([0x66]) == 0xaf63_db4c_8601_ead9
    ensures Fnv([0x66, 0x6f]) == 0x0898_5907_b541_d342
  {
    FnvOfA();
    FnvOfF();
    MixO();
    assert [0x66 as bv8, 0x6f][..1] == [0x66];
  }

  lemma FnvOfByte(b: bv8)
    ensures Fnv([b]) == Mix(FNV_OFFSET, b)
  {
    assert [b][..0] == [];
  }

  lemma FnvOfA()
    ensures Fnv([0x61]) == 0xaf63_dc4c_8601_ec8c
  {
    FnvOfByte(0x61);
    MixA();
  }

  lemma FnvOfF()
    ensures Fnv([0x66]) == 0xaf63_db4c_8601_ead9
  {
    FnvOfByte(0x66);
    MixF();
  }

  lemma MixA()
    ensures Mix(FNV_OFFSET, 0x61) == 0xaf63_dc4c_8601_ec8c
  {
    assert FNV_OFFSET % 256 == 0x25;
    assert (0x25 as bv8 ^ 0x61) as nat == 0x44;
    MixLow(FNV_OFFSET, 0x44, 0x61);
  }

  lemma MixF()
    ensures Mix(FNV_OFFSET, 0x66) == 0xaf63_db4c_8601_ead9
  {
    assert FNV_OFFSET % 256 == 0x25;
    assert (0x25 as bv8 ^ 0x66) as nat == 0x43;
    MixLow(FNV_OFFSET, 0x43, 0x66);
  }

  lemma MixO()
    ensures Mix(0xaf63_db4c_8601_ead9, 0x6f) == 0x0898_5907_b541_d342
  {
    assert 0xaf63_db4c_8601_ead9 % 256 == 0xd9;
    assert (0xd9 as bv8 ^ 0x6f) as nat == 0xb6;
    MixLow(0xaf63_db4c_8601_ead9, 0xb6, 0x6f);
  }

  ghost function QueryScore(tx: Text, query: string): Scorer {
    (s: AgentSkill) => CosineSq(Tokens(tx, query), Tokens(tx, s.description))
  }

  function Routed(query: string, served: Option<AgentCard>): Result<AgentCard, ScaleError> {
    match served
    case Some(card) => Ok(card)
    case None => Err(NoAgentAvailable(query))
  }

  /** The registry as routing sees it. */
  datatype Registry = Registry(order: seq<string>, cards: Cards, orchestrators: set<string>, maxHops: nat)

  /** The cards of the relevant agents in candidate order. */
  ghost function RelevantCards(g: Registry, tx: Text, query: string): seq<AgentCard> {
    Lookup(g.cards, Candidates(QueryScore(tx, query), g.order, g.cards))
  }

  /** The agent in the key's slot is tried first if it is relevant. */
  ghost function StickyOrder(g: Registry, tx: Text, query: string, key: seq<bv8>): seq<AgentCard> {
    var ranked := RelevantCards(g, tx, query);
    if g.order == [] then ranked
    else
      var pinned := g.order[SlotOf(key, |g.order|)];
      WithUrl(ranked, pinned) + WithoutUrl(ranked, pinned)
  }

  /** Among the relevant agents themselves, the one in the task's slot is tried first. */
  ghost function TaskOrder(g: Registry, tx: Text, query: string, taskId: seq<bv8>): seq<AgentCard> {
    var ranked := RelevantCards(g, tx, query);
    if ranked == [] then []
    else
      var pinned := ranked[SlotOf(taskId, |ranked|)].url;
      WithUrl(ranked, pinned) + WithoutUrl(ranked, pinned)
  }

  /** Only orchestrators delegate; an unknown agent counts as a worker. */
  predicate MayDelegate(orchestrators: set<string>, from: string) {
    from in orchestrators
  }

  /** What delegated routing refuses before it asks any breaker: a spent hop budget, then a worker as caller. */
  function Gate(g: Registry, ranked: seq<AgentCard>, from: string, hops: nat): Option<ScaleError> {
    if hops > g.maxHops then Some(HopLimitExceeded(hops, g.maxHops))
    else if ranked != [] && !MayDelegate(g.orchestrators, from) then Some(WorkerToWorker)
    else None
  }

  class AgentFleet {
    var index: seq<SkillEntry>
    var cards: Cards
    /** Registration order, the slot space of sticky routing. */
    var order: seq<string>
    var orchestrators: set<string>
    var maxHops: nat
    var breakerConfig: AgentBreakers.Config
    const breakers: BreakerTable
    const graph: TaskGraph

    function View(): Registry
      reads this
    {
      Registry(order, cards, orchestrators, maxHops)
    }

    ghost predicate Valid()
      reads this, breakers, breakers.table.Values, graph
    {
      && Registered(order, cards)
      && breakers.Valid() && breakers.health.Keys == cards.Keys
      && Acyclic(graph.children)
    }

    /** The index mirrors the registered cards. */
    ghost predicate Indexed()
      reads this
    {
      index == Flatten(order, cards)
    }

    constructor (config: AgentBreakers.Config, maxHops: nat, orchestrators: set<string>)
      ensures Valid() && Indexed() && order == [] && breakerConfig == config
      ensures this.maxHops == maxHops && this.orchestrators == orchestrators
      ensures fresh(graph) && fresh(breakers)
    {
      index, cards, order := [], map[], [];
      breakers := new BreakerTable();
      breakerConfig, this.maxHops, this.orchestrators := config, maxHops, orchestrators;
      graph := new TaskGraph();
      new;
      EmptyIsAcyclic();
    }

    /** A new URL takes the next slot and a fresh breaker; a known one keeps both and has its card replaced. */
    method Register(card: AgentCard)
      requires Valid()
      modifies this`index, this`cards, this`order, breakers
      ensures Valid() && Indexed()
      ensures cards == old(cards)[card.url := card]
      ensures order == if card.url in old(cards) then old(order) else old(order) + [card.url]
      ensures breakers.health == if card.url in old(cards) then old(breakers.health)
                                 else old(breakers.health)[card.url := Guard(breakerConfig, AgentBreakers.FRESH)]
    {
      Enroll(card);
      assert breakers.Valid();
      RebuildIndex();
      assert breakers.Valid();
    }

    method Enroll(card: AgentCard)
      requires Valid()
      modifies this`cards, this`order, breakers
      ensures Valid()
      ensures cards == old(cards)[card.url := card]
      ensures order == if card.url in old(cards) then old(order) else old(order) + [card.url]
      ensures breakers.health == if card.url in old(cards) then old(breakers.health)
                                 else old(breakers.health)[card.url := Guard(breakerConfig, AgentBreakers.FRESH)]
    {
      if card.url !in cards {
        breakers.Insert(card.url, breakerConfig);
      }
      UpdateSlot(card);
    }

    method UpdateSlot(card: AgentCard)
      requires Registered(order, cards)
      modifies this`cards, this`order
      ensures Registered(order, cards)
      ensures cards == old(cards)[card.url := card]
      ensures order == if card.url in old(cards) then old(order) else old(order) + [card.url]
    {
      RegisterKeepsSlots(order, cards, card);
      if card.url !in cards {
        order := order + [card.url];
      }
      cards := cards[card.url := card];
    }

    method RebuildIndex()
      modifies this`index
      ensures index == Flatten(order, cards)
    {
      var rebuilt: seq<SkillEntry> := [];
      for i := 0 to |order|
        invariant rebuilt == Flatten(order[..i], cards)
      {
        assert order[..i + 1][..i] == order[..i];
        if order[i] in cards {
          rebuilt := rebuilt + EntriesOf(cards[order[i]]);
        }
      }
      assert order[..|order|] == order;
      index := rebuilt;
    }

    method Search(tx: Text, query: string, limit: nat) returns (found: seq<SkillEntry>)
      ensures found == Found(QueryScore(tx, query), index, limit)
      ensures IsTop(QueryScore(tx, query), index, limit, found)
    {
      FoundIsTop(QueryScore(tx, query), index, limit);
      var scores := ScoreEntries(tx, query);
      var ranked := EntriesAt(index, Rank(scores, |index|));
      found := ranked[..if limit < |ranked| then limit else |ranked|];
    }

    method ScoreEntries(tx: Text, query: string) returns (scores: seq<real>)
      ensures scores == EntryScores(QueryScore(tx, query), index)
    {
      ghost var wanted := EntryScores(QueryScore(tx, query), index);
      var queryTokens := Tokens(tx, query);
      scores := [];
      for i := 0 to |index|
        invariant |scores| == i && scores == wanted[..i]
      {
        var score := Cosine(queryTokens, Tokens(tx, index[i].skill.description));
        scores := scores + [score];
      }
    }

    /** The relevant agents, best first, each once. */
    method RelevantAgents(tx: Text, query: string) returns (out: seq<AgentCard>)
      requires Indexed()
      ensures out == RelevantCards(View(), tx, query)
    {
      var found := Search(tx, query, |index|);
      out := KeepFirst(found);
      FoundInFull(QueryScore(tx, query), index, found);
    }

    /** The loop that keeps the first entry of each agent. */
    method KeepFirst(found: seq<SkillEntry>) returns (out: seq<AgentCard>)
      ensures out == Lookup(cards, Dedupe(EntryUrls(found)))
    {
      ghost var urls := EntryUrls(found);
      var seen: set<string> := {};
      out := [];
      for k := 0 to |found|
        invariant forall u :: u in seen <==> u in Dedupe(urls[..k])
        invariant out == Lookup(cards, Dedupe(urls[..k]))
      {
        var url := found[k].agentUrl;
        assert urls[..k + 1][..k] == urls[..k] && urls[..k + 1][k] == url;
        if url !in seen {
          seen := seen + {url};
          assert (Dedupe(urls[..k]) + [url])[..|Dedupe(urls[..k])|] == Dedupe(urls[..k]);
          if url in cards {
            out := out + [cards[url]];
          }
        }
      }
      assert urls[..|found|] == urls;
    }

    // ---------- Routing through the breakers ----------

    method ServeFirst(candidates: seq<AgentCard>, query: string, now: nat) returns (r: Result<AgentCard, ScaleError>)
      requires Valid()
      modifies breakers`health, breakers.table.Values
      ensures Valid()
      ensures var served := FirstServed(old(breakers.health), candidates, now);
              r == Routed(query, served) && breakers.health == AfterServing(old(breakers.health), served, now)
    {
      var served := breakers.FirstAdmitting(candidates, now);
      r := Routed(query, served);
    }

    method Route(tx: Text, query: string, now: nat) returns (r: Result<AgentCard, ScaleError>)
      requires Valid() && Indexed()
      modifies breakers`health, breakers.table.Values
      ensures Valid() && Indexed()
      ensures var served := FirstServed(old(breakers.health), RelevantCards(old(View()), tx, query), now);
              r == Routed(query, served) && breakers.health == AfterServing(old(breakers.health), served, now)
      ensures BestServed(old(View()), tx, query, old(breakers.health), now, r, breakers.health)
    {
      ghost var g, h := View(), breakers.health;
      var candidates := RelevantAgents(tx, query);
      r := ServeFirst(candidates, query, now);
      BestAgentIsServed(g, tx, query, h, now);
    }

    method StickyCandidates(tx: Text, query: string, key: seq<bv8>) returns (ordered: seq<AgentCard>)
      requires Indexed()
      ensures ordered == StickyOrder(View(), tx, query, key)
    {
      var candidates := RelevantAgents(tx, query);
      if candidates == [] {
        return [];
      }
      var hash := Fnv1a(key);
      var slot := hash % if |order| < 1 then 1 else |order|;
      var pinned := if slot < |order| then Some(order[slot]) else None;
      ordered := PreferFirst(candidates, pinned);
    }

    method RouteSticky(tx: Text, query: string, key: seq<bv8>, now: nat) returns (r: Result<AgentCard, ScaleError>)
      requires Valid() && Indexed()
      modifies breakers`health, breakers.table.Values
      ensures Valid() && Indexed()
      ensures var served := FirstServed(old(breakers.health), StickyOrder(old(View()), tx, query, key), now);
              r == Routed(query, served) && breakers.health == AfterServing(old(breakers.health), served, now)
      ensures PinServed(old(View()), tx, query, old(breakers.health), now, StickyPin(old(View()), key),
                        r, breakers.health)
    {
      ghost var g, h := View(), breakers.health;
      var ordered := StickyCandidates(tx, query, key);
      r := ServeFirst(ordered, query, now);
      StickyServesThePin(g, tx, query, key, h, now);
    }

    method TaskCandidates(tx: Text, query: string, taskId: seq<bv8>) returns (ordered: seq<AgentCard>)
      requires Indexed()
      ensures ordered == TaskOrder(View(), tx, query, taskId)
    {
      var candidates := RelevantAgents(tx, query);
      if candidates == [] {
        return [];
      }
      var hash := Fnv1a(taskId);
      var shard := hash % |candidates|;
      ordered := PreferFirst(candidates, Some(candidates[shard].url));
    }

    method RouteForTask(tx: Text, taskId: seq<bv8>, query: string, now: nat) returns (r: Result<AgentCard, ScaleError>)
      requires Valid() && Indexed()
      modifies breakers`health, breakers.table.Values
      ensures Valid() && Indexed()
      ensures var served := FirstServed(old(breakers.health), TaskOrder(old(View()), tx, query, taskId), now);
              r == Routed(query, served) && breakers.health == AfterServing(old(breakers.health), served, now)
      ensures PinServed(old(View()), tx, query, old(breakers.health), now, TaskPin(old(View()), tx, query, taskId),
                        r, breakers.health)
    {
      ghost var g, h := View(), breakers.health;
      var ordered := TaskCandidates(tx, query, taskId);
      r := ServeFirst(ordered, query, now);
      TaskServesThePin(g, tx, query, taskId, h, now);
    }

    // ---------- Delegation ----------

    method RouteFrom(tx: Text, from: string, hops: nat, query: string, now: nat)
      returns (r: Result<AgentCard, ScaleError>)
      requires Valid() && Indexed()
      modifies breakers`health, breakers.table.Values
      ensures Valid() && Indexed()
      ensures var ranked := RelevantCards(old(View()), tx, query);
              match Gate(old(View()), ranked, from, hops)
              case Some(e) => r == Err(e) && breakers.health == old(breakers.health)
              case None =>
                var served := FirstServed(old(breakers.health), ranked, now);
                r == Routed(query, served) && breakers.health == AfterServing(old(breakers.health), served, now)
      ensures DelegationServed(old(View()), tx, query, old(breakers.health), now, from, hops, r, breakers.health)
    {
      DelegationIsGated(View(), tx, query, breakers.health, now, from, hops);
      if hops > maxHops {
        return Err(HopLimitExceeded(hops, maxHops));
      }
      var candidates := RelevantAgents(tx, query);
      r := ServeDelegable(candidates, from, hops, query, now);
    }

    method ServeDelegable(candidates: seq<AgentCard>, from: string, hops: nat, query: string, now: nat)
      returns (r: Result<AgentCard, ScaleError>)
      requires Valid() && hops <= maxHops
      modifies breakers`health, breakers.table.Values
      ensures Valid()
      ensures match Gate(old(View()), candidates, from, hops)
              case Some(e) => r == Err(e) && breakers.health == old(breakers.health)
              case None =>
                var served := FirstServed(old(breakers.health), candidates, now);
                r == Routed(query, served) && breakers.health == AfterServing(old(breakers.health), served, now)
    {
      if candidates == [] {
        return Err(NoAgentAvailable(query));
      }
      var allowed := FilterDelegable(from, candidates);
      if allowed == [] {
        return Err(WorkerToWorker);
      }
      r := ServeFirst(allowed, query, now);
    }

    /** The policy looks at the caller's tier alone, so either every candidate passes or none does. */
    method FilterDelegable(from: string, candidates: seq<AgentCard>) returns (allowed: seq<AgentCard>)
      ensures allowed == if MayDelegate(orchestrators, from) then candidates else []
    {
      allowed := [];
      for i := 0 to |candidates|
        invariant allowed == if MayDelegate(orchestrators, from) then candidates[..i] else []
      {
        if MayDelegate(orchestrators, from) {
          allowed := allowed + [candidates[i]];
        }
      }
    }

    method RecordSuccess(url: string)
      requires Valid()
      modifies breakers`health, breakers.table.Values
      ensures Valid() && breakers.health == Reported(old(breakers.health), url, AgentBreakers.Success(0))
      ensures breakers.health ==
              if url in old(breakers.health)
              then old(breakers.health)[url := old(breakers.health)[url].(breaker := AgentBreakers.FRESH)]
              else old(breakers.health)
    {
      breakers.RecordSuccess(url);
    }

    method RecordFailure(url: string, now: nat)
      requires Valid()
      modifies breakers`health, breakers.table.Values
      ensures Valid() && breakers.health == Reported(old(breakers.health), url, AgentBreakers.Failure(now))
    {
      breakers.RecordFailure(url, now);
    }

    /** The fleet's delegation graph only ever takes edges that keep it acyclic. */
    method LinkDelegation(parent: string, child: string) returns (r: Result<(), ScaleError>)
      requires Valid()
      modifies graph
      ensures Valid()
      ensures graph.children == LinkStep(old(graph.children), parent, child)
      ensures r.Err? <==> !Acyclic(AddEdge(old(graph.children), parent, child))
      ensures r.Err? ==> r.error == CycleDetected(parent, child) && graph.children == old(graph.children)
      ensures r.Ok? ==> forall x, y :: Mult(graph.children, y)(x) ==
                                       Mult(old(graph.children), y)(x) + if (x, y) == (parent, child) then 1 else 0
    {
      AddEdgeClosesCycle(graph.children, parent, child);
      forall x, y
        ensures Mult(AddEdge(graph.children, parent, child), y)(x) ==
                Mult(graph.children, y)(x) + if (x, y) == (parent, child) then 1 else 0
      {
        AddEdgeCounts(graph.children, parent, child, x, y);
      }
      r := graph.Link(parent, child);
    }

    method IsDelegationAcyclic() returns (acyclic: bool)
      requires Valid()
      ensures acyclic
    {
      acyclic := graph.IsAcyclic();
    }
  }

  // ---------- What routing promises ----------

  /** The cards are the relevant ones, each as registered, from the most preferred to the least. */
  ghost predicate IsRanked(score: Scorer, order: seq<string>, cards: Cards, ranked: seq<AgentCard>) {
    && (forall k :: 0 <= k < |ranked| ==> RankedCard(score, cards, ranked[k]))
    && (forall u :: u in cards && BestScore(score, cards[u].skills) > 0.0 ==> cards[u] in ranked)
    && (forall a, b :: 0 <= a < b < |ranked| ==> Preferred(score, order, cards, ranked[a].url, ranked[b].url))
  }

  ghost predicate RankedCard(score: Scorer, cards: Cards, c: AgentCard) {
    c.url in cards && cards[c.url] == c && BestScore(score, c.skills) > 0.0
  }

  lemma LookupIsRanked(score: Scorer, order: seq<string>, cards: Cards, urls: seq<string>)
    requires Registered(order, cards) && IsCandidateOrder(score, order, cards, urls)
    ensures IsRanked(score, order, cards, Lookup(cards, urls))
  {
    LookupIsFaithful(order, cards, urls);
    var ranked := Lookup(cards, urls);
    forall u | u in cards && BestScore(score, cards[u].skills) > 0.0
      ensures cards[u] in ranked
    {
      var k :| 0 <= k < |urls| && urls[k] == u;
      assert ranked[k] == cards[u];
    }
    forall k | 0 <= k < |ranked|
      ensures RankedCard(score, cards, ranked[k])
    {
      assert urls[k] in urls;
    }
  }

  lemma RelevantCardsAreRanked(g: Registry, tx: Text, query: string)
    requires Registered(g.order, g.cards)
    ensures IsRanked(QueryScore(tx, query), g.order, g.cards, RelevantCards(g, tx, query))
  {
    CandidatesInOrder(QueryScore(tx, query), g.order, g.cards);
    LookupIsRanked(QueryScore(tx, query), g.order, g.cards, Candidates(QueryScore(tx, query), g.order, g.cards));
  }

  lemma PreferenceIsStrict(score: Scorer, order: seq<string>, cards: Cards, a: string, b: string)
    requires Distinct(order) && Preferred(score, order, cards, a, b)
    ensures !Preferred(score, order, cards, b, a)
  {
  }

  lemma ServedIsBest(score: Scorer, order: seq<string>, cards: Cards, ranked: seq<AgentCard>, h: Health, now: nat)
    requires Registered(order, cards) && IsRanked(score, order, cards, ranked)
    ensures match FirstServed(h, ranked, now)
            case Some(c) =>
              && RankedCard(score, cards, c) && !Refuses(h, c.url, now)
              && (forall u :: u in cards && Preferred(score, order, cards, u, c.url) ==> Refuses(h, u, now))
            case None => forall u :: u in cards && BestScore(score, cards[u].skills) > 0.0 ==> Refuses(h, u, now)
  {
    ServedIsFirstAdmitting(h, ranked, now);
    var served := FirstServed(h, ranked, now);
    forall u | u in cards && BestScore(score, cards[u].skills) > 0.0
      ensures served.None? ==> Refuses(h, u, now)
      ensures served.Some? && Preferred(score, order, cards, u, served.value.url) ==> Refuses(h, u, now)
    {
      var j :| 0 <= j < |ranked| && ranked[j] == cards[u];
      if served.Some? && Preferred(score, order, cards, u, served.value.url) {
        PreferenceIsStrict(score, order, cards, u, served.value.url);
      }
    }
  }

  /** The agent has a skill that the query is relevant to. */
  ghost predicate IsRelevant(g: Registry, tx: Text, query: string, url: string) {
    url in g.cards && BestScore(QueryScore(tx, query), g.cards[url].skills) > 0.0
  }

  /** Relevance is a shared word: the query has one in common with the description of one of the agent's skills. */
  lemma RelevantIffWordIsShared(g: Registry, tx: Text, query: string, url: string)
    requires url in g.cards
    ensures IsRelevant(g, tx, query, url) <==>
            exists s, t :: s in g.cards[url].skills && t in Tokens(tx, query) && t in Tokens(tx, s.description)
  {
    var score, skills := QueryScore(tx, query), g.cards[url].skills;
    BestScoreIsMax(score, skills);
    forall s | s in skills
      ensures score(s) > 0.0 <==> exists t :: t in Tokens(tx, query) && t in Tokens(tx, s.description)
    {
      CosineBounds(Tokens(tx, query), Tokens(tx, s.description));
    }
  }

  /**
   The answer is a registered, relevant agent that takes calls, all agents preferred to it take none, and it alone is
   called; or there is none to give, no relevant agent takes calls, and no breaker has changed.
   */
  ghost predicate BestServed(g: Registry, tx: Text, query: string, h: Health, now: nat,
                             r: Result<AgentCard, ScaleError>, after: Health) {
    var score := QueryScore(tx, query);
    match r
    case Ok(c) =>
      && RankedCard(score, g.cards, c) && TakesCalls(h, c.url, now) && Called(h, c.url, after)
      && (forall u :: u in g.cards && Preferred(score, g.order, g.cards, u, c.url) ==> !TakesCalls(h, u, now))
    case Err(e) =>
      && e == NoAgentAvailable(query) && after == h
      && (forall u :: IsRelevant(g, tx, query, u) ==> !TakesCalls(h, u, now))
  }

  lemma BestAgentIsServed(g: Registry, tx: Text, query: string, h: Health, now: nat)
    requires Registered(g.order, g.cards)
    ensures var served := FirstServed(h, RelevantCards(g, tx, query), now);
            BestServed(g, tx, query, h, now, Routed(query, served), AfterServing(h, served, now))
  {
    var served := FirstServed(h, RelevantCards(g, tx, query), now);
    RelevantCardsAreRanked(g, tx, query);
    ServedIsBest(QueryScore(tx, query), g.order, g.cards, RelevantCards(g, tx, query), h, now);
    forall u
      ensures Refuses(h, u, now) <==> !TakesCalls(h, u, now)
    {
      RefusedExactly(h, u, now);
    }
    if served.Some? {
      ServingCalls(h, served.value, now);
    }
  }

  /** The pinned agent is served and called if it is relevant and takes calls; if not, it is as without a pin. */
  ghost predicate PinServed(g: Registry, tx: Text, query: string, h: Health, now: nat, pinned: Option<string>,
                            r: Result<AgentCard, ScaleError>, after: Health) {
    if pinned.Some? && IsRelevant(g, tx, query, pinned.value) && TakesCalls(h, pinned.value, now)
    then r == Ok(g.cards[pinned.value]) && Called(h, pinned.value, after)
    else BestServed(g, tx, query, h, now, r, after)
  }

  lemma RankedCardIsUnique(score: Scorer, order: seq<string>, cards: Cards, ranked: seq<AgentCard>, url: string)
    requires Registered(order, cards) && IsRanked(score, order, cards, ranked) && url in cards
    ensures forall c :: c in ranked && c.url == url ==> c == cards[url]
    ensures BestScore(score, cards[url].skills) > 0.0 <==> cards[url] in ranked
  {
    forall c | c in ranked
      ensures RankedCard(score, cards, c)
    {
    }
  }

  /** The order of candidates with a pin: the pinned card first, if it is among them, and all others as they were. */
  lemma PinnedOrder(g: Registry, tx: Text, query: string, pinned: string)
    requires Registered(g.order, g.cards)
    ensures var ranked := RelevantCards(g, tx, query);
            var ordered := WithUrl(ranked, pinned) + WithoutUrl(ranked, pinned);
            if IsRelevant(g, tx, query, pinned)
            then exists k :: 0 <= k < |ranked| && ranked[k] == g.cards[pinned] &&
                             ordered == [ranked[k]] + (ranked[..k] + ranked[k + 1..])
            else ordered == ranked
  {
    var ranked := RelevantCards(g, tx, query);
    RelevantCardsAreRanked(g, tx, query);
    if IsRelevant(g, tx, query, pinned) {
      var k :| 0 <= k < |ranked| && ranked[k] == g.cards[pinned];
      RankedUrlsDiffer(QueryScore(tx, query), g.order, g.cards, ranked);
      assert ranked[k].url == pinned;
      PinningMovesOne(ranked, k);
    } else {
      forall i | 0 <= i < |ranked|
        ensures ranked[i].url != pinned
      {
        assert RankedCard(QueryScore(tx, query), g.cards, ranked[i]);
      }
      AbsentPinChangesNothing(ranked, pinned);
    }
  }

  lemma RankedUrlsDiffer(score: Scorer, order: seq<string>, cards: Cards, ranked: seq<AgentCard>)
    requires Registered(order, cards) && IsRanked(score, order, cards, ranked)
    ensures forall i, j :: 0 <= i < |ranked| && 0 <= j < |ranked| && i != j ==> ranked[i].url != ranked[j].url
  {
    forall i, j | 0 <= i < j < |ranked|
      ensures ranked[i].url != ranked[j].url
    {
      PreferenceIsStrict(score, order, cards, ranked[i].url, ranked[j].url);
    }
  }

  lemma PinIsServed(g: Registry, tx: Text, query: string, pinned: string, h: Health, now: nat)
    requires Registered(g.order, g.cards)
    ensures var ranked := RelevantCards(g, tx, query);
            var served := FirstServed(h, WithUrl(ranked, pinned) + WithoutUrl(ranked, pinned), now);
            PinServed(g, tx, query, h, now, Some(pinned), Routed(query, served), AfterServing(h, served, now))
  {
    var ranked := RelevantCards(g, tx, query);
    RefusedExactly(h, pinned, now);
    BestAgentIsServed(g, tx, query, h, now);
    PinnedOrder(g, tx, query, pinned);
    if Refuses(h, pinned, now) {
      RefusedPinIsNoPin(h, ranked, pinned, now);
    } else if IsRelevant(g, tx, query, pinned) {
      ServingCalls(h, g.cards[pinned], now);
    }
  }

  /**
   Delegated routing: beyond the hop budget nothing is served; a caller that may not delegate is told so, or that there
   is no relevant agent; for any other it is as without delegation. Only the last touches a breaker.
   */
  ghost predicate DelegationServed(g: Registry, tx: Text, query: string, h: Health, now: nat, from: string, hops: nat,
                                   r: Result<AgentCard, ScaleError>, after: Health) {
    if hops > g.maxHops then r == Err(HopLimitExceeded(hops, g.maxHops)) && after == h
    else if from in g.orchestrators then BestServed(g, tx, query, h, now, r, after)
    else
      && after == h
      && r == Err(if exists u :: IsRelevant(g, tx, query, u) then WorkerToWorker else NoAgentAvailable(query))
  }

  lemma DelegationIsGated(g: Registry, tx: Text, query: string, h: Health, now: nat, from: string, hops: nat)
    requires Registered(g.order, g.cards)
    ensures var ranked := RelevantCards(g, tx, query);
            var served := FirstServed(h, ranked, now);
            match Gate(g, ranked, from, hops)
            case Some(e) => DelegationServed(g, tx, query, h, now, from, hops, Err(e), h)
            case None => DelegationServed(g, tx, query, h, now, from, hops,
                                          Routed(query, served), AfterServing(h, served, now))
  {
    var ranked := RelevantCards(g, tx, query);
    RelevantCardsAreRanked(g, tx, query);
    BestAgentIsServed(g, tx, query, h, now);
    if ranked != [] {
      assert RankedCard(QueryScore(tx, query), g.cards, ranked[0]);
      assert IsRelevant(g, tx, query, ranked[0].url);
    } else {
      assert forall u :: !IsRelevant(g, tx, query, u);
    }
  }

  /** The agent in the key's slot, in registration order. */
  function StickyPin(g: Registry, key: seq<bv8>): Option<string> {
    if g.order == [] then None else Some(g.order[SlotOf(key, |g.order|)])
  }

  /** Sticky routing serves the agent in the key's slot if it is relevant and takes calls, and routes as ever if not. */
  lemma StickyServesThePin(g: Registry, tx: Text, query: string, key: seq<bv8>, h: Health, now: nat)
    requires Registered(g.order, g.cards)
    ensures var served := FirstServed(h, StickyOrder(g, tx, query, key), now);
            PinServed(g, tx, query, h, now, StickyPin(g, key), Routed(query, served), AfterServing(h, served, now))
  {
    if g.order == [] {
      BestAgentIsServed(g, tx, query, h, now);
    } else {
      PinIsServed(g, tx, query, g.order[SlotOf(key, |g.order|)], h, now);
    }
  }

  /** Keys are spread by their hash: of two agents one is pinned by the key "a" and the other by "f". */
  lemma KeysAreSpread(g: Registry)
    requires |g.order| == 2
    ensures StickyPin(g, [0x61]) == Some(g.order[0]) && StickyPin(g, [0x66]) == Some(g.order[1])
  {
    SlotsOfTwo();
  }

  /** The agent in the task's slot among the relevant ones. */
  ghost function TaskPin(g: Registry, tx: Text, query: string, taskId: seq<bv8>): Option<string> {
    var ranked := RelevantCards(g, tx, query);
    if ranked == [] then None else Some(ranked[SlotOf(taskId, |ranked|)].url)
  }

  lemma TasksAreSpread(g: Registry, tx: Text, query: string)
    requires |RelevantCards(g, tx, query)| == 2
    ensures TaskPin(g, tx, query, [0x61]) == Some(RelevantCards(g, tx, query)[0].url)
    ensures TaskPin(g, tx, query, [0x66]) == Some(RelevantCards(g, tx, query)[1].url)
  {
    SlotsOfTwo();
  }

  /** Task routing serves the agent in the task's slot among the relevant ones if it takes calls. */
  lemma TaskServesThePin(g: Registry, tx: Text, query: string, taskId: seq<bv8>, h: Health, now: nat)
    requires Registered(g.order, g.cards)
    ensures var served := FirstServed(h, TaskOrder(g, tx, query, taskId), now);
            PinServed(g, tx, query, h, now, TaskPin(g, tx, query, taskId),
                      Routed(query, served), AfterServing(h, served, now))
    ensures TaskPin(g, tx, query, taskId).None? <==> forall u :: !IsRelevant(g, tx, query, u)
    ensures TaskPin(g, tx, query, taskId).Some? ==> IsRelevant(g, tx, query, TaskPin(g, tx, query, taskId).value)
  {
    var ranked := RelevantCards(g, tx, query);
    RelevantCardsAreRanked(g, tx, query);
    if ranked == [] {
      BestAgentIsServed(g, tx, query, h, now);
    } else {
      var slot := SlotOf(taskId, |ranked|);
      assert RankedCard(QueryScore(tx, query), g.cards, ranked[slot]);
      PinIsServed(g, tx, query, ranked[slot].url, h, now);
    }
  }

  function EntryUrls(es: seq<SkillEntry>): seq<string> {
    seq(|es|, k requires 0 <= k < |es| => es[k].agentUrl)
  }

  /** An unlimited search returns the whole ranking. */
  lemma FoundInFull(score: Scorer, entries: seq<SkillEntry>, found: seq<SkillEntry>)
    requires found == Found(score, entries, |entries|)
    ensures EntryUrls(found) == FoundUrls(score, entries)
  {
    var scores, idx := FoundFacts(score, entries);
    RankingIsShort(scores, |entries|, idx);
    assert EntriesAt(entries, idx)[..|idx|] == EntriesAt(entries, idx);
  }

  lemma RankingIsShort(scores: seq<real>, n: nat, idx: seq<int>)
    requires IsRanking(scores, n, idx)
    ensures |idx| <= n
  {
    forall a, b | 0 <= a < b < |idx|
      ensures idx[a] != idx[b]
    {
      assert Better(scores, idx[a], idx[b]);
    }
    DistinctBelow(idx, n);
  }

  lemma {:induction false} DistinctBelow(idx: seq<int>, n: nat)
    requires Distinct(idx) && forall i :: i in idx ==> 0 <= i < n
    ensures |idx| <= n
  {
    if idx == [] {
    } else if n - 1 in idx {
      var k :| 0 <= k < |idx| && idx[k] == n - 1;
      var rest := idx[..k] + idx[k + 1..];
      assert forall i :: i in rest ==> i in idx;
      DistinctBelow(rest, n - 1);
    } else {
      assert idx[0] in idx;
      DistinctBelow(idx, n - 1);
    }
  }
}
