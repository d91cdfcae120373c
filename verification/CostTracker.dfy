/**
 The cost tracker of `crates/lc-core/src/cost.rs`, with money as reals. Every recording
 runs under one lock, so concurrent runs sharing a tracker are a sequence of charges.
 */
module CostTracking {
  import opened Common
  import opened RealSum

  type Scope = Option<string>

  datatype CostType = Llm | Tool | Embedding

  datatype ModelPrice = ModelPrice(inputPer1k: real, outputPer1k: real)
  {
    function CostOf(promptTokens: nat, completionTokens: nat): real {
      (promptTokens as real / 1000.0) * inputPer1k + (completionTokens as real / 1000.0) * outputPer1k
    }
  }

  datatype PricingTable = PricingTable(qualified: map<(string, string), ModelPrice>, modelOnly: map<string, ModelPrice>)
  {
    /** The provider's own entry first, then the entry for the model alone. */
    function Get(provider: Option<string>, model: string): Option<ModelPrice> {
      if provider.Some? && (provider.value, model) in qualified then Some(qualified[(provider.value, model)])
      else if model in modelOnly then Some(modelOnly[model])
      else None
    }

    /** A model without a price is counted at no cost. */
    function Price(provider: Option<string>, model: string, promptTokens: nat, completionTokens: nat): real {
      match Get(provider, model)
      case Some(p) => p.CostOf(promptTokens, completionTokens)
      case None => 0.0
    }
  }

  /** A thousand tokens of one kind cost their price, and costs add up. */
  lemma CostIsLinear(p: ModelPrice, a: nat, b: nat, x: nat, y: nat)
    ensures p.CostOf(1000, 0) == p.inputPer1k && p.CostOf(0, 1000) == p.outputPer1k
    ensures p.CostOf(a + x, b + y) == p.CostOf(a, b) + p.CostOf(x, y)
    ensures 1000.0 * p.CostOf(a, b) == a as real * p.inputPer1k + b as real * p.outputPer1k
  {
    PerThousand(a as real, p.inputPer1k);
    PerThousand(b as real, p.outputPer1k);
    PerThousand(x as real, p.inputPer1k);
    PerThousand(y as real, p.outputPer1k);
    PerThousand(a as real + x as real, p.inputPer1k);
    PerThousand(b as real + y as real, p.outputPer1k);
    SplitProduct(a as real, x as real, p.inputPer1k);
    SplitProduct(b as real, y as real, p.outputPer1k);
  }

  lemma PerThousand(n: real, price: real)
    ensures 1000.0 * ((n / 1000.0) * price) == n * price
  {
  }

  lemma SplitProduct(m: real, n: real, price: real)
    ensures (m + n) * price == m * price + n * price
  {
  }

  datatype CostRecord = CostRecord(
    provider: Option<string>, model: string, promptTokens: nat, completionTokens: nat, cost: real)

  datatype ModelSpend = ModelSpend(calls: nat, promptTokens: nat, completionTokens: nat, cost: real)

  datatype ScopeCosts = ScopeCosts(total: real, llm: real, tool: real, embedding: real)
  {
    function Kind(kind: CostType): real {
      match kind
      case Llm => llm
      case Tool => tool
      case Embedding => embedding
    }
  }

  const NO_SPEND := ModelSpend(0, 0, 0, 0.0)
  const NO_COSTS := ScopeCosts(0.0, 0.0, 0.0, 0.0)

  /** One recorded call: who is charged for what. */
  datatype Charge = Charge(scope: Scope, kind: CostType, record: CostRecord)

  datatype Inner = Inner(
    calls: nat, promptTokens: nat, completionTokens: nat, total: real,
    byModel: map<string, ModelSpend>, records: seq<CostRecord>, byScope: map<Scope, ScopeCosts>)

  const FRESH := Inner(0, 0, 0, 0.0, map[], [], map[])

  function ModelKey(r: CostRecord): string {
    match r.provider
    case Some(p) => p + "/" + r.model
    case None => r.model
  }

  predicate NoSlash(s: string) {
    '/' !in s
  }

  /**
   Which records share an entry: those of one provider and model; and a record without a provider shares that of a
   provider's model that spells out its name. Providers are meant to be names without a slash.
   */
  lemma KeysCollideExactly(a: CostRecord, b: CostRecord)
    requires a.provider.Some? ==> NoSlash(a.provider.value)
    requires b.provider.Some? ==> NoSlash(b.provider.value)
    ensures ModelKey(a) == ModelKey(b) <==>
            match (a.provider, b.provider)
            case (Some(p), Some(q)) => p == q && a.model == b.model
            case (None, None) => a.model == b.model
            case (None, Some(q)) => a.model == q + "/" + b.model
            case (Some(p), None) => p + "/" + a.model == b.model
  {
    if a.provider.Some? && b.provider.Some? && ModelKey(a) == ModelKey(b) {
      SlashSplits(a.provider.value, a.model, b.provider.value, b.model);
    }
  }

  lemma SlashSplits(p: string, m: string, q: string, n: string)
    requires NoSlash(p) && NoSlash(q) && p + "/" + m == q + "/" + n
    ensures p == q && m == n
  {
    var s := p + "/" + m;
    assert s[|p|] == '/' && s[|q|] == '/';
    assert forall i :: 0 <= i < |p| ==> s[i] == p[i];
    assert forall i :: 0 <= i < |q| ==> s[i] == q[i];
    assert p == s[..|p|] && q == s[..|q|];
    assert m == s[|p| + 1..] && n == s[|q| + 1..];
  }

  function SpendOf(m: map<string, ModelSpend>, key: string): ModelSpend {
    if key in m then m[key] else NO_SPEND
  }

  function CostsOf(m: map<Scope, ScopeCosts>, scope: Scope): ScopeCosts {
    if scope in m then m[scope] else NO_COSTS
  }

  function AddSpend(s: ModelSpend, r: CostRecord): ModelSpend {
    ModelSpend(s.calls + 1, s.promptTokens + r.promptTokens, s.completionTokens + r.completionTokens, s.cost + r.cost)
  }

  function AddCost(c: ScopeCosts, kind: CostType, cost: real): ScopeCosts {
    match kind
    case Llm => c.(total := c.total + cost, llm := c.llm + cost)
    case Tool => c.(total := c.total + cost, tool := c.tool + cost)
    case Embedding => c.(total := c.total + cost, embedding := c.embedding + cost)
  }

  function Apply(maxRecords: nat, s: Inner, c: Charge): Inner {
    var r := c.record;
    Inner(s.calls + 1, s.promptTokens + r.promptTokens, s.completionTokens + r.completionTokens, s.total + r.cost,
          s.byModel[ModelKey(r) := AddSpend(SpendOf(s.byModel, ModelKey(r)), r)],
          Last(s.records + [r], maxRecords),
          s.byScope[c.scope := AddCost(CostsOf(s.byScope, c.scope), c.kind, r.cost)])
  }

  /** What is accumulated since the last reset. */
  function Run(maxRecords: nat, charges: seq<Charge>): Inner {
    if charges == [] then FRESH
    else Apply(maxRecords, Run(maxRecords, charges[..|charges| - 1]), charges[|charges| - 1])
  }

  // ---------- The history on its own ----------

  function Spent(charges: seq<Charge>): real {
    if charges == [] then 0.0 else Spent(charges[..|charges| - 1]) + charges[|charges| - 1].record.cost
  }

  /** The charges of one scope, in order. */
  function Of(charges: seq<Charge>, scope: Scope): seq<Charge> {
    if charges == [] then []
    else
      var front, last := Of(charges[..|charges| - 1], scope), charges[|charges| - 1];
      if last.scope == scope then front + [last] else front
  }

  function OfKind(charges: seq<Charge>, kind: CostType): seq<Charge> {
    if charges == [] then []
    else
      var front, last := OfKind(charges[..|charges| - 1], kind), charges[|charges| - 1];
      if last.kind == kind then front + [last] else front
  }

  function RecordsOf(charges: seq<Charge>): seq<CostRecord> {
    if charges == [] then [] else RecordsOf(charges[..|charges| - 1]) + [charges[|charges| - 1].record]
  }

  // ---------- Conservation ----------

  function ModelWeight(m: map<string, ModelSpend>): string -> real {
    k => SpendOf(m, k).cost
  }

  function ScopeWeight(m: map<Scope, ScopeCosts>): Scope -> real {
    k => CostsOf(m, k).total
  }

  /** Changing one weight and adding its key changes the sum by the difference. */
  lemma SumUpdate<K(!new)>(keys: set<K>, f: K -> real, g: K -> real, k: K)
    requires forall j :: j in keys && j != k ==> f(j) == g(j)
    requires k !in keys ==> f(k) == 0.0
    ensures Sum(keys + {k}, g) == Sum(keys, f) + g(k) - f(k)
  {
    var rest := keys - {k};
    assert keys + {k} == rest + {k};
    SumAdd(rest, g, k);
    SumAgree(rest, f, g);
    if k in keys {
      assert keys == rest + {k};
      SumAdd(rest, f, k);
    } else {
      assert rest == keys;
    }
  }

  lemma ModelsConserve(m: map<string, ModelSpend>, r: CostRecord)
    ensures var key := ModelKey(r);
            var m' := m[key := AddSpend(SpendOf(m, key), r)];
            Sum(m'.Keys, ModelWeight(m')) == Sum(m.Keys, ModelWeight(m)) + r.cost
  {
    var key := ModelKey(r);
    var m' := m[key := AddSpend(SpendOf(m, key), r)];
    SumUpdate(m.Keys, ModelWeight(m), ModelWeight(m'), key);
    assert m'.Keys == m.Keys + {key};
  }

  lemma ScopesConserve(m: map<Scope, ScopeCosts>, scope: Scope, kind: CostType, cost: real)
    ensures var m' := m[scope := AddCost(CostsOf(m, scope), kind, cost)];
            Sum(m'.Keys, ScopeWeight(m')) == Sum(m.Keys, ScopeWeight(m)) + cost
  {
    var m' := m[scope := AddCost(CostsOf(m, scope), kind, cost)];
    SumUpdate(m.Keys, ScopeWeight(m), ScopeWeight(m'), scope);
    assert m'.Keys == m.Keys + {scope};
  }

  /** However runs interleave, the total is the money spent, the sum over models and the sum over scopes. */
  lemma {:induction false} SpendIsConserved(maxRecords: nat, charges: seq<Charge>)
    ensures var s := Run(maxRecords, charges);
            && s.total == Spent(charges) && s.calls == |charges|
            && s.total == Sum(s.byModel.Keys, ModelWeight(s.byModel))
            && s.total == Sum(s.byScope.Keys, ScopeWeight(s.byScope))
  {
    if charges != [] {
      var front := charges[..|charges| - 1];
      SpendIsConserved(maxRecords, front);
      var s, c := Run(maxRecords, front), charges[|charges| - 1];
      ModelsConserve(s.byModel, c.record);
      ScopesConserve(s.byScope, c.scope, c.kind, c.record.cost);
    }
  }

  // ---------- Isolation ----------

  /** The costs are those of the scope's own charges: in total, kind by kind, and the kinds add up to the total. */
  ghost predicate Accounts(costs: ScopeCosts, own: seq<Charge>) {
    && costs.total == Spent(own)
    && costs.total == costs.llm + costs.tool + costs.embedding
    && forall kind :: costs.Kind(kind) == Spent(OfKind(own, kind))
  }

  lemma AccountsForOneMore(costs: ScopeCosts, own: seq<Charge>, c: Charge)
    requires Accounts(costs, own)
    ensures Accounts(AddCost(costs, c.kind, c.record.cost), own + [c])
  {
  }

  /** A scope reads exactly its own charges. */
  lemma {:induction false} ScopeIsIsolated(maxRecords: nat, charges: seq<Charge>, scope: Scope)
    ensures Accounts(CostsOf(Run(maxRecords, charges).byScope, scope), Of(charges, scope))
    ensures scope in Run(maxRecords, charges).byScope <==> Of(charges, scope) != []
  {
    if charges != [] {
      var front, c := charges[..|charges| - 1], charges[|charges| - 1];
      ScopeIsIsolated(maxRecords, front, scope);
      if c.scope == scope {
        AccountsForOneMore(CostsOf(Run(maxRecords, front).byScope, scope), Of(front, scope), c);
      }
    }
  }

  /** Two histories that charge a scope alike leave it alike, whatever other scopes did meanwhile. */
  lemma OthersDoNotMatter(maxRecords: nat, charges: seq<Charge>, other: seq<Charge>, scope: Scope)
    requires Of(charges, scope) == Of(other, scope)
    ensures CostsOf(Run(maxRecords, charges).byScope, scope) == CostsOf(Run(maxRecords, other).byScope, scope)
  {
    ScopeIsIsolated(maxRecords, charges, scope);
    ScopeIsIsolated(maxRecords, other, scope);
    var a, b := CostsOf(Run(maxRecords, charges).byScope, scope), CostsOf(Run(maxRecords, other).byScope, scope);
    assert a.Kind(Llm) == b.Kind(Llm) && a.Kind(Tool) == b.Kind(Tool) && a.Kind(Embedding) == b.Kind(Embedding);
  }

  /** The charges booked under one model key, in order. */
  function OfModel(charges: seq<Charge>, key: string): seq<Charge> {
    if charges == [] then []
    else
      var front, last := OfModel(charges[..|charges| - 1], key), charges[|charges| - 1];
      if ModelKey(last.record) == key then front + [last] else front
  }

  function Usage(charges: seq<Charge>): ModelSpend {
    if charges == [] then NO_SPEND else AddSpend(Usage(charges[..|charges| - 1]), charges[|charges| - 1].record)
  }

  function PromptTokens(charges: seq<Charge>): nat {
    if charges == [] then 0
    else PromptTokens(charges[..|charges| - 1]) + charges[|charges| - 1].record.promptTokens
  }

  function CompletionTokens(charges: seq<Charge>): nat {
    if charges == [] then 0
    else CompletionTokens(charges[..|charges| - 1]) + charges[|charges| - 1].record.completionTokens
  }

  lemma {:induction false} UsageIsSpending(charges: seq<Charge>)
    ensures Usage(charges) == ModelSpend(|charges|, PromptTokens(charges), CompletionTokens(charges), Spent(charges))
  {
    if charges != [] {
      UsageIsSpending(charges[..|charges| - 1]);
    }
  }

  lemma {:induction false} CountersAreUsage(maxRecords: nat, charges: seq<Charge>)
    ensures var s := Run(maxRecords, charges);
            && Usage(charges) == ModelSpend(s.calls, s.promptTokens, s.completionTokens, s.total)
            && s.calls == |charges| && s.total == Spent(charges)
            && s.promptTokens == PromptTokens(charges) && s.completionTokens == CompletionTokens(charges)
  {
    UsageIsSpending(charges);
    if charges != [] {
      CountersAreUsage(maxRecords, charges[..|charges| - 1]);
    }
  }

  /** One charge reaches the entry of its own model key and no other. */
  lemma BooksOneModel(maxRecords: nat, s: Inner, c: Charge, key: string)
    ensures var after := Apply(maxRecords, s, c).byModel;
            && SpendOf(after, key) ==
                 (if ModelKey(c.record) == key then AddSpend(SpendOf(s.byModel, key), c.record)
                  else SpendOf(s.byModel, key))
            && (key in after <==> key in s.byModel || ModelKey(c.record) == key)
  {
  }

  lemma OfModelStep(charges: seq<Charge>, key: string)
    requires charges != []
    ensures var front, c := charges[..|charges| - 1], charges[|charges| - 1];
            && (OfModel(charges, key) != [] <==> OfModel(front, key) != [] || ModelKey(c.record) == key)
            && Usage(OfModel(charges, key)) ==
                 if ModelKey(c.record) == key then AddSpend(Usage(OfModel(front, key)), c.record)
                 else Usage(OfModel(front, key))
  {
  }

  /** A model's entry is the usage of the charges booked under its key: number, tokens and cost. */
  lemma ModelIsIsolated(maxRecords: nat, charges: seq<Charge>, key: string)
    ensures var entry, own := SpendOf(Run(maxRecords, charges).byModel, key), OfModel(charges, key);
            entry == ModelSpend(|own|, PromptTokens(own), CompletionTokens(own), Spent(own))
    ensures key in Run(maxRecords, charges).byModel <==> OfModel(charges, key) != []
  {
    EntryIsUsage(maxRecords, charges, key);
    UsageIsSpending(OfModel(charges, key));
  }

  lemma {:induction false} EntryIsUsage(maxRecords: nat, charges: seq<Charge>, key: string)
    ensures SpendOf(Run(maxRecords, charges).byModel, key) == Usage(OfModel(charges, key))
    ensures key in Run(maxRecords, charges).byModel <==> OfModel(charges, key) != []
  {
    if charges != [] {
      var front := charges[..|charges| - 1];
      EntryIsUsage(maxRecords, front, key);
      OfModelStep(charges, key);
      BooksOneModel(maxRecords, Run(maxRecords, front), charges[|charges| - 1], key);
    }
  }

  // ---------- The record buffer ----------

  lemma LastOfLast<T>(s: seq<T>, x: T, n: nat)
    ensures Last(Last(s, n) + [x], n) == Last(s + [x], n)
  {
  }

  /** The buffer holds exactly the newest `maxRecords` records of the history. */
  lemma {:induction false} RecordsAreTheNewest(maxRecords: nat, charges: seq<Charge>)
    ensures Run(maxRecords, charges).records == Last(RecordsOf(charges), maxRecords)
  {
    if charges != [] {
      var front := charges[..|charges| - 1];
      RecordsAreTheNewest(maxRecords, front);
      LastOfLast(RecordsOf(front), charges[|charges| - 1].record, maxRecords);
    }
  }

  // ---------- The tracker ----------

  /** The cost at prices a thousand tokens. */
  predicate PaidAt(p: ModelPrice, promptTokens: nat, completionTokens: nat, cost: real) {
    1000.0 * cost == promptTokens as real * p.inputPer1k + completionTokens as real * p.outputPer1k
  }

  class CostTracker {
    const table: PricingTable
    const maxRecords: nat
    var calls: nat
    var promptTokens: nat
    var completionTokens: nat
    var totalCostUsd: real
    var byModel: map<string, ModelSpend>
    var records: seq<CostRecord>
    var byScope: map<Scope, ScopeCosts>

    function View(): Inner
      reads this
    {
      Inner(calls, promptTokens, completionTokens, totalCostUsd, byModel, records, byScope)
    }

    constructor (table: PricingTable, maxRecords: nat)
      ensures this.table == table && this.maxRecords == maxRecords && View() == FRESH
    {
      this.table, this.maxRecords := table, maxRecords;
      calls, promptTokens, completionTokens, totalCostUsd := 0, 0, 0, 0.0;
      byModel, records, byScope := map[], [], map[];
    }

    method PushRecord(r: CostRecord)
      modifies this`records
      ensures records == Last(old(records) + [r], maxRecords)
    {
      records := records + [r];
      if |records| > maxRecords {
        var excess := |records| - maxRecords;
        records := records[excess..];
      }
    }

    method RecordScoped(scope: Scope, provider: Option<string>, model: string, prompt: nat, completion: nat)
      returns (cost: real)
      modifies this
      ensures cost == table.Price(provider, model, prompt, completion)
      ensures var own := provider.Some? && (provider.value, model) in table.qualified;
              && (own ==> PaidAt(table.qualified[(provider.value, model)], prompt, completion, cost))
              && (!own && model in table.modelOnly ==> PaidAt(table.modelOnly[model], prompt, completion, cost))
              && (!own && model !in table.modelOnly ==> cost == 0.0)
      ensures View() == Apply(maxRecords, old(View()),
                              Charge(scope, Llm, CostRecord(provider, model, prompt, completion, cost)))
    {
      match table.Get(provider, model) {
        case Some(p) =>
          cost := p.CostOf(prompt, completion);
          CostIsLinear(p, prompt, completion, 0, 0);
        case None => cost := 0.0;
      }
      BookCall(scope, CostRecord(provider, model, prompt, completion, cost));
    }

    /** The locked half of a recording: every counter, the model's entry, the scope and the buffer at once. */
    method BookCall(scope: Scope, r: CostRecord)
      modifies this
      ensures View() == Apply(maxRecords, old(View()), Charge(scope, Llm, r))
      ensures calls == old(calls) + 1 && totalCostUsd == old(totalCostUsd) + r.cost
      ensures promptTokens == old(promptTokens) + r.promptTokens
      ensures completionTokens == old(completionTokens) + r.completionTokens
      ensures var key := if r.provider.Some? then r.provider.value + "/" + r.model else r.model;
              && key in byModel && byModel == old(byModel)[key := byModel[key]]
              && var was := if key in old(byModel) then old(byModel)[key] else ModelSpend(0, 0, 0, 0.0);
                 byModel[key] == ModelSpend(was.calls + 1, was.promptTokens + r.promptTokens,
                                            was.completionTokens + r.completionTokens, was.cost + r.cost)
    {
      var key := ModelKey(r);
      calls := calls + 1;
      promptTokens := promptTokens + r.promptTokens;
      completionTokens := completionTokens + r.completionTokens;
      totalCostUsd := totalCostUsd + r.cost;
      var entry := if key in byModel then byModel[key] else NO_SPEND;
      byModel := byModel[key := ModelSpend(entry.calls + 1, entry.promptTokens + r.promptTokens,
                                           entry.completionTokens + r.completionTokens, entry.cost + r.cost)];
      var scoped := if scope in byScope then byScope[scope] else NO_COSTS;
      byScope := byScope[scope := scoped.(total := scoped.total + r.cost, llm := scoped.llm + r.cost)];
      assert byModel == old(byModel)[key := AddSpend(entry, r)];
      assert byScope == old(byScope)[scope := AddCost(scoped, Llm, r.cost)];
      PushRecord(r);
    }

    /** Spend priced by the caller; a negative cost is ignored. */
    method RecordCostScoped(scope: Scope, kind: CostType, provider: Option<string>, model: string, cost: real)
      modifies this
      ensures View() == if cost < 0.0 then old(View())
                        else Apply(maxRecords, old(View()),
                                   Charge(scope, kind, CostRecord(provider, model, 0, 0, cost)))
    {
      if cost < 0.0 {
        return;
      }
      var r := CostRecord(provider, model, 0, 0, cost);
      var key := ModelKey(r);
      calls := calls + 1;
      totalCostUsd := totalCostUsd + cost;
      var entry := if key in byModel then byModel[key] else NO_SPEND;
      byModel := byModel[key := entry.(calls := entry.calls + 1, cost := entry.cost + cost)];
      var scoped := if scope in byScope then byScope[scope] else NO_COSTS;
      scoped := scoped.(total := scoped.total + cost);
      match kind {
        case Llm => scoped := scoped.(llm := scoped.llm + cost);
        case Tool => scoped := scoped.(tool := scoped.tool + cost);
        case Embedding => scoped := scoped.(embedding := scoped.embedding + cost);
      }
      byScope := byScope[scope := scoped];
      assert byModel == old(byModel)[key := AddSpend(entry, r)];
      assert byScope == old(byScope)[scope := AddCost(CostsOf(old(byScope), scope), kind, cost)];
      PushRecord(r);
    }

    method RunCostUsd(scope: string) returns (cost: real)
      ensures cost == CostsOf(byScope, Some(scope)).total
      ensures cost == if Some(scope) in byScope then byScope[Some(scope)].total else 0.0
    {
      cost := if Some(scope) in byScope then byScope[Some(scope)].total else 0.0;
    }

    method RunCostUsdByType(scope: string, kind: CostType) returns (cost: real)
      ensures cost == CostsOf(byScope, Some(scope)).Kind(kind)
      ensures Some(scope) !in byScope ==> cost == 0.0
      ensures Some(scope) in byScope ==>
                && (kind == Llm ==> cost == byScope[Some(scope)].llm)
                && (kind == Tool ==> cost == byScope[Some(scope)].tool)
                && (kind == Embedding ==> cost == byScope[Some(scope)].embedding)
    {
      if Some(scope) !in byScope {
        return 0.0;
      }
      cost := byScope[Some(scope)].Kind(kind);
    }

    method Reset()
      modifies this
      ensures View() == FRESH
    {
      calls, promptTokens, completionTokens, totalCostUsd := 0, 0, 0, 0.0;
      byModel, records, byScope := map[], [], map[];
    }
  }
}
