/**
 The skill index of a fleet in `crates/lc-a2a/src/scale.rs`: how registration builds it,
 and in which order a query finds the agents. The scorer is a parameter here.
 */
module FleetIndexes {
  import opened Common
  import opened Relevance
  import opened Rankings

  datatype AgentCard = AgentCard(name: string, url: string, skills: seq<AgentSkill>)

  datatype SkillEntry = SkillEntry(skill: AgentSkill, agentUrl: string)

  type Cards = map<string, AgentCard>

  type Scorer = AgentSkill -> real

  function EntriesOf(card: AgentCard): (r: seq<SkillEntry>)
    ensures |r| == |card.skills|
    ensures forall i :: 0 <= i < |r| ==> r[i].skill == card.skills[i] && r[i].agentUrl == card.url
  {
    seq(|card.skills|, i requires 0 <= i < |card.skills| => SkillEntry(card.skills[i], card.url))
  }

  /** The index: the skills of the current cards, in the order of first registration. */
  function Flatten(order: seq<string>, cards: Cards): seq<SkillEntry> {
    if order == [] then []
    else
      var url := order[|order| - 1];
      Flatten(order[..|order| - 1], cards) + if url in cards then EntriesOf(cards[url]) else []
  }

  /** Every registered agent has one slot, and cards are kept under their own URL. */
  ghost predicate Registered(order: seq<string>, cards: Cards) {
    && Distinct(order)
    && ToSet(order) == cards.Keys
    && (forall u {:trigger cards[u]} :: u in cards ==> cards[u].url == u)
  }

  function EntryScores(score: Scorer, entries: seq<SkillEntry>): (r: seq<real>)
    ensures |r| == |entries|
  {
    seq(|entries|, i requires 0 <= i < |entries| => score(entries[i].skill))
  }

  /** The URLs of the entries found, best first. */
  function FoundUrls(score: Scorer, entries: seq<SkillEntry>): (r: seq<string>)
  {
    UrlsAt(entries, Rank(EntryScores(score, entries), |entries|))
  }

  function UrlsAt(entries: seq<SkillEntry>, idx: seq<int>): (r: seq<string>)
    requires forall i :: i in idx ==> 0 <= i < |entries|
    ensures |r| == |idx|
    ensures forall k :: 0 <= k < |r| ==> idx[k] in idx && r[k] == entries[idx[k]].agentUrl
  {
    if idx == [] then []
    else
      assert idx[0] in idx;
      assert forall i :: i in idx[1..] ==> i in idx;
      [entries[idx[0]].agentUrl] + UrlsAt(entries, idx[1..])
  }

  function EntriesAt(entries: seq<SkillEntry>, idx: seq<int>): (r: seq<SkillEntry>)
    requires forall i :: i in idx ==> 0 <= i < |entries|
    ensures |r| == |idx|
    ensures forall k :: 0 <= k < |r| ==> idx[k] in idx && r[k] == entries[idx[k]]
  {
    if idx == [] then []
    else
      assert idx[0] in idx;
      assert forall i :: i in idx[1..] ==> i in idx;
      [entries[idx[0]]] + EntriesAt(entries, idx[1..])
  }

  /** The search result: the first `limit` entries of the ranking. */
  function Found(score: Scorer, entries: seq<SkillEntry>, limit: nat): seq<SkillEntry> {
    var ranked := EntriesAt(entries, Rank(EntryScores(score, entries), |entries|));
    ranked[..Min(limit, |ranked|)]
  }

  /** `found` is what the first `limit` places of the only ranking of the entries hold. */
  ghost predicate IsTop(score: Scorer, entries: seq<SkillEntry>, limit: nat, found: seq<SkillEntry>) {
    exists idx ::
      && IsRanking(EntryScores(score, entries), |entries|, idx)
      && |found| == Min(limit, |idx|)
      && forall k :: 0 <= k < |found| ==> 0 <= idx[k] < |entries| && found[k] == entries[idx[k]]
  }

  lemma FoundIsTop(score: Scorer, entries: seq<SkillEntry>, limit: nat)
    ensures IsTop(score, entries, limit, Found(score, entries, limit))
  {
    var idx := Rank(EntryScores(score, entries), |entries|);
    RankIsRanking(EntryScores(score, entries), |entries|);
    assert forall k :: 0 <= k < |idx| ==> idx[k] in idx;
  }

  function Candidates(score: Scorer, order: seq<string>, cards: Cards): seq<string> {
    Dedupe(FoundUrls(score, Flatten(order, cards)))
  }

  /** The best score among an agent's skills; zero without skills. */
  function BestScore(score: Scorer, skills: seq<AgentSkill>): real {
    if skills == [] then 0.0
    else
      var rest, last := BestScore(score, skills[..|skills| - 1]), score(skills[|skills| - 1]);
      if rest < last then last else rest
  }

  ghost predicate Before(order: seq<string>, u: string, v: string) {
    exists i, j :: 0 <= i < j < |order| && order[i] == u && order[j] == v
  }

  // ---------- The index mirrors the registry ----------

  ghost predicate Owned(order: seq<string>, cards: Cards, e: SkillEntry) {
    e.agentUrl in order && e.agentUrl in cards && e.skill in cards[e.agentUrl].skills
  }

  /** Every entry belongs to a registered agent. */
  lemma {:induction false} EntriesAreOwned(order: seq<string>, cards: Cards)
    requires forall u :: u in order ==> u in cards && cards[u].url == u
    ensures forall e :: e in Flatten(order, cards) ==> Owned(order, cards, e)
  {
    if order != [] {
      var front, url := order[..|order| - 1], order[|order| - 1];
      assert forall u :: u in front ==> u in order;
      EntriesAreOwned(front, cards);
      assert url in order;
      forall e | e in Flatten(order, cards)
        ensures Owned(order, cards, e)
      {
        if e in Flatten(front, cards) {
          assert Owned(front, cards, e);
        } else {
          assert e in EntriesOf(cards[url]);
        }
      }
    }
  }

  ghost predicate SameOrBefore(order: seq<string>, u: string, v: string) {
    u == v || Before(order, u, v)
  }

  lemma BeforeExtends(order: seq<string>, url: string, u: string, v: string)
    requires SameOrBefore(order, u, v) || (u in order && v == url)
    ensures SameOrBefore(order + [url], u, v)
  {
    var longer := order + [url];
    if Before(order, u, v) {
      var a, b :| 0 <= a < b < |order| && order[a] == u && order[b] == v;
      assert longer[a] == u && longer[b] == v;
    } else if u != v {
      var a :| 0 <= a < |order| && order[a] == u;
      assert longer[a] == u && longer[|order|] == v;
    }
  }

  ghost predicate InOrder(order: seq<string>, es: seq<SkillEntry>) {
    forall i, j :: 0 <= i < j < |es| ==> SameOrBefore(order, es[i].agentUrl, es[j].agentUrl)
  }

  lemma InOrderExtends(order: seq<string>, url: string, es: seq<SkillEntry>, more: seq<SkillEntry>)
    requires InOrder(order, es)
    requires forall i :: 0 <= i < |es| ==> es[i].agentUrl in order
    requires forall i :: 0 <= i < |more| ==> more[i].agentUrl == url
    ensures InOrder(order + [url], es + more)
  {
    var all := es + more;
    forall i, j | 0 <= i < j < |all|
      ensures SameOrBefore(order + [url], all[i].agentUrl, all[j].agentUrl)
    {
      if i < |es| {
        BeforeExtends(order, url, all[i].agentUrl, all[j].agentUrl);
      }
    }
  }

  /** Entries stand in registration order, each agent's together. */
  lemma {:induction false} EntriesInOrder(order: seq<string>, cards: Cards)
    requires forall u :: u in order ==> u in cards && cards[u].url == u
    ensures InOrder(order, Flatten(order, cards))
  {
    if order != [] {
      var front, url := order[..|order| - 1], order[|order| - 1];
      assert forall u :: u in front ==> u in order;
      assert url in order && order == front + [url];
      EntriesInOrder(front, cards);
      EntriesAreOwned(front, cards);
      var fs := Flatten(front, cards);
      forall i | 0 <= i < |fs|
        ensures fs[i].agentUrl in front
      {
        assert fs[i] in fs;
        assert Owned(front, cards, fs[i]);
      }
      InOrderExtends(front, url, fs, EntriesOf(cards[url]));
    }
  }

  /** Every skill of every registered agent is in the index. */
  lemma {:induction false} SkillsAreIndexed(order: seq<string>, cards: Cards, u: string, s: AgentSkill)
    requires forall v :: v in order ==> v in cards && cards[v].url == v
    requires u in order && s in cards[u].skills
    ensures SkillEntry(s, u) in Flatten(order, cards)
  {
    var n := |order| - 1;
    var front := order[..n];
    if order[n] == u {
      var i :| 0 <= i < |cards[u].skills| && cards[u].skills[i] == s;
      assert EntriesOf(cards[u])[i] == SkillEntry(s, u);
    } else {
      assert u in front;
      assert forall v :: v in front ==> v in order;
      SkillsAreIndexed(front, cards, u, s);
    }
  }

  /** The index depends on the cards in the slots alone. */
  lemma {:induction false} FlattenAgrees(order: seq<string>, cards: Cards, other: Cards)
    requires forall u :: u in order ==> (u in cards <==> u in other)
    requires forall u :: u in order ==> (u in cards && u in other ==> cards[u] == other[u])
    ensures Flatten(order, cards) == Flatten(order, other)
  {
    if order != [] {
      assert order[|order| - 1] in order;
      assert forall u :: u in order[..|order| - 1] ==> u in order;
      FlattenAgrees(order[..|order| - 1], cards, other);
    }
  }

  lemma {:induction false} FlattenConcat(order: seq<string>, more: seq<string>, cards: Cards)
    ensures Flatten(order + more, cards) == Flatten(order, cards) + Flatten(more, cards)
    decreases |more|
  {
    if more == [] {
      assert order + more == order;
    } else {
      var front, url := more[..|more| - 1], more[|more| - 1];
      FlattenConcat(order, front, cards);
      assert (order + more)[..|order + more| - 1] == order + front;
      var last := if url in cards then EntriesOf(cards[url]) else [];
      EntriesAssoc(Flatten(order, cards), Flatten(front, cards), last);
    }
  }

  lemma EntriesAssoc(a: seq<SkillEntry>, b: seq<SkillEntry>, c: seq<SkillEntry>)
    ensures (a + b) + c == a + (b + c)
  {
  }

  lemma FlattenAround(order: seq<string>, cards: Cards, i: nat)
    requires i < |order| && order[i] in cards
    ensures Flatten(order, cards) ==
            Flatten(order[..i], cards) + EntriesOf(cards[order[i]]) + Flatten(order[i + 1..], cards)
  {
    FlattenConcat(order[..i], [order[i]], cards);
    assert [order[i]][..0] == [];
    assert Flatten([order[i]], cards) == EntriesOf(cards[order[i]]);
    FlattenConcat(order[..i] + [order[i]], order[i + 1..], cards);
    assert order == order[..i] + [order[i]] + order[i + 1..];
  }

  /** A new agent's skills go to the end of the index, and what was there stays. */
  lemma NewAgentIsAppended(order: seq<string>, cards: Cards, card: AgentCard)
    requires Registered(order, cards) && card.url !in cards
    ensures Flatten(order + [card.url], cards[card.url := card]) == Flatten(order, cards) + EntriesOf(card)
  {
    assert card.url !in ToSet(order);
    FlattenAgrees(order, cards, cards[card.url := card]);
    assert (order + [card.url])[..|order|] == order;
  }

  /** Registering a known agent again replaces its entries where they stand: all others stay where they are. */
  lemma KnownAgentIsReplaced(order: seq<string>, cards: Cards, card: AgentCard, i: nat)
    requires Registered(order, cards) && i < |order| && order[i] == card.url
    ensures card.url in cards
    ensures var before, after := Flatten(order[..i], cards), Flatten(order[i + 1..], cards);
            && Flatten(order, cards) == before + EntriesOf(cards[card.url]) + after
            && Flatten(order, cards[card.url := card]) == before + EntriesOf(card) + after
  {
    assert order[i] in ToSet(order);
    var others := cards[card.url := card];
    FlattenAround(order, cards, i);
    FlattenAround(order, others, i);
    FlattenAgrees(order[..i], cards, others);
    FlattenAgrees(order[i + 1..], cards, others);
  }

  // ---------- The order of candidates ----------

  lemma {:induction false} BestScoreIsMax(score: Scorer, skills: seq<AgentSkill>)
    ensures forall s :: s in skills ==> score(s) <= BestScore(score, skills)
    ensures BestScore(score, skills) == 0.0 || exists s :: s in skills && score(s) == BestScore(score, skills)
    ensures BestScore(score, skills) >= 0.0
  {
    if skills != [] {
      var n := |skills| - 1;
      BestScoreIsMax(score, skills[..n]);
      assert skills[n] in skills;
      assert forall s :: s in skills ==> s in skills[..n] || s == skills[n];
      assert forall s :: s in skills[..n] ==> s in skills;
    }
  }

  /** Where an agent is first found, its best skill is found, and the earliest of equals. */
  lemma FirstIsBest(scores: seq<real>, entries: seq<SkillEntry>, idx: seq<int>, u: string, k: int, i: int)
    requires |scores| == |entries| && IsRanking(scores, |entries|, idx)
    requires forall j :: j in idx ==> 0 <= j < |entries|
    requires FirstAt(UrlsAt(entries, idx), u, k)
    requires 0 <= i < |entries| && entries[i].agentUrl == u
    ensures 0 <= idx[k] < |entries| && entries[idx[k]].agentUrl == u && Relevant(scores, idx[k])
    ensures i == idx[k] || Better(scores, idx[k], i)
  {
    var urls := UrlsAt(entries, idx);
    assert idx[k] in idx;
    if Relevant(scores, i) {
      assert i in idx;
      var m :| 0 <= m < |idx| && idx[m] == i;
      assert urls[m] == u;
      assert urls[m] in urls[..m + 1];
      FirstIsBefore(urls, u, k, m + 1);
    }
  }

  lemma FoundFacts(score: Scorer, entries: seq<SkillEntry>) returns (scores: seq<real>, idx: seq<int>)
    ensures scores == EntryScores(score, entries) && idx == Rank(scores, |entries|)
    ensures FoundUrls(score, entries) == UrlsAt(entries, idx)
    ensures IsRanking(scores, |entries|, idx)
    ensures forall j :: j in idx ==> 0 <= j < |entries|
  {
    scores := EntryScores(score, entries);
    idx := Rank(scores, |entries|);
    RankIsRanking(scores, |entries|);
  }

  lemma OwnerIsRegistered(score: Scorer, order: seq<string>, cards: Cards, u: string, k: int)
    requires Registered(order, cards)
    requires FirstAt(FoundUrls(score, Flatten(order, cards)), u, k)
    ensures u in order && u in cards
  {
    var entries := Flatten(order, cards);
    var scores, idx := FoundFacts(score, entries);
    EntriesAreOwned(order, cards);
    assert idx[k] in idx;
    assert entries[idx[k]] in entries;
  }

  lemma FoundWithinBest(score: Scorer, order: seq<string>, cards: Cards, u: string, k: int)
    requires Registered(order, cards)
    requires FirstAt(FoundUrls(score, Flatten(order, cards)), u, k)
    ensures var entries := Flatten(order, cards);
            var idx := Rank(EntryScores(score, entries), |entries|);
            && u in order && u in cards
            && 0 <= k < |idx| && 0 <= idx[k] < |entries| && entries[idx[k]].agentUrl == u
            && 0.0 < ScoreAt(EntryScores(score, entries), idx[k]) <= BestScore(score, cards[u].skills)
  {
    var entries := Flatten(order, cards);
    var scores, idx := FoundFacts(score, entries);
    OwnerIsRegistered(score, order, cards, u, k);
    BestScoreIsMax(score, cards[u].skills);
    assert idx[k] in idx;
    EntriesAreOwned(order, cards);
    assert entries[idx[k]] in entries;
    assert Owned(order, cards, entries[idx[k]]);
  }

  /** The score at an agent's first find is the agent's best score. */
  lemma FoundAtBestScore(score: Scorer, order: seq<string>, cards: Cards, u: string, k: int)
    requires Registered(order, cards)
    requires FirstAt(FoundUrls(score, Flatten(order, cards)), u, k)
    ensures var entries := Flatten(order, cards);
            var idx := Rank(EntryScores(score, entries), |entries|);
            && u in cards
            && 0 <= k < |idx| && 0 <= idx[k] < |entries| && entries[idx[k]].agentUrl == u
            && ScoreAt(EntryScores(score, entries), idx[k]) == BestScore(score, cards[u].skills) > 0.0
  {
    FoundWithinBest(score, order, cards, u, k);
    var i := BestEntry(score, order, cards, u);
    var entries := Flatten(order, cards);
    var scores, idx := FoundFacts(score, entries);
    FirstIsBest(scores, entries, idx, u, k, i);
  }

  lemma BestEntry(score: Scorer, order: seq<string>, cards: Cards, u: string) returns (i: int)
    requires Registered(order, cards) && u in order && BestScore(score, cards[u].skills) > 0.0
    ensures 0 <= i < |Flatten(order, cards)| && Flatten(order, cards)[i].agentUrl == u
    ensures ScoreAt(EntryScores(score, Flatten(order, cards)), i) == BestScore(score, cards[u].skills)
  {
    BestScoreIsMax(score, cards[u].skills);
    var s :| s in cards[u].skills && score(s) == BestScore(score, cards[u].skills);
    SkillsAreIndexed(order, cards, u, s);
    i :| 0 <= i < |Flatten(order, cards)| && Flatten(order, cards)[i] == SkillEntry(s, u);
  }

  /** `a` comes before `b`: a better best skill, or the same and registered earlier. */
  ghost predicate Preferred(score: Scorer, order: seq<string>, cards: Cards, a: string, b: string) {
    && a in cards && b in cards
    && var x, y := BestScore(score, cards[a].skills), BestScore(score, cards[b].skills);
       x > y || (x == y && Before(order, a, b))
  }

  /** Each relevant agent once, by its best skill, equal agents in registration order. */
  ghost predicate IsCandidateOrder(score: Scorer, order: seq<string>, cards: Cards, urls: seq<string>) {
    && Distinct(urls)
    && (forall u :: u in urls <==> u in cards && BestScore(score, cards[u].skills) > 0.0)
    && (forall a, b :: 0 <= a < b < |urls| ==> Preferred(score, order, cards, urls[a], urls[b]))
  }

  lemma CandidatesAreRelevant(score: Scorer, order: seq<string>, cards: Cards, u: string)
    requires Registered(order, cards)
    ensures u in FoundUrls(score, Flatten(order, cards)) <==> u in cards && BestScore(score, cards[u].skills) > 0.0
  {
    var entries := Flatten(order, cards);
    var scores := EntryScores(score, entries);
    var urls := FoundUrls(score, entries);
    DedupeOrder(urls);
    if u in urls {
      var k :| FirstAt(urls, u, k);
      FoundAtBestScore(score, order, cards, u, k);
    } else if u in cards && BestScore(score, cards[u].skills) > 0.0 {
      var i := BestEntry(score, order, cards, u);
      RankedUrlIsFound(score, entries, i);
    }
  }

  lemma RankedUrlIsFound(score: Scorer, entries: seq<SkillEntry>, i: int)
    requires 0 <= i < |entries| && Relevant(EntryScores(score, entries), i)
    ensures entries[i].agentUrl in FoundUrls(score, entries)
  {
  }

  lemma CandidatePair(score: Scorer, order: seq<string>, cards: Cards, u: string, v: string, k: int, l: int)
    requires Registered(order, cards) && u != v && k < l
    requires FirstAt(FoundUrls(score, Flatten(order, cards)), u, k)
    requires FirstAt(FoundUrls(score, Flatten(order, cards)), v, l)
    ensures Preferred(score, order, cards, u, v)
  {
    var entries := Flatten(order, cards);
    var scores, idx := EntryScores(score, entries), Rank(EntryScores(score, entries), |entries|);
    FoundAtBestScore(score, order, cards, u, k);
    FoundAtBestScore(score, order, cards, v, l);
    RankedPair(scores, |entries|, k, l);
    if idx[k] < idx[l] {
      EntryPair(order, cards, idx[k], idx[l]);
    }
  }

  lemma RankedPair(scores: seq<real>, n: nat, k: int, l: int)
    requires 0 <= k < l < |Rank(scores, n)|
    ensures Better(scores, Rank(scores, n)[k], Rank(scores, n)[l])
  {
    RankIsRanking(scores, n);
  }

  lemma EntryPair(order: seq<string>, cards: Cards, i: int, j: int)
    requires Registered(order, cards) && 0 <= i < j < |Flatten(order, cards)|
    ensures SameOrBefore(order, Flatten(order, cards)[i].agentUrl, Flatten(order, cards)[j].agentUrl)
  {
    EntriesInOrder(order, cards);
  }

  /** The candidate loop lists every relevant agent once, in exactly this order. */
  lemma CandidatesInOrder(score: Scorer, order: seq<string>, cards: Cards)
    requires Registered(order, cards)
    ensures IsCandidateOrder(score, order, cards, Candidates(score, order, cards))
  {
    var urls := FoundUrls(score, Flatten(order, cards));
    var c := Dedupe(urls);
    DedupeOrder(urls);
    forall u
      ensures u in c <==> u in cards && BestScore(score, cards[u].skills) > 0.0
    {
      CandidatesAreRelevant(score, order, cards, u);
    }
    forall a, b | 0 <= a < b < |c|
      ensures Preferred(score, order, cards, c[a], c[b])
    {
      assert c[a] in c && c[b] in c;
      var k :| FirstAt(urls, c[a], k);
      var l :| FirstAt(urls, c[b], l);
      CandidatePair(score, order, cards, c[a], c[b], k, l);
    }
  }

  /** The cards behind a list of URLs. */
  function Lookup(cards: Cards, urls: seq<string>): seq<AgentCard> {
    if urls == [] then []
    else
      var url := urls[|urls| - 1];
      Lookup(cards, urls[..|urls| - 1]) + if url in cards then [cards[url]] else []
  }

  lemma {:induction false} LookupAt(cards: Cards, urls: seq<string>)
    requires forall k :: 0 <= k < |urls| ==> urls[k] in cards
    ensures |Lookup(cards, urls)| == |urls|
    ensures forall k :: 0 <= k < |urls| ==> Lookup(cards, urls)[k] == cards[urls[k]]
  {
    if urls != [] {
      LookupAt(cards, urls[..|urls| - 1]);
    }
  }

  lemma LookupIsFaithful(order: seq<string>, cards: Cards, urls: seq<string>)
    requires Registered(order, cards) && forall u :: u in urls ==> u in cards
    ensures |Lookup(cards, urls)| == |urls|
    ensures forall k :: 0 <= k < |urls| ==> urls[k] in cards && Lookup(cards, urls)[k] == cards[urls[k]]
    ensures forall k :: 0 <= k < |urls| ==> Lookup(cards, urls)[k].url == urls[k]
  {
    LookupAt(cards, urls);
  }

  /** Registering keeps one slot per agent: a new URL goes last, a known one stays where it is. */
  lemma RegisterKeepsSlots(order: seq<string>, cards: Cards, card: AgentCard)
    requires Registered(order, cards)
    ensures Registered(if card.url in cards then order else order + [card.url], cards[card.url := card])
  {
  }

  // ---------- Moving a pinned agent to the front ----------

  function WithUrl(cards: seq<AgentCard>, url: string): seq<AgentCard> {
    if cards == [] then []
    else
      var front, last := WithUrl(cards[..|cards| - 1], url), cards[|cards| - 1];
      if last.url == url then front + [last] else front
  }

  function WithoutUrl(cards: seq<AgentCard>, url: string): seq<AgentCard> {
    if cards == [] then []
    else
      var front, last := WithoutUrl(cards[..|cards| - 1], url), cards[|cards| - 1];
      if last.url == url then front else front + [last]
  }

  method PreferFirst(candidates: seq<AgentCard>, preferred: Option<string>) returns (r: seq<AgentCard>)
    ensures preferred.None? ==> r == candidates
    ensures preferred.Some? ==> r == WithUrl(candidates, preferred.value) + WithoutUrl(candidates, preferred.value)
  {
    if preferred.None? {
      return candidates;
    }
    var url := preferred.value;
    var first: seq<AgentCard>, rest: seq<AgentCard> := [], [];
    for i := 0 to |candidates|
      invariant first == WithUrl(candidates[..i], url) && rest == WithoutUrl(candidates[..i], url)
    {
      assert candidates[..i + 1][..i] == candidates[..i];
      if candidates[i].url == url {
        first := first + [candidates[i]];
      } else {
        rest := rest + [candidates[i]];
      }
    }
    assert candidates[..|candidates|] == candidates;
    if first == [] {
      return rest;
    }
    r := first + rest;
  }

  /** Pinning permutes the candidates. */
  lemma {:induction false} PinningPermutes(cards: seq<AgentCard>, url: string)
    ensures multiset(WithUrl(cards, url) + WithoutUrl(cards, url)) == multiset(cards)
    ensures forall c :: c in WithUrl(cards, url) <==> c in cards && c.url == url
  {
    if cards != [] {
      var front, last := cards[..|cards| - 1], cards[|cards| - 1];
      assert cards == front + [last];
      PinningPermutes(front, url);
    }
  }

  /** A pin that is not among the candidates leaves their order unchanged. */
  lemma {:induction false} AbsentPinChangesNothing(cards: seq<AgentCard>, url: string)
    requires forall i :: 0 <= i < |cards| ==> cards[i].url != url
    ensures WithUrl(cards, url) == [] && WithoutUrl(cards, url) == cards
  {
    if cards != [] {
      AbsentPinChangesNothing(cards[..|cards| - 1], url);
    }
  }

  /** Pinning moves the pinned card to the front and leaves all others in their order. */
  lemma {:induction false} PinningMovesOne(cards: seq<AgentCard>, k: nat)
    requires k < |cards| && forall i :: 0 <= i < |cards| && i != k ==> cards[i].url != cards[k].url
    ensures WithUrl(cards, cards[k].url) == [cards[k]]
    ensures WithoutUrl(cards, cards[k].url) == cards[..k] + cards[k + 1..]
  {
    var front, last := cards[..|cards| - 1], cards[|cards| - 1];
    if k == |front| {
      AbsentPinChangesNothing(front, last.url);
    } else {
      PinningMovesOne(front, k);
      assert cards[k + 1..] == front[k + 1..] + [last] && cards[..k] == front[..k];
    }
  }

  /** A pinned agent that is a candidate is tried first. */
  lemma PinnedIsTriedFirst(cards: seq<AgentCard>, card: AgentCard)
    requires card in cards && forall c :: c in cards && c.url == card.url ==> c == card
    ensures (WithUrl(cards, card.url) + WithoutUrl(cards, card.url))[0] == card
  {
    PinningPermutes(cards, card.url);
    var first := WithUrl(cards, card.url);
    assert card in first;
    assert first[0] in first;
  }
}
