/**
 Two bounded first-in-first-out tables kept as a queue beside a map: the response cache of
 `crates/lc-agents/src/cache.rs` and the active trace spans of `crates/lc-callbacks/src/base.rs`.
 */
module FifoTables {
  import opened Common

  type Key = string

  /** The queue lists the keys of the map, each once. */
  ghost predicate Listed<V>(order: seq<Key>, m: map<Key, V>) {
    Distinct(order) && ToSet(order) == m.Keys
  }

  lemma LastAppend<T>(s: seq<T>, x: T, n: Positive)
    ensures var longer := Last(s, n) + [x];
            Last(s + [x], n) == if |longer| > n then longer[1..] else longer
  {
  }

  lemma ListedSize<V>(order: seq<Key>, m: map<Key, V>)
    requires Listed(order, m)
    ensures |m| == |order|
  {
    DistinctSize(order);
    assert |m.Keys| == |m|;
  }

  lemma ListedAppend<V>(order: seq<Key>, m: map<Key, V>, k: Key, v: V)
    requires Listed(order, m) && k !in m
    ensures Listed(order + [k], m[k := v])
  {
  }

  function RemoveAt<T>(s: seq<T>, i: nat): seq<T>
    requires i < |s|
  {
    s[..i] + s[i + 1..]
  }

  lemma MultisetRemoveAt<T>(s: seq<T>, i: nat)
    requires i < |s|
    ensures multiset(s) == multiset(RemoveAt(s, i)) + multiset{s[i]}
  {
    assert s == s[..i] + [s[i]] + s[i + 1..];
  }

  lemma ListedRemoveAt<V>(order: seq<Key>, m: map<Key, V>, i: nat)
    requires Listed(order, m) && i < |order|
    ensures Listed(RemoveAt(order, i), m - {order[i]})
  {
  }

  lemma ListedRemoveFirst<V>(order: seq<Key>, m: map<Key, V>)
    requires Listed(order, m) && order != []
    ensures Listed(order[1..], m - {order[0]})
  {
  }
}

module MemoryCaches {
  import opened Common
  import opened FifoTables

  datatype Cache = Cache(entries: map<Key, string>, order: seq<Key>)

  const EMPTY := Cache(map[], [])

  datatype Op = Put(key: Key, value: string) | Clear

  /** Storing under a resident key keeps its place; a new key goes last and may push out the first. */
  function Step(capacity: Positive, c: Cache, op: Op): Cache {
    match op
    case Clear => EMPTY
    case Put(k, v) =>
      if k in c.entries then c.(entries := c.entries[k := v])
      else
        var entries, order := c.entries[k := v], c.order + [k];
        if |order| > capacity then Cache(entries - {order[0]}, order[1..]) else Cache(entries, order)
  }

  function Run(capacity: Positive, ops: seq<Op>): Cache {
    if ops == [] then EMPTY else Step(capacity, Run(capacity, ops[..|ops| - 1]), ops[|ops| - 1])
  }

  ghost predicate Inv(capacity: Positive, c: Cache) {
    Listed(c.order, c.entries) && |c.order| <= capacity
  }

  lemma StepKeepsInv(capacity: Positive, c: Cache, op: Op)
    requires Inv(capacity, c)
    ensures Inv(capacity, Step(capacity, c, op))
  {
    if op.Put? {
      if op.key in c.entries {
        assert c.entries[op.key := op.value].Keys == c.entries.Keys;
      } else {
        ListedAppend(c.order, c.entries, op.key, op.value);
        ListedRemoveFirst(c.order + [op.key], c.entries[op.key := op.value]);
      }
    }
  }

  lemma {:induction false} ReachableInv(capacity: Positive, ops: seq<Op>)
    ensures Inv(capacity, Run(capacity, ops))
  {
    if ops != [] {
      ReachableInv(capacity, ops[..|ops| - 1]);
      StepKeepsInv(capacity, Run(capacity, ops[..|ops| - 1]), ops[|ops| - 1]);
    }
  }

  // ---------- What the history says ----------

  /** The value last put under `k` since the last clear. */
  function LastPut(ops: seq<Op>, k: Key): Option<string> {
    if ops == [] then None
    else
      match ops[|ops| - 1]
      case Clear => None
      case Put(j, v) => if j == k then Some(v) else LastPut(ops[..|ops| - 1], k)
  }

  /** The keys in the order they came in since the last clear, a key anew each time it was not resident. */
  function Arrivals(capacity: Positive, ops: seq<Op>): seq<Key> {
    if ops == [] then []
    else
      var front := ops[..|ops| - 1];
      match ops[|ops| - 1]
      case Clear => []
      case Put(k, _) =>
        if k in Run(capacity, front).entries then Arrivals(capacity, front) else Arrivals(capacity, front) + [k]
  }

  /** Eviction follows arrival: after any history exactly the newest `capacity` arrivals are resident, in that order. */
  lemma {:induction false} NewestArrivalsStay(capacity: Positive, ops: seq<Op>)
    ensures Run(capacity, ops).order == Last(Arrivals(capacity, ops), capacity)
  {
    if ops != [] {
      var front := ops[..|ops| - 1];
      NewestArrivalsStay(capacity, front);
      match ops[|ops| - 1]
      case Clear =>
      case Put(k, _) =>
        LastAppend(Arrivals(capacity, front), k, capacity);
    }
  }

  /** Every hit is the value last put under that key since the last clear. */
  lemma {:induction false} HitsAreCurrent(capacity: Positive, ops: seq<Op>, k: Key)
    requires k in Run(capacity, ops).entries
    ensures LastPut(ops, k) == Some(Run(capacity, ops).entries[k])
  {
    var front := ops[..|ops| - 1];
    if k in Run(capacity, front).entries {
      HitsAreCurrent(capacity, front, k);
    }
  }

  class MemoryCache {
    var entries: map<Key, string>
    var order: seq<Key>
    const maxEntries: Positive

    ghost function View(): Cache
      reads this
    {
      Cache(entries, order)
    }

    constructor (maxEntries: nat)
      ensures this.maxEntries == Max(1, maxEntries) && View() == EMPTY
    {
      this.maxEntries := if maxEntries < 1 then 1 else maxEntries;
      entries, order := map[], [];
    }

    method Get(key: Key) returns (r: Option<string>)
      ensures r.Some? <==> key in entries
      ensures r.Some? ==> r.value == entries[key]
    {
      r := if key in entries then Some(entries[key]) else None;
    }

    method PutEntry(key: Key, value: string)
      requires Inv(maxEntries, View())
      modifies this
      ensures View() == Step(maxEntries, old(View()), Put(key, value)) && Inv(maxEntries, View())
      ensures key in entries && entries[key] == value
      ensures key in old(entries) || |old(order)| < maxEntries ==> entries == old(entries)[key := value]
      ensures key in old(entries) ==> order == old(order)
      ensures key !in old(entries) && |old(order)| < maxEntries ==> order == old(order) + [key]
      ensures key !in old(entries) && |old(order)| == maxEntries ==>
                order == old(order)[1..] + [key] && entries == old(entries)[key := value] - {old(order)[0]}
    {
      StepKeepsInv(maxEntries, View(), Put(key, value));
      if key !in entries {
        order := order + [key];
      }
      entries := entries[key := value];
      ghost var queued, stored := order, entries;
      while |order| > maxEntries
        invariant (order == queued && entries == stored) ||
                  (|queued| > maxEntries && order == queued[1..] && entries == stored - {queued[0]})
        decreases |order|
      {
        var oldest := order[0];
        order := order[1..];
        entries := entries - {oldest};
      }
    }

    method ClearAll()
      modifies this
      ensures View() == Step(maxEntries, old(View()), Clear) && entries == map[] && order == []
    {
      entries, order := map[], [];
    }
  }
}

module ActiveSpanTables {
  import opened Common
  import opened FifoTables

  /** A started span; spans are numbered in the order they were started. */
  type Guard = nat

  const MAX_ACTIVE_TRACE_SPANS: Positive := 4096

  datatype Spans = Spans(active: map<Key, Guard>, order: seq<Key>)

  /** A span started by a call that has not taken the table's lock for the second time yet. */
  datatype Pending = Pending(key: Key, guard: Guard)

  /**
   The table, the spans between their start and their second look at it, the spans ended so far, the spans ever put
   into the table, both in that order, and the number of spans started.
   */
  datatype World = World(spans: Spans, pending: seq<Pending>, ended: seq<Guard>, inserted: seq<Guard>, started: nat)

  const FRESH := World(Spans(map[], []), [], [], [], 0)

  /**
   The steps concurrent runs interleave: `Start` is a first look at the table and the start of a span, `Publish` the
   second look of the call at a position of the pending list, `End` the paired end of a run.
   */
  datatype Op = Start(key: Key) | Publish(at: nat) | End(key: Key)

  function IndexOf(s: seq<Key>, k: Key): (r: nat)
    requires k in s
    ensures r < |s| && s[r] == k && k !in s[..r]
  {
    if s[0] == k then 0
    else
      var r := IndexOf(s[1..], k);
      assert s[..r + 1] == [s[0]] + s[1..][..r];
      r + 1
  }

  /** Makes room for one more: the keys at the head of the queue go, and their spans end, until there is some. */
  function MakeRoom(capacity: Positive, w: World): World
    decreases |w.spans.order|
  {
    var t := w.spans;
    if |t.active| < capacity || t.order == [] then w
    else if t.order[0] in t.active then
      MakeRoom(capacity, w.(spans := Spans(t.active - {t.order[0]}, t.order[1..]),
                            ended := w.ended + [t.active[t.order[0]]]))
    else
      MakeRoom(capacity, w.(spans := t.(order := t.order[1..])))
  }

  function Insert(w: World, key: Key, guard: Guard): World {
    w.(spans := Spans(w.spans.active[key := guard], w.spans.order + [key]), inserted := w.inserted + [guard])
  }

  function Step(capacity: Positive, w: World, op: Op): World {
    var t := w.spans;
    match op
    case Start(key) =>
      if key in t.active then w
      else w.(pending := w.pending + [Pending(key, w.started)], started := w.started + 1)
    case Publish(i) =>
      if i >= |w.pending| then w
      else
        var p := w.pending[i];
        var taken := w.(pending := RemoveAt(w.pending, i));
        if p.key in t.active then taken.(ended := w.ended + [p.guard])
        else Insert(MakeRoom(capacity, taken), p.key, p.guard)
    case End(key) =>
      var order := if key in t.order then RemoveAt(t.order, IndexOf(t.order, key)) else t.order;
      w.(spans := Spans(t.active - {key}, order),
         ended := if key in t.active then w.ended + [t.active[key]] else w.ended)
  }

  function Run(capacity: Positive, ops: seq<Op>): World {
    if ops == [] then FRESH else Step(capacity, Run(capacity, ops[..|ops| - 1]), ops[|ops| - 1])
  }

  // ---------- What every interleaving keeps ----------

  /** The active spans in queue order. */
  function ActiveOf(order: seq<Key>, active: map<Key, Guard>): (r: seq<Guard>)
    ensures |r| == |order|
    ensures forall i :: 0 <= i < |order| && order[i] in active ==> r[i] == active[order[i]]
  {
    seq(|order|, i requires 0 <= i < |order| => if order[i] in active then active[order[i]] else 0)
  }

  function Active(t: Spans): seq<Guard> {
    ActiveOf(t.order, t.active)
  }

  function Guards(pending: seq<Pending>): (r: seq<Guard>)
    ensures |r| == |pending| && forall i :: 0 <= i < |r| ==> r[i] == pending[i].guard
  {
    seq(|pending|, i requires 0 <= i < |pending| => pending[i].guard)
  }

  function Upto(n: nat): seq<Guard> {
    seq(n, i => i)
  }

  /** `s` is what is left of `t` after some entries were struck out. */
  predicate IsWithin(s: seq<Guard>, t: seq<Guard>) {
    if s == [] then true
    else if t == [] then false
    else if s[|s| - 1] == t[|t| - 1] then IsWithin(s[..|s| - 1], t[..|t| - 1])
    else IsWithin(s, t[..|t| - 1])
  }

  /** Every span ever started is, once, ended, in the table or on its way there. */
  ghost predicate Balanced(ended: seq<Guard>, active: seq<Guard>, pending: seq<Guard>, started: nat) {
    multiset(ended) + multiset(active) + multiset(pending) == multiset(Upto(started))
  }

  ghost predicate Inv(capacity: Positive, w: World) {
    && Listed(w.spans.order, w.spans.active) && |w.spans.order| <= capacity
    && Balanced(w.ended, Active(w.spans), Guards(w.pending), w.started)
    && IsWithin(Active(w.spans), w.inserted)
  }

  lemma {:induction false} WithinDropLast(s: seq<Guard>, t: seq<Guard>)
    requires IsWithin(s, t) && s != []
    ensures IsWithin(s[..|s| - 1], t)
    decreases |t|, 0
  {
    var tt := t[..|t| - 1];
    if s[|s| - 1] != t[|t| - 1] {
      WithinDropLast(s, tt);
    }
    WithinLonger(s[..|s| - 1], tt, t[|t| - 1]);
    assert tt + [t[|t| - 1]] == t;
  }

  lemma {:induction false} WithinLonger(s: seq<Guard>, t: seq<Guard>, x: Guard)
    requires IsWithin(s, t)
    ensures IsWithin(s, t + [x])
    decreases |t|, 1
  {
    assert (t + [x])[..|t|] == t;
    if s != [] && s[|s| - 1] == x {
      WithinDropLast(s, t);
    }
  }

  lemma WithinAppend(s: seq<Guard>, t: seq<Guard>, x: Guard)
    requires IsWithin(s, t)
    ensures IsWithin(s + [x], t + [x])
  {
  }

  lemma {:induction false} WithinRemoveAt(s: seq<Guard>, t: seq<Guard>, i: nat)
    requires IsWithin(s, t) && i < |s|
    ensures IsWithin(RemoveAt(s, i), t)
  {
    var ss, tt := s[..|s| - 1], t[..|t| - 1];
    if i == |s| - 1 {
      WithinDropLast(s, t);
      assert RemoveAt(s, i) == ss;
    } else if s[|s| - 1] == t[|t| - 1] {
      WithinRemoveAt(ss, tt, i);
      WithinAppend(RemoveAt(ss, i), tt, t[|t| - 1]);
      assert RemoveAt(s, i) == RemoveAt(ss, i) + [t[|t| - 1]] && t == tt + [t[|t| - 1]];
    } else {
      WithinRemoveAt(s, tt, i);
      WithinLonger(RemoveAt(s, i), tt, t[|t| - 1]);
      assert t == tt + [t[|t| - 1]];
    }
  }

  lemma UptoNext(n: nat)
    ensures multiset(Upto(n + 1)) == multiset(Upto(n)) + multiset{n}
  {
    assert Upto(n + 1) == Upto(n) + [n];
  }

  lemma ActiveAppend(order: seq<Key>, active: map<Key, Guard>, key: Key, g: Guard)
    requires Listed(order, active) && key !in active
    ensures ActiveOf(order + [key], active[key := g]) == ActiveOf(order, active) + [g]
  {
  }

  lemma ActiveRemoveAt(order: seq<Key>, active: map<Key, Guard>, i: nat)
    requires Listed(order, active) && i < |order|
    ensures order[i] in active && ActiveOf(order, active)[i] == active[order[i]]
    ensures ActiveOf(RemoveAt(order, i), active - {order[i]}) == RemoveAt(ActiveOf(order, active), i)
  {
  }

  /** Taking the span at position `i` out of the table and ending it. */
  lemma RemoveKeepsInv(capacity: Positive, w: World, i: nat)
    requires Inv(capacity, w) && i < |w.spans.order|
    ensures var order, active := w.spans.order, w.spans.active;
            && order[i] in active
            && Inv(capacity, w.(spans := Spans(active - {order[i]}, RemoveAt(order, i)),
                               ended := w.ended + [active[order[i]]]))
  {
    ListedRemoveAt(w.spans.order, w.spans.active, i);
    ActiveRemoveAt(w.spans.order, w.spans.active, i);
    MultisetRemoveAt(Active(w.spans), i);
    WithinRemoveAt(Active(w.spans), w.inserted, i);
  }

  lemma InsertKeepsInv(capacity: Positive, w: World, i: nat)
    requires Inv(capacity, w) && i < |w.pending| && w.pending[i].key !in w.spans.active && |w.spans.order| < capacity
    ensures Inv(capacity, Insert(w.(pending := RemoveAt(w.pending, i)), w.pending[i].key, w.pending[i].guard))
  {
    var p := w.pending[i];
    ListedAppend(w.spans.order, w.spans.active, p.key, p.guard);
    ActiveAppend(w.spans.order, w.spans.active, p.key, p.guard);
    TakePending(w.pending, i);
    WithinAppend(Active(w.spans), w.inserted, p.guard);
  }

  lemma TakePending(pending: seq<Pending>, i: nat)
    requires i < |pending|
    ensures multiset(Guards(pending)) == multiset(Guards(RemoveAt(pending, i))) + multiset{pending[i].guard}
  {
    MultisetRemoveAt(Guards(pending), i);
    assert Guards(RemoveAt(pending, i)) == RemoveAt(Guards(pending), i);
  }

  /** With the table in order, making room ends the head of the queue when the table is full and nothing else. */
  lemma MakeRoomEndsTheOldest(capacity: Positive, w: World)
    requires Listed(w.spans.order, w.spans.active) && |w.spans.order| <= capacity
    ensures |w.spans.order| < capacity ==> MakeRoom(capacity, w) == w
    ensures var order, active := w.spans.order, w.spans.active;
            |order| == capacity ==> (
              && order[0] in active
              && MakeRoom(capacity, w) ==
                 w.(spans := Spans(active - {order[0]}, RemoveAt(order, 0)), ended := w.ended + [active[order[0]]]))
  {
    var order, active := w.spans.order, w.spans.active;
    ListedSize(order, active);
    if |order| == capacity {
      assert order[0] in ToSet(order);
      assert RemoveAt(order, 0) == order[1..];
      ListedRemoveAt(order, active, 0);
      ListedSize(order[1..], active - {order[0]});
    }
  }

  lemma MakeRoomKeepsInv(capacity: Positive, w: World)
    requires Inv(capacity, w)
    ensures Inv(capacity, MakeRoom(capacity, w)) && |MakeRoom(capacity, w).spans.order| < capacity
    ensures MakeRoom(capacity, w).pending == w.pending
    ensures MakeRoom(capacity, w).spans.active.Keys <= w.spans.active.Keys
  {
    MakeRoomEndsTheOldest(capacity, w);
    if |w.spans.order| == capacity {
      RemoveKeepsInv(capacity, w, 0);
    }
  }

  /** Making room does not look at what is pending. */
  lemma {:induction false} MakeRoomPending(capacity: Positive, w: World, pending: seq<Pending>)
    ensures MakeRoom(capacity, w.(pending := pending)) == MakeRoom(capacity, w).(pending := pending)
    decreases |w.spans.order|
  {
    var t := w.spans;
    if |t.active| < capacity || t.order == [] {
    } else if t.order[0] in t.active {
      MakeRoomPending(capacity,
        w.(spans := Spans(t.active - {t.order[0]}, t.order[1..]), ended := w.ended + [t.active[t.order[0]]]), pending);
    } else {
      MakeRoomPending(capacity, w.(spans := t.(order := t.order[1..])), pending);
    }
  }

  lemma PublishKeepsInv(capacity: Positive, w: World, i: nat)
    requires Inv(capacity, w)
    ensures Inv(capacity, Step(capacity, w, Publish(i)))
  {
    if i < |w.pending| {
      TakePending(w.pending, i);
      if w.pending[i].key !in w.spans.active {
        MakeRoomKeepsInv(capacity, w);
        MakeRoomPending(capacity, w, RemoveAt(w.pending, i));
        InsertKeepsInv(capacity, MakeRoom(capacity, w), i);
      }
    }
  }

  lemma StartKeepsInv(capacity: Positive, w: World, key: Key)
    requires Inv(capacity, w)
    ensures Inv(capacity, Step(capacity, w, Start(key)))
  {
    UptoNext(w.started);
    assert Guards(w.pending + [Pending(key, w.started)]) == Guards(w.pending) + [w.started];
  }

  lemma EndKeepsInv(capacity: Positive, w: World, key: Key)
    requires Inv(capacity, w)
    ensures Inv(capacity, Step(capacity, w, End(key)))
  {
    var t := w.spans;
    assert key in t.order <==> key in ToSet(t.order);
    if key in t.active {
      RemoveKeepsInv(capacity, w, IndexOf(t.order, key));
    } else {
      assert t.active - {key} == t.active;
    }
  }

  /**
   Over every interleaving of starts, second looks and ends: the table holds at most `capacity` spans, its queue lists
   its keys in the order they were put in, no span is lost and none ends twice.
   */
  lemma {:induction false} NoSpanLeaks(capacity: Positive, ops: seq<Op>)
    ensures Inv(capacity, Run(capacity, ops))
  {
    if ops != [] {
      var w := Run(capacity, ops[..|ops| - 1]);
      NoSpanLeaks(capacity, ops[..|ops| - 1]);
      match ops[|ops| - 1]
      case Start(key) => StartKeepsInv(capacity, w, key);
      case Publish(i) => PublishKeepsInv(capacity, w, i);
      case End(key) => EndKeepsInv(capacity, w, key);
    }
  }

  /** A span a run started ends, or is still to end, exactly once, and no other is ever ended. */
  lemma EndedAtMostOnce(capacity: Positive, ops: seq<Op>, g: Guard)
    ensures var w := Run(capacity, ops);
            multiset(w.ended)[g] + multiset(Active(w.spans))[g] + multiset(Guards(w.pending))[g] ==
              if g < w.started then 1 else 0
  {
    NoSpanLeaks(capacity, ops);
    UptoHasEachOnce(Run(capacity, ops).started, g);
  }

  /** Publishing a span: a lost race ends it; otherwise it goes last, and only a full table ends another, its first. */
  lemma PublishExactly(capacity: Positive, w: World, i: nat)
    requires Inv(capacity, w) && i < |w.pending|
    ensures var t, p, order, active := Step(capacity, w, Publish(i)), w.pending[i], w.spans.order, w.spans.active;
            && t.pending == RemoveAt(w.pending, i) && t.started == w.started
            && (p.key in active ==> t.spans == w.spans && t.ended == w.ended + [p.guard])
            && (p.key !in active && |order| < capacity ==>
                  t.spans == Spans(active[p.key := p.guard], order + [p.key]) && t.ended == w.ended)
            && (p.key !in active && |order| == capacity ==>
                  && order[0] in active && t.ended == w.ended + [active[order[0]]]
                  && t.spans == Spans((active - {order[0]})[p.key := p.guard], order[1..] + [p.key]))
  {
    MakeRoomEndsTheOldest(capacity, w);
    MakeRoomPending(capacity, w, RemoveAt(w.pending, i));
    if |w.spans.order| == capacity {
      assert RemoveAt(w.spans.order, 0) == w.spans.order[1..];
    }
  }

  /**
   Over every interleaving a span ends for three reasons only: the paired end of its run, a concurrent start of the run
   that won, or a new span that finds the table full with this one as its oldest.
   */
  lemma EndsExactly(capacity: Positive, ops: seq<Op>, op: Op, g: Guard)
    ensures var w, t := Run(capacity, ops), Step(capacity, Run(capacity, ops), op);
            multiset(t.ended)[g] == multiset(w.ended)[g] + if EndsNow(capacity, w, op, g) then 1 else 0
  {
    var w := Run(capacity, ops);
    NoSpanLeaks(capacity, ops);
    if op.Publish? && op.at < |w.pending| {
      PublishExactly(capacity, w, op.at);
    }
  }

  predicate EndsNow(capacity: Positive, w: World, op: Op, g: Guard) {
    var order, active := w.spans.order, w.spans.active;
    match op
    case Start(_) => false
    case End(key) => key in active && active[key] == g
    case Publish(i) =>
      i < |w.pending| &&
        var p := w.pending[i];
        if p.key in active then p.guard == g
        else |order| == capacity && order[0] in active && active[order[0]] == g
  }

  lemma {:induction false} UptoHasEachOnce(n: nat, g: Guard)
    ensures multiset(Upto(n))[g] == if g < n then 1 else 0
  {
    if n > 0 {
      UptoNext(n - 1);
      UptoHasEachOnce(n - 1, g);
    }
  }

  class ActiveSpans {
    var active: map<Key, Guard>
    var order: seq<Key>
    var started: nat
    /** What the calls in flight hold, and what the tracer has seen. */
    ghost var pending: seq<Pending>
    ghost var ended: seq<Guard>
    ghost var inserted: seq<Guard>
    const capacity: Positive

    ghost function View(): World
      reads this
    {
      World(Spans(active, order), pending, ended, inserted, started)
    }

    constructor ()
      ensures View() == FRESH && capacity == MAX_ACTIVE_TRACE_SPANS == 4096
    {
      active, order, started := map[], [], 0;
      pending, ended, inserted := [], [], [];
      capacity := MAX_ACTIVE_TRACE_SPANS;
    }

    /** The first half of a start: nothing when the run already has an active span. */
    method StartSpan(key: Key) returns (guard: Option<Guard>)
      modifies this`started, this`pending
      ensures View() == Step(capacity, old(View()), Start(key))
      ensures guard == if key in active then None else Some(old(started))
      ensures started == old(started) + (if guard.Some? then 1 else 0)
      ensures pending == old(pending) + (if guard.Some? then [Pending(key, guard.value)] else [])
    {
      if key in active {
        return None;
      }
      guard := Some(started);
      pending := pending + [Pending(key, started)];
      started := started + 1;
    }

    /** The locked second half: a concurrent start of the same run wins, and this span is dropped. */
    method PublishSpan(key: Key, guard: Guard, ghost at: nat)
      requires at < |pending| && pending[at] == Pending(key, guard)
      modifies this
      ensures View() == Step(capacity, old(View()), Publish(at))
      ensures key in old(active) ==>
                active == old(active) && order == old(order) && ended == old(ended) + [guard]
      ensures key !in old(active) ==>
                key in active && active[key] == guard && order != [] && order[|order| - 1] == key
      ensures key !in old(active) && |old(active)| < capacity ==> ended == old(ended)
    {
      pending := RemoveAt(pending, at);
      if key in active {
        ended := ended + [guard];
        return;
      }
      EvictOldest();
      order := order + [key];
      active := active[key := guard];
      inserted := inserted + [guard];
    }

    method EvictOldest()
      modifies this`active, this`order, this`ended
      ensures View() == MakeRoom(capacity, old(View()))
    {
      while |active| >= capacity
        invariant MakeRoom(capacity, View()) == MakeRoom(capacity, old(View()))
        decreases |order|
      {
        if order == [] {
          break;
        }
        var oldest := order[0];
        order := order[1..];
        if oldest in active {
          ended := ended + [active[oldest]];
          active := active - {oldest};
        }
      }
    }

    /** The paired end; the position of the key is looked up in the queue. */
    method EndSpan(key: Key) returns (guard: Option<Guard>)
      modifies this
      ensures View() == Step(capacity, old(View()), End(key))
      ensures guard == if key in old(active) then Some(old(active)[key]) else None
      ensures active == old(active) - {key}
      ensures ended == old(ended) + if guard.Some? then [guard.value] else []
    {
      var pos := 0;
      while pos < |order| && order[pos] != key
        invariant pos <= |order| && key !in order[..pos]
      {
        pos := pos + 1;
      }
      if pos < |order| {
        assert pos == IndexOf(order, key);
        order := RemoveAt(order, pos);
      }
      guard := None;
      if key in active {
        guard := Some(active[key]);
        ended := ended + [active[key]];
      }
      active := active - {key};
    }
  }
}
