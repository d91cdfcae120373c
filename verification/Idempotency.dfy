/** What a message id stands for. */
module MessageIds {
  type Mid = string
  type TaskId = string

  /** An empty task id marks a claim in flight. */
  const IN_FLIGHT: TaskId := ""
}

/**
 The message id table of `crates/lc-a2a/src/server/mod.rs`: which task a message id created, kept for a bounded number
 of ids.
 */
module MessageIdTables {
  import opened Common
  import opened MessageIds

  const MAX_MESSAGE_IDS: Positive := 10_000

  datatype Table = Table(entries: map<Mid, TaskId>, order: seq<Mid>)

  const EMPTY := Table(map[], [])

  datatype Op = Insert(mid: Mid, tid: TaskId) | Remove(mid: Mid)

  /** Drops ids from the head of the queue until one of them was in the table. */
  function Evict(capacity: Positive, t: Table): Table
    decreases |t.order|
  {
    if |t.entries| < capacity || t.order == [] then t
    else if t.order[0] in t.entries then Table(t.entries - {t.order[0]}, t.order[1..])
    else Evict(capacity, t.(order := t.order[1..]))
  }

  /** Removing an id leaves its queue entry behind. */
  function Step(capacity: Positive, t: Table, op: Op): Table {
    match op
    case Insert(mid, tid) =>
      var room := if mid in t.entries then t else Evict(capacity, t);
      Table(room.entries[mid := tid], if mid in t.entries then t.order else room.order + [mid])
    case Remove(mid) => t.(entries := t.entries - {mid})
  }

  function Run(capacity: Positive, ops: seq<Op>): Table {
    if ops == [] then EMPTY else Step(capacity, Run(capacity, ops[..|ops| - 1]), ops[|ops| - 1])
  }

  ghost predicate Inv(capacity: Positive, t: Table) {
    (forall k :: k in t.entries ==> k in t.order) && |t.entries| <= capacity
  }

  /** The first queue entry of an id in `live`, or the length of the queue. */
  function FirstListed(order: seq<Mid>, live: set<Mid>): (i: nat)
    ensures i <= |order| && (forall j :: 0 <= j < i ==> order[j] !in live)
    ensures i < |order| ==> order[i] in live
  {
    if order == [] || order[0] in live then 0
    else
      var i := FirstListed(order[1..], live);
      assert forall j :: 0 < j < i + 1 ==> order[j] == order[1..][j - 1];
      i + 1
  }

  lemma DropSize(entries: map<Mid, TaskId>, k: Mid)
    requires k in entries
    ensures |entries - {k}| == |entries| - 1
  {
  }

  lemma {:induction false} EvictIsDropFirst(capacity: Positive, t: Table)
    requires |t.entries| >= capacity && FirstListed(t.order, t.entries.Keys) < |t.order|
    ensures var i := FirstListed(t.order, t.entries.Keys);
            Evict(capacity, t) == Table(t.entries - {t.order[i]}, t.order[i + 1..])
    decreases |t.order|
  {
    if t.order[0] !in t.entries {
      var i := FirstListed(t.order[1..], t.entries.Keys);
      EvictIsDropFirst(capacity, t.(order := t.order[1..]));
      assert t.order[1..][i + 1..] == t.order[i + 2..];
    }
  }

  lemma SomeIsListed(capacity: Positive, t: Table)
    requires Inv(capacity, t) && |t.entries| > 0
    ensures FirstListed(t.order, t.entries.Keys) < |t.order|
  {
  }

  lemma RestIsListed(capacity: Positive, t: Table)
    requires Inv(capacity, t) && FirstListed(t.order, t.entries.Keys) < |t.order|
    ensures var i := FirstListed(t.order, t.entries.Keys);
            Inv(capacity, Table(t.entries - {t.order[i]}, t.order[i + 1..]))
  {
  }

  /** A full table makes room by dropping the id whose first queue entry comes first, and no other. */
  lemma EvictsFirstListed(capacity: Positive, t: Table)
    requires Inv(capacity, t)
    ensures Inv(capacity, Evict(capacity, t)) && |Evict(capacity, t).entries| < capacity
    ensures |t.entries| < capacity ==> Evict(capacity, t) == t
    ensures var i := FirstListed(t.order, t.entries.Keys);
            |t.entries| == capacity ==>
              i < |t.order| && Evict(capacity, t) == Table(t.entries - {t.order[i]}, t.order[i + 1..])
  {
    if |t.entries| == capacity {
      SomeIsListed(capacity, t);
      EvictIsDropFirst(capacity, t);
      RestIsListed(capacity, t);
      DropSize(t.entries, t.order[FirstListed(t.order, t.entries.Keys)]);
    }
  }

  lemma StepKeepsInv(capacity: Positive, t: Table, op: Op)
    requires Inv(capacity, t)
    ensures Inv(capacity, Step(capacity, t, op))
  {
    match op
    case Insert(mid, tid) =>
      if mid in t.entries {
        assert t.entries[mid := tid].Keys == t.entries.Keys;
        assert |t.entries[mid := tid]| == |t.entries[mid := tid].Keys| == |t.entries.Keys| == |t.entries|;
      } else {
        EvictsFirstListed(capacity, t);
      }
    case Remove(mid) =>
      var rest := t.entries - {mid};
      SubsetSize(rest.Keys, t.entries.Keys);
      assert |rest| == |rest.Keys| && |t.entries| == |t.entries.Keys|;
  }

  /** The table never tracks more ids than its bound, and each of them is still in the queue. */
  lemma {:induction false} TableIsBounded(capacity: Positive, ops: seq<Op>)
    ensures Inv(capacity, Run(capacity, ops))
  {
    if ops != [] {
      TableIsBounded(capacity, ops[..|ops| - 1]);
      StepKeepsInv(capacity, Run(capacity, ops[..|ops| - 1]), ops[|ops| - 1]);
    }
  }

  /** What happens to other ids never changes an entry, but may lose it: exactly when it heads a full queue. */
  lemma EntryIsLostExactly(capacity: Positive, t: Table, op: Op, mid: Mid)
    requires Inv(capacity, t) && mid in t.entries && op.mid != mid
    ensures var after := Step(capacity, t, op).entries;
            && (mid in after ==> after[mid] == t.entries[mid])
            && (mid !in after <==>
                && op.Insert? && op.mid !in t.entries && |t.entries| == capacity
                && t.order[FirstListed(t.order, t.entries.Keys)] == mid)
  {
    SomeIsListed(capacity, t);
    EvictsFirstListed(capacity, t);
  }

  // ---------- Against an unbounded map ----------

  function Plain(ops: seq<Op>): map<Mid, TaskId> {
    if ops == [] then map[]
    else
      var before := Plain(ops[..|ops| - 1]);
      match ops[|ops| - 1]
      case Insert(mid, tid) => before[mid := tid]
      case Remove(mid) => before - {mid}
  }

  function Ids(ops: seq<Op>): set<Mid> {
    if ops == [] then {} else Ids(ops[..|ops| - 1]) + {ops[|ops| - 1].mid}
  }

  lemma {:induction false} PlainTracksIds(ops: seq<Op>)
    ensures Plain(ops).Keys <= Ids(ops)
  {
    if ops != [] {
      PlainTracksIds(ops[..|ops| - 1]);
    }
  }

  lemma RoomForNew(capacity: Positive, ops: seq<Op>, entries: map<Mid, TaskId>)
    requires ops != [] && |Ids(ops)| <= capacity
    requires entries.Keys <= Ids(ops[..|ops| - 1]) && ops[|ops| - 1].mid !in entries
    ensures |entries| < capacity
  {
    var more := entries.Keys + {ops[|ops| - 1].mid};
    assert |more| == |entries.Keys| + 1 && |entries| == |entries.Keys|;
    SubsetSize(more, Ids(ops));
  }

  /** Until more than `capacity` different ids have come by, the table answers like a map without a bound. */
  lemma {:induction false} TableRefinesMap(capacity: Positive, ops: seq<Op>)
    requires |Ids(ops)| <= capacity
    ensures Run(capacity, ops).entries == Plain(ops)
  {
    if ops != [] {
      var front, op := ops[..|ops| - 1], ops[|ops| - 1];
      SubsetSize(Ids(front), Ids(ops));
      TableRefinesMap(capacity, front);
      TableIsBounded(capacity, front);
      PlainTracksIds(front);
      var t := Run(capacity, front);
      if op.Insert? && op.mid !in t.entries {
        RoomForNew(capacity, ops, t.entries);
        EvictsFirstListed(capacity, t);
      }
    }
  }

  function ClaimAndDrop(mid: Mid, n: nat): seq<Op> {
    if n == 0 then [] else ClaimAndDrop(mid, n - 1) + [Insert(mid, IN_FLIGHT)] + [Remove(mid)]
  }

  lemma ClaimThenDrop(capacity: Positive, ops: seq<Op>, mid: Mid)
    requires Run(capacity, ops).entries == map[]
    ensures Run(capacity, ops + [Insert(mid, IN_FLIGHT)] + [Remove(mid)]) ==
            Table(map[], Run(capacity, ops).order + [mid])
  {
  }

  /** The bound is on the ids, not on the queue: claiming and dropping one id over and over grows it without end. */
  lemma {:induction false} QueueGrowsWithoutBound(capacity: Positive, mid: Mid, n: nat)
    ensures Run(capacity, ClaimAndDrop(mid, n)).entries == map[]
    ensures |Run(capacity, ClaimAndDrop(mid, n)).order| == n
  {
    if n > 0 {
      QueueGrowsWithoutBound(capacity, mid, n - 1);
      var before := ClaimAndDrop(mid, n - 1);
      assert ClaimAndDrop(mid, n) == before + [Insert(mid, IN_FLIGHT)] + [Remove(mid)];
      ClaimThenDrop(capacity, before, mid);
    }
  }

  /** The queue lists the tracked ids, each once. */
  ghost predicate Tidy(t: Table) {
    Distinct(t.order) && ToSet(t.order) == t.entries.Keys
  }

  /** The operation drops an id that is tracked: an abort of a claim, or of an id whose task is gone. */
  predicate Drops(t: Table, op: Op) {
    op.Remove? && op.mid in t.entries
  }

  lemma TidySize(t: Table)
    requires Tidy(t)
    ensures |t.order| == |t.entries|
  {
    DistinctSize(t.order);
    assert |t.entries.Keys| == |t.entries|;
  }

  lemma TidyWithoutHead(t: Table)
    requires Tidy(t) && t.order != []
    ensures t.order[0] in t.entries && Tidy(Table(t.entries - {t.order[0]}, t.order[1..]))
  {
    assert t.order[0] in ToSet(t.order);
    assert ToSet(t.order[1..]) == ToSet(t.order) - {t.order[0]} by {
      assert t.order == [t.order[0]] + t.order[1..];
    }
  }

  lemma TidyWithTail(t: Table, mid: Mid, tid: TaskId)
    requires Tidy(t) && mid !in t.entries
    ensures Tidy(Table(t.entries[mid := tid], t.order + [mid]))
  {
    assert ToSet(t.order + [mid]) == ToSet(t.order) + {mid};
    assert mid !in ToSet(t.order);
  }

  /** From a tidy table, exactly the drop of a tracked id leaves the queue with an entry for nothing. */
  lemma StepStaysTidyExactly(capacity: Positive, t: Table, op: Op)
    requires Tidy(t)
    ensures Tidy(Step(capacity, t, op)) <==> !Drops(t, op)
  {
    match op
    case Insert(mid, tid) =>
      if mid in t.entries {
        assert t.entries[mid := tid].Keys == t.entries.Keys;
      } else {
        TidySize(t);
        if |t.entries| >= capacity {
          TidyWithoutHead(t);
        }
        TidyWithTail(Evict(capacity, t), mid, tid);
      }
    case Remove(mid) =>
      if mid in t.entries {
        assert mid in ToSet(t.order) && mid !in (t.entries - {mid}).Keys;
      } else {
        assert t.entries - {mid} == t.entries;
      }
  }

  ghost predicate TidyThroughout(capacity: Positive, ops: seq<Op>) {
    Tidy(Run(capacity, ops)) && (ops != [] ==> TidyThroughout(capacity, ops[..|ops| - 1]))
  }

  predicate NeverDrops(capacity: Positive, ops: seq<Op>) {
    ops != [] ==>
      var front := ops[..|ops| - 1];
      NeverDrops(capacity, front) && !Drops(Run(capacity, front), ops[|ops| - 1])
  }

  /** Over whole runs: the queue lists the tracked ids throughout, and is bounded as they are, exactly without drops. */
  lemma {:induction false} QueueIsTidyExactly(capacity: Positive, ops: seq<Op>)
    ensures TidyThroughout(capacity, ops) <==> NeverDrops(capacity, ops)
    ensures NeverDrops(capacity, ops) ==> |Run(capacity, ops).order| == |Run(capacity, ops).entries| <= capacity
  {
    if ops != [] {
      var front := ops[..|ops| - 1];
      QueueIsTidyExactly(capacity, front);
      if TidyThroughout(capacity, front) {
        StepStaysTidyExactly(capacity, Run(capacity, front), ops[|ops| - 1]);
      }
    }
    TableIsBounded(capacity, ops);
    if NeverDrops(capacity, ops) {
      TidySize(Run(capacity, ops));
    }
  }

  /** How many tracked ids were dropped. */
  function Dropped(capacity: Positive, ops: seq<Op>): nat {
    if ops == [] then 0
    else
      var front := ops[..|ops| - 1];
      Dropped(capacity, front) + if Drops(Run(capacity, front), ops[|ops| - 1]) then 1 else 0
  }

  /** The queue entries that stand for nothing, or stand for an id again. */
  ghost function Slack(t: Table): int {
    |t.order| - |t.entries|
  }

  lemma InsertAddsNoSlack(capacity: Positive, t: Table, mid: Mid, tid: TaskId)
    requires Inv(capacity, t) && mid !in t.entries
    ensures Slack(Step(capacity, t, Insert(mid, tid))) <= Slack(t)
    ensures |t.entries| < capacity ==> Slack(Step(capacity, t, Insert(mid, tid))) == Slack(t)
  {
    EvictsFirstListed(capacity, t);
    var room := Evict(capacity, t);
    assert mid !in room.entries;
    assert |room.entries[mid := tid]| == |room.entries| + 1;
    if |t.entries| == capacity {
      DropSize(t.entries, t.order[FirstListed(t.order, t.entries.Keys)]);
    }
  }

  lemma SlackOfStep(capacity: Positive, t: Table, op: Op)
    requires Inv(capacity, t)
    ensures Slack(Step(capacity, t, op)) <= Slack(t) + if Drops(t, op) then 1 else 0
    ensures |t.entries| < capacity || op.mid in t.entries || op.Remove? ==>
              Slack(Step(capacity, t, op)) == Slack(t) + if Drops(t, op) then 1 else 0
  {
    match op
    case Remove(mid) =>
      if mid in t.entries {
        DropSize(t.entries, mid);
      } else {
        assert t.entries - {mid} == t.entries;
      }
    case Insert(mid, tid) =>
      if mid in t.entries {
        assert t.entries[mid := tid].Keys == t.entries.Keys;
        assert |t.entries[mid := tid]| == |t.entries[mid := tid].Keys| == |t.entries.Keys| == |t.entries|;
      } else {
        InsertAddsNoSlack(capacity, t, mid, tid);
      }
  }

  /**
   Over every run the queue is longer than the bound by at most the number of drops, and while no more than `capacity`
   different ids have come by it is longer than the table by exactly that number.
   */
  lemma {:induction false} QueueLengthIsDrops(capacity: Positive, ops: seq<Op>)
    ensures Slack(Run(capacity, ops)) <= Dropped(capacity, ops)
    ensures |Run(capacity, ops).order| <= capacity + Dropped(capacity, ops)
    ensures |Ids(ops)| <= capacity ==> Slack(Run(capacity, ops)) == Dropped(capacity, ops)
  {
    TableIsBounded(capacity, ops);
    if ops != [] {
      var front, op := ops[..|ops| - 1], ops[|ops| - 1];
      var t := Run(capacity, front);
      QueueLengthIsDrops(capacity, front);
      TableIsBounded(capacity, front);
      SlackOfStep(capacity, t, op);
      SubsetSize(Ids(front), Ids(ops));
      if |Ids(ops)| <= capacity && op.mid !in t.entries {
        TableRefinesMap(capacity, front);
        PlainTracksIds(front);
        RoomForNew(capacity, ops, t.entries);
      }
    }
  }

  class MessageIdTable {
    var entries: map<Mid, TaskId>
    var order: seq<Mid>
    const capacity: Positive

    ghost function View(): Table
      reads this
    {
      Table(entries, order)
    }

    constructor ()
      ensures View() == EMPTY && capacity == MAX_MESSAGE_IDS == 10_000
    {
      entries, order := map[], [];
      capacity := MAX_MESSAGE_IDS;
    }

    method Get(mid: Mid) returns (r: Option<TaskId>)
      ensures r == if mid in entries then Some(entries[mid]) else None
    {
      r := if mid in entries then Some(entries[mid]) else None;
    }

    method Put(mid: Mid, tid: TaskId)
      modifies this
      ensures View() == Step(capacity, old(View()), Insert(mid, tid))
      ensures mid in entries && entries[mid] == tid
      ensures mid in old(entries) || |old(entries)| < capacity ==> entries == old(entries)[mid := tid]
      ensures mid in old(entries) ==> order == old(order)
      ensures mid !in old(entries) ==> order != [] && order[|order| - 1] == mid
    {
      if mid !in entries {
        var removed := false;
        while |entries| >= capacity && !removed
          invariant !removed ==> entries == old(entries)
          invariant Evict(capacity, old(View())) == if removed then View() else Evict(capacity, View())
          decreases |order|, !removed
        {
          if order == [] {
            break;
          }
          var oldest := order[0];
          order := order[1..];
          if oldest in entries {
            entries := entries - {oldest};
            removed := true;
          }
        }
        order := order + [mid];
      }
      entries := entries[mid := tid];
    }

    method Drop(mid: Mid)
      modifies this
      ensures View() == Step(capacity, old(View()), Remove(mid))
      ensures entries == old(entries) - {mid} && order == old(order)
    {
      entries := entries - {mid};
    }
  }
}

/**
 The idempotent send of `crates/lc-a2a/src/server/routes.rs` for one message id: the calls that carry it, interleaved
 at every lock they take. Other ids are seen only through the table entry, which a full table may evict.
 */
module IdempotentSends {
  import opened Common
  import opened MessageIds

  datatype Answer = Accepted(tid: TaskId) | Existing(tid: TaskId) | Busy | Refused

  /** Where a call stands: what it does next. */
  datatype Pc =
    | Reading                                  // the table, under the read lock
    | Checking(tid: TaskId)                    // the store, for the task the table names
    | Claiming                                 // the table, under the write lock
    | Fetching(tid: TaskId)                    // the store, for the task to answer with
    | Forgetting                               // the table: drop an id whose task is gone
    | Admitting(reserved: bool)                // a slot for one more run
    | Releasing                                // the table: drop the claim of a send that fails
    | Storing(reserved: bool)                  // the new task
    | Binding(tid: TaskId, reserved: bool)     // the table: the id now names the task
    | Spawning(tid: TaskId)                    // the run
    | Done(answer: Answer)
    | Abandoned(held: bool)                    // nowhere: its connection closed while it waited

  /** `runs` lists the tasks whose chain was run, `issued` every task id drawn so far. */
  datatype Server = Server(
    entry: Option<TaskId>, stored: set<TaskId>, issued: set<TaskId>, calls: seq<Pc>, runs: seq<TaskId>)

  const FRESH := Server(None, {}, {}, [], [])

  /**
   A call arrives; a call takes its next step, where `ok` says whether the slot or the store write is granted and
   `drawn` is the task id drawn; a call is dropped where it waits; the store loses a task; the table evicts the id.
   */
  datatype Op =
    | Arrive
    | Go(call: nat, ok: bool, drawn: TaskId)
    | Abandon(call: nat)
    | LoseTask(tid: TaskId)
    | LoseEntry

  /** The step of one call: the server with that call's next place still to be written, and that place. */
  function Act(s: Server, pc: Pc, ok: bool, drawn: TaskId): (Server, Pc) {
    match pc
    case Reading =>
      (s, match s.entry
          case None => Claiming
          case Some(tid) => if tid == IN_FLIGHT then Done(Busy) else Checking(tid))
    case Checking(tid) => (s, if tid in s.stored then Fetching(tid) else Claiming)
    case Claiming =>
      (match s.entry
       case None => (s.(entry := Some(IN_FLIGHT)), Admitting(true))
       case Some(tid) => (s, if tid == IN_FLIGHT then Done(Busy) else Fetching(tid)))
    case Fetching(tid) => (s, if tid in s.stored then Done(Existing(tid)) else Forgetting)
    case Forgetting => (s.(entry := None), Admitting(false))
    case Admitting(reserved) =>
      (s, if ok then Storing(reserved) else if reserved then Releasing else Done(Refused))
    case Releasing => (s.(entry := None), Done(Refused))
    case Storing(reserved) =>
      if !ok then (s, if reserved then Releasing else Done(Refused))
      else if drawn == IN_FLIGHT || drawn in s.issued then (s, pc)
      else (s.(stored := s.stored + {drawn}, issued := s.issued + {drawn}), Binding(drawn, reserved))
    case Binding(tid, reserved) => (if reserved then s.(entry := Some(tid)) else s, Spawning(tid))
    case Spawning(tid) => (s.(runs := s.runs + [tid]), Done(Accepted(tid)))
    case Done(_) => (s, pc)
    case Abandoned(_) => (s, pc)
  }

  /** The call holds the claim of the id. */
  predicate Holds(pc: Pc) {
    || pc == Admitting(true) || pc == Releasing || pc == Storing(true)
    || (pc.Binding? && pc.reserved)
  }

  /** Taking a slot does not wait, so a call is never dropped before it. */
  predicate Waits(pc: Pc) {
    !pc.Admitting? && !pc.Done? && !pc.Abandoned?
  }

  function Step(s: Server, op: Op): Server {
    match op
    case Arrive => s.(calls := s.calls + [Reading])
    case Go(i, ok, drawn) =>
      if i >= |s.calls| then s
      else
        var (after, pc) := Act(s, s.calls[i], ok, drawn);
        after.(calls := s.calls[i := pc])
    case Abandon(i) =>
      if i < |s.calls| && Waits(s.calls[i]) then s.(calls := s.calls[i := Abandoned(Holds(s.calls[i]))]) else s
    case LoseTask(tid) => s.(stored := s.stored - {tid})
    case LoseEntry => s.(entry := None)
  }

  function Run(ops: seq<Op>): Server {
    if ops == [] then FRESH else Step(Run(ops[..|ops| - 1]), ops[|ops| - 1])
  }

  // ---------- Who holds the claim ----------

  /** The call holds the claim, or was dropped while it did. */
  predicate Held(s: Server, i: nat) {
    i < |s.calls| && (Holds(s.calls[i]) || s.calls[i] == Abandoned(true))
  }

  /**
   Whatever is evicted and however calls interleave: an id marked in flight is held by a call that is still to bind or
   release it, or that was dropped while it held it.
   */
  lemma {:induction false} ClaimIsHeld(ops: seq<Op>)
    ensures Run(ops).entry == Some(IN_FLIGHT) ==> exists i: nat :: Held(Run(ops), i)
  {
    if ops != [] {
      var front, op := ops[..|ops| - 1], ops[|ops| - 1];
      ClaimIsHeld(front);
      TaskIdsAreProper(front);
      ClaimStaysHeld(Run(front), op);
    }
  }

  /** So without dropped calls no id stays in flight once its calls are through. */
  lemma NoClaimIsLeftBehind(ops: seq<Op>)
    requires forall i: nat :: i < |Run(ops).calls| ==> Run(ops).calls[i].Done? || Run(ops).calls[i] == Abandoned(false)
    ensures Run(ops).entry != Some(IN_FLIGHT)
  {
    ClaimIsHeld(ops);
  }

  /** Places that name a task name a real one. */
  ghost predicate Proper(s: Server) {
    forall i :: 0 <= i < |s.calls| && s.calls[i].Binding? ==> s.calls[i].tid != IN_FLIGHT
  }

  lemma {:induction false} TaskIdsAreProper(ops: seq<Op>)
    ensures Proper(Run(ops))
  {
    if ops != [] {
      TaskIdsAreProper(ops[..|ops| - 1]);
    }
  }

  lemma ClaimStaysHeld(s: Server, op: Op)
    requires Proper(s) && (s.entry == Some(IN_FLIGHT) ==> exists i: nat :: Held(s, i))
    ensures Step(s, op).entry == Some(IN_FLIGHT) ==> exists i: nat :: Held(Step(s, op), i)
  {
    var t := Step(s, op);
    if t.entry == Some(IN_FLIGHT) {
      if s.entry == Some(IN_FLIGHT) {
        var i: nat :| Held(s, i);
        assert Held(t, i);
      } else {
        assert Held(t, op.call);
      }
    }
  }

  // ---------- One run an id ----------

  /** The task a place has committed the call to. */
  function Named(pc: Pc): Option<TaskId> {
    match pc
    case Checking(tid) => Some(tid)
    case Fetching(tid) => Some(tid)
    case Spawning(tid) => Some(tid)
    case Done(Accepted(tid)) => Some(tid)
    case Done(Existing(tid)) => Some(tid)
    case _ => None
  }

  /** The call runs on without a claim. */
  predicate Unreserved(pc: Pc) {
    || pc == Forgetting || pc == Admitting(false) || pc == Storing(false)
    || (pc.Binding? && !pc.reserved)
  }

  /** What holds of call `i` when call `owner` is the only one that may claim, bind or run. */
  predicate CallFits(s: Server, owner: nat, i: nat, pc: Pc) {
    && !Unreserved(pc)
    && (Holds(pc) ==> s.entry == Some(IN_FLIGHT) && i == owner)
    && (Named(pc).Some? ==> s.entry == Named(pc) && Named(pc) != Some(IN_FLIGHT))
    && (pc.Spawning? ==> s.runs == [] && i == owner)
    && (pc.Binding? ==> pc.tid in s.stored && pc.tid != IN_FLIGHT)
  }

  ghost predicate SingleFor(s: Server, owner: nat) {
    && (forall i: nat :: i < |s.calls| ==> CallFits(s, owner, i, s.calls[i]))
    && (s.entry.Some? && s.entry.value != IN_FLIGHT ==> s.entry.value in s.stored)
    && (s.runs == [] || (|s.runs| == 1 && s.entry == Some(s.runs[0]) && s.runs[0] != IN_FLIGHT))
    && s.stored <= s.issued
    && (s.entry.Some? && s.entry.value != IN_FLIGHT && s.runs == [] ==>
          owner < |s.calls| && (s.calls[owner] == Spawning(s.entry.value) || s.calls[owner].Abandoned?))
  }

  ghost predicate Single(s: Server) {
    exists owner: nat :: SingleFor(s, owner)
  }

  /** The store keeps its tasks and the table the id. */
  predicate Quiet(op: Op) {
    op.Arrive? || op.Go? || op.Abandon?
  }

  /** The call that wins the claim becomes the owner. */
  function NextOwner(s: Server, op: Op, owner: nat): nat {
    if op.Go? && op.call < |s.calls| && s.calls[op.call].Claiming? && s.entry.None? then op.call else owner
  }

  lemma ActorFits(s: Server, i: nat, ok: bool, drawn: TaskId, owner: nat)
    requires SingleFor(s, owner) && i < |s.calls|
    ensures var (after, pc) := Act(s, s.calls[i], ok, drawn);
            CallFits(after, NextOwner(s, Go(i, ok, drawn), owner), i, pc)
  {
  }

  lemma OthersFit(s: Server, i: nat, ok: bool, drawn: TaskId, owner: nat, j: nat)
    requires SingleFor(s, owner) && i < |s.calls| && j < |s.calls| && i != j
    ensures CallFits(Act(s, s.calls[i], ok, drawn).0, NextOwner(s, Go(i, ok, drawn), owner), j, s.calls[j])
  {
  }

  lemma ServerFits(s: Server, i: nat, ok: bool, drawn: TaskId, owner: nat)
    requires SingleFor(s, owner) && i < |s.calls|
    ensures var t := Act(s, s.calls[i], ok, drawn).0;
            && (t.entry.Some? && t.entry.value != IN_FLIGHT ==> t.entry.value in t.stored)
            && (t.runs == [] || (|t.runs| == 1 && t.entry == Some(t.runs[0]) && t.runs[0] != IN_FLIGHT))
            && t.stored <= t.issued
  {
  }

  lemma OwnerSpawns(s: Server, i: nat, ok: bool, drawn: TaskId, owner: nat)
    requires SingleFor(s, owner) && i < |s.calls|
    ensures var t := Step(s, Go(i, ok, drawn));
            t.entry.Some? && t.entry.value != IN_FLIGHT && t.runs == [] ==>
              owner < |t.calls| && (t.calls[owner] == Spawning(t.entry.value) || t.calls[owner].Abandoned?)
  {
  }

  lemma QuietStepStaysSingle(s: Server, op: Op, owner: nat)
    requires SingleFor(s, owner) && Quiet(op)
    ensures SingleFor(Step(s, op), NextOwner(s, op, owner))
  {
    var t, next := Step(s, op), NextOwner(s, op, owner);
    match op
    case Arrive =>
      forall j: nat | j < |t.calls|
        ensures CallFits(t, next, j, t.calls[j])
      {
        assert j < |s.calls| ==> CallFits(s, owner, j, s.calls[j]);
      }
    case Go(i, ok, drawn) =>
      if i < |s.calls| {
        ActorFits(s, i, ok, drawn, owner);
        ServerFits(s, i, ok, drawn, owner);
        OwnerSpawns(s, i, ok, drawn, owner);
        forall j: nat | j < |t.calls|
          ensures CallFits(t, next, j, t.calls[j])
        {
          if j != i {
            OthersFit(s, i, ok, drawn, owner, j);
          }
        }
      }
    case Abandon(i) =>
      forall j: nat | j < |t.calls|
        ensures CallFits(t, next, j, t.calls[j])
      {
        assert CallFits(s, owner, j, s.calls[j]);
      }
  }

  /**
   As long as the store keeps the task and the table the id, the chain runs at most once for the id, however its calls
   interleave and wherever they are dropped, and every call that is given a task is given the same one.
   */
  lemma {:induction false} AtMostOneRun(ops: seq<Op>)
    requires forall k :: 0 <= k < |ops| ==> Quiet(ops[k])
    ensures Single(Run(ops)) && |Run(ops).runs| <= 1
  {
    if ops != [] {
      var s := Run(ops[..|ops| - 1]);
      AtMostOneRun(ops[..|ops| - 1]);
      var owner: nat :| SingleFor(s, owner);
      QuietStepStaysSingle(s, ops[|ops| - 1], owner);
    } else {
      assert SingleFor(FRESH, 0);
    }
  }

  lemma AnswersAgree(ops: seq<Op>, i: nat, j: nat)
    requires forall k :: 0 <= k < |ops| ==> Quiet(ops[k])
    requires i < |Run(ops).calls| && j < |Run(ops).calls|
    requires Named(Run(ops).calls[i]).Some? && Named(Run(ops).calls[j]).Some?
    ensures Named(Run(ops).calls[i]) == Named(Run(ops).calls[j])
  {
    AtMostOneRun(ops);
    var owner: nat :| SingleFor(Run(ops), owner);
    assert CallFits(Run(ops), owner, i, Run(ops).calls[i]) && CallFits(Run(ops), owner, j, Run(ops).calls[j]);
  }

  /** Once all calls are through, a call that was given a task was given the one task that ran. */
  lemma ExactlyOneRun(ops: seq<Op>, i: nat)
    requires forall k :: 0 <= k < |ops| ==> Quiet(ops[k])
    requires forall j :: 0 <= j < |Run(ops).calls| ==> Run(ops).calls[j].Done?
    requires i < |Run(ops).calls| && Named(Run(ops).calls[i]).Some?
    ensures Run(ops).runs == [Named(Run(ops).calls[i]).value]
  {
    AtMostOneRun(ops);
    var s := Run(ops);
    var owner: nat :| SingleFor(s, owner);
    assert CallFits(s, owner, i, s.calls[i]);
    assert owner < |s.calls| ==> s.calls[owner].Done?;
  }

  // ---------- One call at a time ----------

  /** `n` steps of call `i`, every slot and write granted, drawing `tid`. */
  function Drive(s: Server, i: nat, tid: TaskId, n: nat): Server
    decreases n
  {
    if n == 0 then s else Drive(Step(s, Go(i, true, tid)), i, tid, n - 1)
  }

  /** A call that arrives when no other is under way and runs through. */
  function Send(s: Server, tid: TaskId): Server {
    Drive(Step(s, Arrive), |s.calls|, tid, 9)
  }

  /** An id the table does not know is claimed and bound to the task it creates. */
  lemma SendNew(s: Server, tid: TaskId)
    requires s.entry.None? && tid != IN_FLIGHT && tid !in s.issued
    ensures Send(s, tid) == Server(Some(tid), s.stored + {tid}, s.issued + {tid},
                                   s.calls + [Done(Accepted(tid))], s.runs + [tid])
  {
  }

  /** A retry of an id whose task is stored is given that task and changes nothing else. */
  lemma RetryIsIdempotent(s: Server, t: TaskId, tid: TaskId)
    requires s.entry == Some(t) && t != IN_FLIGHT && t in s.stored
    ensures Send(s, tid) == s.(calls := s.calls + [Done(Existing(t))])
  {
  }

  /** While the id is in flight a call is turned away and changes nothing. */
  lemma BusyWhileInFlight(s: Server, tid: TaskId)
    requires s.entry == Some(IN_FLIGHT)
    ensures Send(s, tid) == s.(calls := s.calls + [Done(Busy)])
  {
  }

  /** A call that arrives alone, is denied its `n`-th step and runs through. */
  function SendDenied(s: Server, tid: TaskId, n: nat): Server {
    var i := |s.calls|;
    Drive(Step(Drive(Step(s, Arrive), i, tid, n), Go(i, false, tid)), i, tid, 9)
  }

  /** A send of a new id that is denied its slot, or its store write, is refused and leaves nothing behind. */
  lemma DeniedSendLeavesNothing(s: Server, tid: TaskId, n: nat)
    requires s.entry.None? && n in {2, 3}
    ensures SendDenied(s, tid, n) == s.(calls := s.calls + [Done(Refused)])
  {
    var i, place := |s.calls|, if n == 2 then Admitting(true) else Storing(true);
    var claimed := Drive(Step(s, Arrive), i, tid, n);
    assert claimed == s.(entry := Some(IN_FLIGHT), calls := s.calls + [place]);
    var denied := Step(claimed, Go(i, false, tid));
    assert denied == claimed.(calls := s.calls + [Releasing]);
    DriveReleases(s, denied, tid);
  }

  lemma DriveReleases(s: Server, denied: Server, tid: TaskId)
    requires s.entry.None? && denied == s.(entry := Some(IN_FLIGHT), calls := s.calls + [Releasing])
    ensures Drive(denied, |s.calls|, tid, 9) == s.(calls := s.calls + [Done(Refused)])
  {
    assert Step(denied, Go(|s.calls|, true, tid)) == s.(calls := s.calls + [Done(Refused)]);
  }

  /**
   A retry of an id whose task the store has lost runs the chain, but the id is dropped rather than claimed again: the
   table does not learn of the new task.
   */
  lemma RetryAfterLoss(s: Server, t: TaskId, tid: TaskId)
    requires s.entry == Some(t) && t != IN_FLIGHT && t !in s.stored
    requires tid != IN_FLIGHT && tid !in s.issued
    ensures Send(s, tid) == Server(None, s.stored + {tid}, s.issued + {tid},
                                   s.calls + [Done(Accepted(tid))], s.runs + [tid])
  {
  }

  /**
   A retry that found its task gone looks at the table again: if the id has been dropped meanwhile it claims it and
   binds its own task; if the id has been bound to a stored task meanwhile it is given that one.
   */
  lemma LateRetryLooksAgain(s: Server, i: nat, t: TaskId, u: TaskId, tid: TaskId)
    requires i < |s.calls| && s.calls[i] == Checking(t) && t !in s.stored && u != IN_FLIGHT
    ensures s.entry.None? && tid != IN_FLIGHT && tid !in s.issued ==>
              Drive(s, i, tid, 9) == Server(Some(tid), s.stored + {tid}, s.issued + {tid},
                                            s.calls[i := Done(Accepted(tid))], s.runs + [tid])
    ensures s.entry == Some(u) && u in s.stored ==>
              Drive(s, i, tid, 9) == s.(calls := s.calls[i := Done(Existing(u))])
  {
    var next := Step(s, Go(i, true, tid));
    assert next == s.(calls := s.calls[i := Claiming]);
  }

  /**
   So the promise of one run an id fails after one lost task, even for retries that do not overlap: the second retry
   runs the chain again although the task of the first is stored. It holds of a retry exactly when the task is stored.
   */
  lemma TwoRetriesAfterLoss(s: Server, t: TaskId, first: TaskId, second: TaskId)
    requires s.entry == Some(t) && t != IN_FLIGHT && IN_FLIGHT !in {first, second}
    requires first !in s.issued && second !in s.issued && first != second
    ensures t in s.stored <==> Send(Send(s, first), second).runs == s.runs
    ensures t !in s.stored ==>
              first in Send(s, first).stored && Send(Send(s, first), second).runs == s.runs + [first, second]
  {
    if t in s.stored {
      RetryIsIdempotent(s, t, first);
      RetryIsIdempotent(Send(s, first), t, second);
    } else {
      RetryAfterLoss(s, t, first);
      SendNew(Send(s, first), second);
      assert s.runs + [first] + [second] == s.runs + [first, second];
    }
  }

  // ---------- A lost task, from the first call on ----------

  function Steps(i: nat, tid: TaskId, n: nat): seq<Op> {
    if n == 0 then [] else [Go(i, true, tid)] + Steps(i, tid, n - 1)
  }

  lemma RunAppend(ops: seq<Op>, op: Op)
    ensures Run(ops + [op]) == Step(Run(ops), op)
  {
    assert (ops + [op])[..|ops|] == ops;
  }

  lemma {:induction false} DriveIsRun(ops: seq<Op>, i: nat, tid: TaskId, n: nat)
    ensures Run(ops + Steps(i, tid, n)) == Drive(Run(ops), i, tid, n)
    decreases n
  {
    if n == 0 {
      assert ops + Steps(i, tid, n) == ops;
    } else {
      RunAppend(ops, Go(i, true, tid));
      DriveIsRun(ops + [Go(i, true, tid)], i, tid, n - 1);
      OpsAssoc(ops, [Go(i, true, tid)], Steps(i, tid, n - 1));
    }
  }

  lemma OpsAssoc(a: seq<Op>, b: seq<Op>, c: seq<Op>)
    ensures a + (b + c) == a + b + c
  {
  }

  /** The steps of a call that arrives and runs through, after `ops`. */
  function SendOps(ops: seq<Op>, tid: TaskId): seq<Op> {
    ops + [Arrive] + Steps(|Run(ops).calls|, tid, 9)
  }

  lemma SendIsRun(ops: seq<Op>, tid: TaskId)
    ensures Run(SendOps(ops, tid)) == Send(Run(ops), tid)
  {
    RunAppend(ops, Arrive);
    DriveIsRun(ops + [Arrive], |Run(ops).calls|, tid, 9);
  }

  lemma LoseAfterSend(t: TaskId)
    requires t != IN_FLIGHT
    ensures Run(SendOps([], t) + [LoseTask(t)]) == Server(Some(t), {}, {t}, [Done(Accepted(t))], [t])
  {
    SendIsRun([], t);
    SendNew(FRESH, t);
    RunAppend(SendOps([], t), LoseTask(t));
    assert {t} - {t} == {};
  }

  /** One send, one lost task, then two retries one after the other: three runs for one id. */
  lemma LostTaskRunsThrice(t: TaskId, first: TaskId, second: TaskId)
    requires IN_FLIGHT !in {t, first, second} && t !in {first, second} && first != second
    ensures var lost := SendOps([], t) + [LoseTask(t)];
            Run(SendOps(SendOps(lost, first), second)).runs == [t, first, second]
  {
    var lost := SendOps([], t) + [LoseTask(t)];
    LoseAfterSend(t);
    SendIsRun(lost, first);
    SendIsRun(SendOps(lost, first), second);
    TwoRetriesAfterLoss(Run(lost), t, first, second);
  }

  // ---------- A dropped call ----------

  ghost predicate AllQuiet(ops: seq<Op>) {
    forall k :: 0 <= k < |ops| ==> Quiet(ops[k])
  }

  /** The id is in flight and nobody is left to bind or release it. */
  ghost predicate Stuck(s: Server) {
    && s.entry == Some(IN_FLIGHT)
    && forall i: nat :: i < |s.calls| ==> s.calls[i] in {Reading, Claiming} || s.calls[i].Done? || s.calls[i].Abandoned?
  }

  lemma StuckStep(s: Server, op: Op)
    requires Stuck(s) && Quiet(op)
    ensures Stuck(Step(s, op)) && Step(s, op).runs == s.runs
    ensures forall i: nat :: i < |s.calls| && !s.calls[i].Done? && Step(s, op).calls[i].Done? ==>
                               Step(s, op).calls[i] == Done(Busy)
  {
  }

  /** A claim whose call was dropped is never released: the id stays in flight and its chain does not run any more. */
  lemma {:induction false} StuckForever(ops: seq<Op>, more: seq<Op>)
    requires Stuck(Run(ops)) && AllQuiet(more)
    ensures Stuck(Run(ops + more)) && Run(ops + more).runs == Run(ops).runs
    decreases |more|
  {
    if more == [] {
      assert ops + more == ops;
    } else {
      var front := more[..|more| - 1];
      StuckForever(ops, front);
      assert ops + more == ops + front + [more[|more| - 1]];
      RunAppend(ops + front, more[|more| - 1]);
      StuckStep(Run(ops + front), more[|more| - 1]);
    }
  }

  /** Exactly a dropped claim does this: with every call through or dropped, an id still in flight is stuck. */
  lemma DroppedClaimIsStuck(ops: seq<Op>)
    requires forall i: nat :: i < |Run(ops).calls| ==> Run(ops).calls[i].Done? || Run(ops).calls[i].Abandoned?
    ensures Stuck(Run(ops)) <==> Run(ops).entry == Some(IN_FLIGHT)
    ensures Stuck(Run(ops)) ==> Abandoned(true) in Run(ops).calls
  {
    ClaimIsHeld(ops);
  }

  /** The first `n` steps of the first call, which is then dropped. */
  function DropAfter(t: TaskId, n: nat): seq<Op> {
    [Arrive] + Steps(0, t, n) + [Abandon(0)]
  }

  lemma DropIsRun(t: TaskId, n: nat)
    ensures Run(DropAfter(t, n)) == Step(Drive(Step(FRESH, Arrive), 0, t, n), Abandon(0))
  {
    assert [] + [Arrive] == [Arrive];
    RunAppend([], Arrive);
    DriveIsRun([Arrive], 0, t, n);
    RunAppend([Arrive] + Steps(0, t, n), Abandon(0));
  }

  /** Dropped while it stores its task, a call leaves the id stuck from the first request on. */
  lemma DroppedWhileStoring(t: TaskId)
    ensures Run(DropAfter(t, 3)) == Server(Some(IN_FLIGHT), {}, {}, [Abandoned(true)], [])
    ensures Stuck(Run(DropAfter(t, 3)))
  {
    DropIsRun(t, 3);
  }

  /** Dropped while it binds its task, it leaves the id stuck although the task is stored. */
  lemma DroppedWhileBinding(t: TaskId)
    requires t != IN_FLIGHT
    ensures Run(DropAfter(t, 4)) == Server(Some(IN_FLIGHT), {t}, {t}, [Abandoned(true)], [])
    ensures Stuck(Run(DropAfter(t, 4)))
  {
    DropIsRun(t, 4);
  }

  /** A call that has not claimed yet takes nothing with it; one that is about to take its slot is not dropped. */
  lemma DroppedBeforeStoring(t: TaskId, n: nat)
    requires n <= 2
    ensures Run(DropAfter(t, n)) ==
            if n < 2 then Server(None, {}, {}, [Abandoned(false)], [])
            else Server(Some(IN_FLIGHT), {}, {}, [Admitting(true)], [])
  {
    DropIsRun(t, n);
  }

  /** Dropped between binding and running, it leaves a task that every retry is given and that never runs. */
  lemma DroppedBeforeRunning(t: TaskId, tid: TaskId)
    requires t != IN_FLIGHT
    ensures Run(DropAfter(t, 5)) == Server(Some(t), {t}, {t}, [Abandoned(false)], [])
    ensures Send(Run(DropAfter(t, 5)), tid) ==
              Server(Some(t), {t}, {t}, [Abandoned(false), Done(Existing(t))], [])
  {
    DropIsRun(t, 5);
    RetryIsIdempotent(Run(DropAfter(t, 5)), t, tid);
  }
}
