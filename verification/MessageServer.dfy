/**
 The idempotent send with all its message ids at once, on the bounded table of `crates/lc-a2a/src/server/mod.rs`:
 what one id sees of the others is made precise.
 */
module MessageServers {
  import opened Common
  import opened MessageIds
  import Tables = MessageIdTables
  import Sends = IdempotentSends

  datatype Call = Call(mid: Mid, pc: Sends.Pc)

  /** One table and one store for all ids; `runs` lists whose chain ran for which task. */
  datatype World = World(
    table: Tables.Table, stored: set<TaskId>, issued: set<TaskId>, calls: seq<Call>, runs: seq<(Mid, TaskId)>)

  const FRESH := World(Tables.EMPTY, {}, {}, [], [])

  datatype Op =
    | Arrive(mid: Mid)
    | Go(call: nat, ok: bool, drawn: TaskId)
    | Abandon(call: nat)
    | LoseTask(tid: TaskId)

  function Entry(t: Tables.Table, m: Mid): Option<TaskId> {
    if m in t.entries then Some(t.entries[m]) else None
  }

  /** What one step of a call writes into the table. */
  function Write(capacity: Positive, t: Tables.Table, m: Mid, entry: Option<TaskId>): Tables.Table {
    if entry == Entry(t, m) then t
    else
      match entry
      case Some(tid) => Tables.Step(capacity, t, Tables.Insert(m, tid))
      case None => Tables.Step(capacity, t, Tables.Remove(m))
  }

  /** The tasks a step ran, under the id of its call. */
  function Under(m: Mid, tids: seq<TaskId>): (r: seq<(Mid, TaskId)>)
    ensures |r| == |tids|
  {
    seq(|tids|, k requires 0 <= k < |tids| => (m, tids[k]))
  }

  function WriteBack(capacity: Positive, w: World, i: nat, after: Sends.Server, next: Sends.Pc): World
    requires i < |w.calls|
  {
    var m := w.calls[i].mid;
    World(Write(capacity, w.table, m, after.entry), after.stored, after.issued,
          w.calls[i := Call(m, next)], w.runs + Under(m, after.runs))
  }

  function Step(capacity: Positive, w: World, op: Op): World {
    match op
    case Arrive(m) => w.(calls := w.calls + [Call(m, Sends.Reading)])
    case Go(i, ok, drawn) =>
      if i >= |w.calls| then w
      else
        var Call(m, pc) := w.calls[i];
        var (after, next) := Sends.Act(Sends.Server(Entry(w.table, m), w.stored, w.issued, [], []), pc, ok, drawn);
        WriteBack(capacity, w, i, after, next)
    case Abandon(i) =>
      if i < |w.calls| && Sends.Waits(w.calls[i].pc) then
        w.(calls := w.calls[i := Call(w.calls[i].mid, Sends.Abandoned(Sends.Holds(w.calls[i].pc)))])
      else w
    case LoseTask(tid) => w.(stored := w.stored - {tid})
  }

  function Run(capacity: Positive, ops: seq<Op>): World {
    if ops == [] then FRESH else Step(capacity, Run(capacity, ops[..|ops| - 1]), ops[|ops| - 1])
  }

  // ---------- What one id sees ----------

  /** The tasks run for one id. */
  function RunsFor(runs: seq<(Mid, TaskId)>, m: Mid): seq<TaskId> {
    if runs == [] then []
    else
      var front, last := RunsFor(runs[..|runs| - 1], m), runs[|runs| - 1];
      if last.0 == m then front + [last.1] else front
  }

  /** A call under another id looks like one that was refused. */
  function Seen(c: Call, m: Mid): Sends.Pc {
    if c.mid == m then c.pc else Sends.Done(Sends.Refused)
  }

  function SeenCalls(calls: seq<Call>, m: Mid): (r: seq<Sends.Pc>)
    ensures |r| == |calls| && forall i :: 0 <= i < |r| ==> r[i] == Seen(calls[i], m)
  {
    seq(|calls|, i requires 0 <= i < |calls| => Seen(calls[i], m))
  }

  function View(w: World, m: Mid): Sends.Server {
    Sends.Server(Entry(w.table, m), w.stored, w.issued, SeenCalls(w.calls, m), RunsFor(w.runs, m))
  }

  /** The ids that came by. */
  function Ids(calls: seq<Call>): set<Mid> {
    set c | c in calls :: c.mid
  }

  ghost predicate Tracked(w: World) {
    w.table.entries.Keys <= Ids(w.calls)
  }

  lemma RunsForAppend(runs: seq<(Mid, TaskId)>, m: Mid, more: seq<TaskId>, n: Mid)
    requires |more| <= 1
    ensures RunsFor(runs + Under(n, more), m) == if n == m then RunsFor(runs, m) + more else RunsFor(runs, m)
  {
    if more == [] {
      assert runs + Under(n, more) == runs;
    } else {
      assert (runs + Under(n, more))[..|runs|] == runs;
      assert more == [more[0]];
    }
  }

  /** A step runs at most one task, and what it does depends on the entry, the tasks and the ids drawn alone. */
  lemma ActIsLocal(s: Sends.Server, pc: Sends.Pc, ok: bool, drawn: TaskId)
    ensures var bare := Sends.Act(Sends.Server(s.entry, s.stored, s.issued, [], []), pc, ok, drawn);
            && Sends.Act(s, pc, ok, drawn) ==
                 (Sends.Server(bare.0.entry, bare.0.stored, bare.0.issued, s.calls, s.runs + bare.0.runs), bare.1)
            && |bare.0.runs| <= 1 && s.stored <= bare.0.stored
            && (s.stored <= s.issued ==> bare.0.stored <= bare.0.issued)
  {
    assert s.runs + [] == s.runs;
    if pc.Spawning? {
      assert [] + [pc.tid] == [pc.tid];
    }
  }

  lemma WriteOwn(capacity: Positive, t: Tables.Table, m: Mid, entry: Option<TaskId>)
    ensures Entry(Write(capacity, t, m, entry), m) == entry
  {
  }

  /** While the table has room for a new id, a write changes its own entry alone. */
  lemma WriteOthers(capacity: Positive, t: Tables.Table, m: Mid, entry: Option<TaskId>, n: Mid)
    requires n != m && (m !in t.entries ==> |t.entries| < capacity)
    ensures Entry(Write(capacity, t, m, entry), n) == Entry(t, n)
  {
  }

  lemma RoomForCall(capacity: Positive, w: World, i: nat)
    requires Tracked(w) && |Ids(w.calls)| <= capacity && i < |w.calls| && w.calls[i].mid !in w.table.entries
    ensures |w.table.entries| < capacity
  {
    var more := w.table.entries.Keys + {w.calls[i].mid};
    assert w.calls[i] in w.calls;
    SubsetSize(more, Ids(w.calls));
    assert |more| == |w.table.entries.Keys| + 1 && |w.table.entries| == |w.table.entries.Keys|;
  }

  predicate Quiet(op: Op) {
    !op.LoseTask?
  }

  // ---------- One run for each id ----------

  lemma GrowStaysSingle(s: Sends.Server, t: Sends.Server, owner: nat)
    requires Sends.SingleFor(s, owner)
    requires t.entry == s.entry && t.runs == s.runs && s.stored <= t.stored && t.stored <= t.issued
    requires |t.calls| >= |s.calls| && forall j: nat :: j < |s.calls| ==> t.calls[j] == s.calls[j]
    requires forall j: nat :: |s.calls| <= j < |t.calls| ==> t.calls[j] == Sends.Done(Sends.Refused)
    ensures Sends.SingleFor(t, owner)
  {
    forall j: nat | j < |t.calls|
      ensures Sends.CallFits(t, owner, j, t.calls[j])
    {
      assert j < |s.calls| ==> Sends.CallFits(s, owner, j, s.calls[j]);
    }
  }

  /** What a call of an id writes back is, for that id, what the single protocol writes back. */
  lemma OwnWrite(capacity: Positive, w: World, i: nat, after: Sends.Server, next: Sends.Pc, m: Mid)
    requires i < |w.calls| && w.calls[i].mid == m && |after.runs| <= 1
    ensures View(WriteBack(capacity, w, i, after, next), m) ==
            Sends.Server(after.entry, after.stored, after.issued,
                         SeenCalls(w.calls, m)[i := next], RunsFor(w.runs, m) + after.runs)
  {
    WriteOwn(capacity, w.table, m, after.entry);
    RunsForAppend(w.runs, m, after.runs, m);
    assert SeenCalls(w.calls[i := Call(m, next)], m) == SeenCalls(w.calls, m)[i := next];
  }

  /** A step of one of its own calls is, for an id, a step of the single protocol. */
  lemma OwnStep(capacity: Positive, w: World, i: nat, ok: bool, drawn: TaskId, m: Mid)
    requires i < |w.calls| && w.calls[i].mid == m
    ensures View(Step(capacity, w, Go(i, ok, drawn)), m) == Sends.Step(View(w, m), Sends.Go(i, ok, drawn))
  {
    var bare := Sends.Server(Entry(w.table, m), w.stored, w.issued, [], []);
    var (after, next) := Sends.Act(bare, w.calls[i].pc, ok, drawn);
    ActIsLocal(View(w, m), w.calls[i].pc, ok, drawn);
    OwnWrite(capacity, w, i, after, next, m);
  }

  /** What an operation is for the id it concerns. */
  function AsSend(op: Op): Sends.Op {
    match op
    case Arrive(_) => Sends.Arrive
    case Go(i, ok, drawn) => Sends.Go(i, ok, drawn)
    case Abandon(i) => Sends.Abandon(i)
    case LoseTask(tid) => Sends.LoseTask(tid)
  }

  /** The operation is a call under the id, one of its calls, or a loss in the store they all share. */
  predicate Concerns(w: World, op: Op, m: Mid) {
    match op
    case Arrive(n) => n == m
    case Go(i, _, _) => i < |w.calls| && w.calls[i].mid == m
    case Abandon(i) => i < |w.calls| && w.calls[i].mid == m
    case LoseTask(_) => true
  }

  /** With all ids on one table, whatever concerns an id is for it an operation of the single protocol. */
  lemma OwnOperation(capacity: Positive, w: World, op: Op, m: Mid)
    requires Concerns(w, op, m)
    ensures View(Step(capacity, w, op), m) == Sends.Step(View(w, m), AsSend(op))
  {
    match op
    case Arrive(_) =>
      assert SeenCalls(w.calls + [Call(m, Sends.Reading)], m) == SeenCalls(w.calls, m) + [Sends.Reading];
    case Go(i, ok, drawn) =>
      OwnStep(capacity, w, i, ok, drawn, m);
    case Abandon(i) =>
      var pc := w.calls[i].pc;
      assert SeenCalls(w.calls, m)[i] == pc;
      var next := Sends.Abandoned(Sends.Holds(pc));
      assert SeenCalls(w.calls[i := Call(m, next)], m) == SeenCalls(w.calls, m)[i := next];
    case LoseTask(_) =>
  }

  /** A step of another id's call leaves an id its entry, its calls and its runs, as long as the table has room. */
  lemma OthersStep(capacity: Positive, w: World, op: Op, m: Mid)
    requires op.Go? && op.call < |w.calls| && w.calls[op.call].mid != m
    requires Tracked(w) && |Ids(w.calls)| <= capacity && w.stored <= w.issued
    ensures var s, t := View(w, m), View(Step(capacity, w, op), m);
            && t.entry == s.entry && t.runs == s.runs && t.calls == s.calls
            && s.stored <= t.stored && t.stored <= t.issued
  {
    var Call(n, pc) := w.calls[op.call];
    var bare := Sends.Server(Entry(w.table, n), w.stored, w.issued, [], []);
    var (after, next) := Sends.Act(bare, pc, op.ok, op.drawn);
    ActIsLocal(bare, pc, op.ok, op.drawn);
    if n !in w.table.entries {
      RoomForCall(capacity, w, op.call);
    }
    WriteOthers(capacity, w.table, n, after.entry, m);
    RunsForAppend(w.runs, m, after.runs, n);
    assert SeenCalls(w.calls[op.call := Call(n, next)], m) == SeenCalls(w.calls, m);
  }

  lemma IdsStay(capacity: Positive, w: World, op: Op)
    ensures Ids(w.calls) <= Ids(Step(capacity, w, op).calls)
  {
    forall c | c in w.calls
      ensures exists d :: d in Step(capacity, w, op).calls && d.mid == c.mid
    {
      var i :| 0 <= i < |w.calls| && w.calls[i] == c;
      assert Step(capacity, w, op).calls[i].mid == c.mid;
    }
  }

  lemma StepStaysTracked(capacity: Positive, w: World, op: Op)
    requires Tracked(w) && |Ids(w.calls)| <= capacity
    ensures Tracked(Step(capacity, w, op))
  {
    IdsStay(capacity, w, op);
    if op.Go? && op.call < |w.calls| {
      var Call(m, pc) := w.calls[op.call];
      var after := Sends.Act(Sends.Server(Entry(w.table, m), w.stored, w.issued, [], []), pc, op.ok, op.drawn).0;
      if m !in w.table.entries {
        RoomForCall(capacity, w, op.call);
      }
      WriteKeys(capacity, w.table, m, after.entry);
      assert w.calls[op.call] in w.calls;
    }
  }

  lemma WriteKeys(capacity: Positive, t: Tables.Table, m: Mid, entry: Option<TaskId>)
    requires m !in t.entries ==> |t.entries| < capacity
    ensures Write(capacity, t, m, entry).entries.Keys <= t.entries.Keys + {m}
  {
  }

  ghost predicate Inv(w: World, m: Mid) {
    Tracked(w) && Sends.Single(View(w, m))
  }

  lemma StepStaysSingle(capacity: Positive, w: World, op: Op, m: Mid)
    requires Inv(w, m) && Quiet(op) && |Ids(w.calls)| <= capacity
    ensures Inv(Step(capacity, w, op), m)
  {
    StepStaysTracked(capacity, w, op);
    var owner: nat :| Sends.SingleFor(View(w, m), owner);
    var s, t := View(w, m), View(Step(capacity, w, op), m);
    match op
    case Arrive(n) =>
      if n == m {
        OwnOperation(capacity, w, op, m);
        Sends.QuietStepStaysSingle(s, Sends.Arrive, owner);
      } else {
        GrowStaysSingle(s, t, owner);
      }
    case Go(i, ok, drawn) =>
      if i < |w.calls| {
        if w.calls[i].mid == m {
          OwnOperation(capacity, w, op, m);
          Sends.QuietStepStaysSingle(s, Sends.Go(i, ok, drawn), owner);
        } else {
          OthersStep(capacity, w, op, m);
          GrowStaysSingle(s, t, owner);
        }
      }
    case Abandon(i) =>
      if i < |w.calls| && Sends.Waits(w.calls[i].pc) {
        if w.calls[i].mid == m {
          OwnOperation(capacity, w, op, m);
          Sends.QuietStepStaysSingle(s, Sends.Abandon(i), owner);
        } else {
          assert t.calls == s.calls;
          GrowStaysSingle(s, t, owner);
        }
      }
  }

  /**
   With one table for all ids: as long as no more than `capacity` different ids have come by and the store keeps its
   tasks, the chain runs at most once for each of them, however their calls interleave and wherever they are dropped.
   */
  lemma {:induction false} OneRunForEachId(capacity: Positive, ops: seq<Op>, m: Mid)
    requires forall k :: 0 <= k < |ops| ==> Quiet(ops[k])
    requires |Ids(Run(capacity, ops).calls)| <= capacity
    ensures Inv(Run(capacity, ops), m) && |RunsFor(Run(capacity, ops).runs, m)| <= 1
  {
    if ops == [] {
      assert Sends.SingleFor(View(FRESH, m), 0);
    } else {
      var front := ops[..|ops| - 1];
      var w := Run(capacity, front);
      IdsStay(capacity, w, ops[|ops| - 1]);
      SubsetSize(Ids(w.calls), Ids(Run(capacity, ops).calls));
      OneRunForEachId(capacity, front, m);
      StepStaysSingle(capacity, w, ops[|ops| - 1], m);
      var owner: nat :| Sends.SingleFor(View(Run(capacity, ops), m), owner);
    }
  }

  /** Whatever was given out for an id is the one task that ran for it. */
  lemma OneTaskForEachId(capacity: Positive, ops: seq<Op>, i: nat, j: nat)
    requires forall k :: 0 <= k < |ops| ==> Quiet(ops[k])
    requires |Ids(Run(capacity, ops).calls)| <= capacity
    requires var calls := Run(capacity, ops).calls;
             && i < |calls| && j < |calls| && calls[i].mid == calls[j].mid
             && Sends.Named(calls[i].pc).Some? && Sends.Named(calls[j].pc).Some?
    ensures var w := Run(capacity, ops);
            && Sends.Named(w.calls[i].pc) == Sends.Named(w.calls[j].pc)
            && var runs := RunsFor(w.runs, w.calls[i].mid);
               runs == [] || runs == [Sends.Named(w.calls[i].pc).value]
  {
    var w := Run(capacity, ops);
    var m := w.calls[i].mid;
    OneRunForEachId(capacity, ops, m);
    var s := View(w, m);
    var owner: nat :| Sends.SingleFor(s, owner);
    assert Sends.CallFits(s, owner, i, s.calls[i]) && Sends.CallFits(s, owner, j, s.calls[j]);
  }
}
