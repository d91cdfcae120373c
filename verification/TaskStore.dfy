/**
 The in-memory task store of `crates/lc-a2a/src/store.rs`. Every operation runs under one
 lock, so an interleaving of callers is a sequence of atomic steps. Which of several
 equally old tasks is evicted depends on hash order, so a step is a relation.
 */
module TaskStores {
  import opened Common

  datatype TaskStatus =
    | Submitted | Working | InputRequired | AuthRequired
    | Completed | Failed | Cancelled | Rejected | Expired

  predicate CanTransition(from: TaskStatus, to: TaskStatus) {
    match from
    case Submitted => to in {Working, Rejected, Cancelled, Expired}
    case Working => to in {Completed, Failed, InputRequired, Cancelled, Expired}
    case InputRequired => to in {Working, Cancelled, Expired}
    case AuthRequired => to in {Submitted, Working, Expired}
    case _ => false
  }

  predicate IsTerminal(s: TaskStatus) {
    s in {Completed, Failed, Cancelled, Rejected, Expired}
  }

  /** The terminal statuses are exactly those without a way out. */
  lemma TerminalMeansNoWayOut(s: TaskStatus)
    ensures IsTerminal(s) <==> forall t :: !CanTransition(s, t)
  {
    if !IsTerminal(s) {
      assert CanTransition(s, Expired);
    }
  }

  /** The same table by its targets: where a status is entered from. */
  lemma EnteredFrom(from: TaskStatus, to: TaskStatus)
    ensures CanTransition(from, to) <==>
            match to
            case Submitted => from == AuthRequired
            case Working => from in {Submitted, InputRequired, AuthRequired}
            case InputRequired => from == Working
            case AuthRequired => false
            case Completed => from == Working
            case Failed => from == Working
            case Cancelled => from in {Submitted, Working, InputRequired}
            case Rejected => from == Submitted
            case Expired => !IsTerminal(from)
  {
  }

  datatype StoredTask = StoredTask(id: string, owner: Option<string>, status: TaskStatus, body: string, updatedAt: nat)

  type Store = map<string, StoredTask>

  // ---------- Atomic steps ----------

  datatype Op =
    | Upsert(task: StoredTask)
    | UpsertClaimed(taskId: string, task: StoredTask)
    | CompareAndUpdate(taskId: string, task: StoredTask)
    | Delete(taskId: string)

  predicate Oldest(s: Store, k: string) {
    k in s && forall j :: j in s ==> s[k].updatedAt <= s[j].updatedAt
  }

  predicate Full(maxTasks: nat, s: Store) {
    maxTasks > 0 && |s| >= maxTasks
  }

  /** Inserting evicts one oldest task, and only to make room for a new id. */
  ghost predicate Inserted(maxTasks: nat, s: Store, task: StoredTask, s': Store) {
    if task.id !in s && Full(maxTasks, s) then exists k :: Oldest(s, k) && s' == (s - {k})[task.id := task]
    else s' == s[task.id := task]
  }

  predicate Claimable(s: Store, taskId: string, task: StoredTask) {
    taskId in s && s[taskId].owner.Some? ==> task.owner == s[taskId].owner
  }

  predicate MayUpdate(s: Store, taskId: string, task: StoredTask) {
    taskId in s && CanTransition(s[taskId].status, task.status)
  }

  ghost predicate Step(maxTasks: nat, s: Store, op: Op, s': Store, answer: bool) {
    match op
    case Upsert(task) => Inserted(maxTasks, s, task, s') && answer
    case UpsertClaimed(id, task) =>
      answer == Claimable(s, id, task) && if answer then Inserted(maxTasks, s, task, s') else s' == s
    case CompareAndUpdate(id, task) =>
      answer == MayUpdate(s, id, task) && s' == if answer then s[id := task] else s
    case Delete(id) => answer == (id in s) && s' == s - {id}
  }

  /** An update is stored under the id it was checked for. */
  predicate Keyed(op: Op) {
    (op.UpsertClaimed? || op.CompareAndUpdate? ==> op.task.id == op.taskId)
  }

  /** An interleaving of callers: the steps taken, the states between them, and the answers given. */
  datatype Trace = Trace(ops: seq<Op>, states: seq<Store>, answers: seq<bool>)

  ghost predicate IsRun(maxTasks: nat, t: Trace) {
    && |t.states| == |t.ops| + 1 && |t.answers| == |t.ops|
    && t.states[0] == map[]
    && forall i {:trigger t.ops[i]} :: 0 <= i < |t.ops| ==>
         Keyed(t.ops[i]) && Step(maxTasks, t.states[i], t.ops[i], t.states[i + 1], t.answers[i])
  }

  // ---------- Capacity and eviction ----------

  ghost predicate Inv(maxTasks: nat, s: Store) {
    (forall k :: k in s ==> s[k].id == k) && (maxTasks > 0 ==> |s| <= maxTasks)
  }

  lemma StepKeepsInv(maxTasks: nat, s: Store, op: Op, s': Store, answer: bool)
    requires Inv(maxTasks, s) && Keyed(op) && Step(maxTasks, s, op, s', answer)
    ensures Inv(maxTasks, s')
  {
    match op
    case Delete(id) =>
      RemoveOne(s, id);
    case CompareAndUpdate(id, task) =>
      if answer {
        assert s'.Keys == s.Keys;
      }
    case Upsert(task) =>
      InsertKeepsInv(maxTasks, s, task, s');
    case UpsertClaimed(id, task) =>
      if answer {
        InsertKeepsInv(maxTasks, s, task, s');
      }
  }

  lemma RemoveOne(s: Store, k: string)
    ensures |s - {k}| == if k in s then |s| - 1 else |s|
  {
  }

  lemma AddOne(s: Store, k: string, t: StoredTask)
    ensures |s[k := t]| == if k in s then |s| else |s| + 1
  {
  }

  lemma InsertKeepsInv(maxTasks: nat, s: Store, task: StoredTask, s': Store)
    requires Inv(maxTasks, s) && Inserted(maxTasks, s, task, s')
    ensures Inv(maxTasks, s')
  {
    if task.id !in s && Full(maxTasks, s) {
      var k :| Oldest(s, k) && s' == (s - {k})[task.id := task];
      RemoveOne(s, k);
      AddOne(s - {k}, task.id, task);
    } else {
      AddOne(s, task.id, task);
    }
  }

  lemma RunStep(maxTasks: nat, t: Trace, i: nat)
    requires IsRun(maxTasks, t) && i < |t.ops|
    ensures Keyed(t.ops[i]) && Step(maxTasks, t.states[i], t.ops[i], t.states[i + 1], t.answers[i])
  {
  }

  /** Over every interleaving the store stays within its capacity and keeps tasks under their own id. */
  lemma {:induction false} CapacityHolds(maxTasks: nat, t: Trace, i: nat)
    requires IsRun(maxTasks, t) && i < |t.states|
    ensures Inv(maxTasks, t.states[i])
  {
    if i == 0 {
      assert |t.states[0]| == 0;
    } else {
      CapacityHolds(maxTasks, t, i - 1);
      RunStep(maxTasks, t, i - 1);
      StepKeepsInv(maxTasks, t.states[i - 1], t.ops[i - 1], t.states[i], t.answers[i - 1]);
    }
  }

  /**
   One step drops at most one task it was not asked to delete: the oldest one, when a new id
   meets a full store, whose size then stays the same. Every other task is untouched.
   */
  lemma EvictionIsMinimal(maxTasks: nat, s: Store, op: Op, s': Store, answer: bool, k: string)
    requires Inv(maxTasks, s) && Keyed(op) && Step(maxTasks, s, op, s', answer)
    requires k in s && k != Target(op)
    ensures k in s' ==> s'[k] == s[k]
    ensures k !in s' ==>
              && (op.Upsert? || op.UpsertClaimed?) && op.task.id !in s && Full(maxTasks, s)
              && (forall j :: j in s ==> s[k].updatedAt <= s[j].updatedAt)
              && Oldest(s, k) && s'.Keys == s.Keys - {k} + {op.task.id} && |s'| == |s|
  {
    if k !in s' {
      var gone :| Oldest(s, gone) && s' == (s - {gone})[op.task.id := op.task];
      RemoveOne(s, gone);
      AddOne(s - {gone}, op.task.id, op.task);
    }
  }

  // ---------- What is resident ----------

  /** Step `m` is answered and writes or deletes `k`. */
  predicate Touches(t: Trace, m: int, k: string) {
    0 <= m < |t.ops| && m < |t.answers| && t.answers[m] && Target(t.ops[m]) == k
  }

  predicate WritesAt(t: Trace, m: int, k: string) {
    Touches(t, m, k) && !t.ops[m].Delete?
  }

  /** No step between `i` and `j` writes or deletes `k`. */
  predicate LeftAlone(t: Trace, i: int, j: int, k: string) {
    forall m :: i < m < j ==> !Touches(t, m, k)
  }

  /** Step `m` evicts `k`: it is the oldest of a full store that takes in a new id. */
  ghost predicate EvictsAt(maxTasks: nat, t: Trace, m: int, k: string) {
    && 0 <= m < |t.ops| && m + 1 < |t.states| && WritesAt(t, m, Target(t.ops[m]))
    && Target(t.ops[m]) !in t.states[m] && maxTasks > 0 && |t.states[m]| == maxTasks
    && Oldest(t.states[m], k) && k !in t.states[m + 1]
  }

  /** A write that is answered is there; a delete is not; what is not answered changes nothing. */
  lemma AnswersAreKept(maxTasks: nat, s: Store, op: Op, s': Store, answer: bool)
    requires Keyed(op) && Step(maxTasks, s, op, s', answer)
    ensures answer && !op.Delete? ==> op.task.id in s' && s'[op.task.id] == op.task
    ensures op.Delete? ==> op.taskId !in s'
    ensures !answer ==> s' == s
    ensures op.Upsert? ==> answer
    ensures op.Delete? ==> (answer <==> op.taskId in s)
    ensures op.UpsertClaimed? ==> (answer <==> op.taskId !in s || s[op.taskId].owner in {None, op.task.owner})
    ensures op.CompareAndUpdate? ==> (answer <==> op.taskId in s && CanTransition(s[op.taskId].status, op.task.status))
  {
  }

  /** What one step of a run means to one id: it writes it, deletes it, evicts it or leaves it as it is. */
  ghost predicate Keeps(maxTasks: nat, t: Trace, m: int, k: string)
    requires 0 <= m < |t.ops| && |t.states| == |t.ops| + 1
  {
    && (WritesAt(t, m, k) ==> k in t.states[m + 1] && t.states[m + 1][k] == t.ops[m].task)
    && (Touches(t, m, k) && t.ops[m].Delete? ==> k !in t.states[m + 1])
    && (EvictsAt(maxTasks, t, m, k) ==> !Touches(t, m, k))
    && (!Touches(t, m, k) ==>
          && (k in t.states[m + 1] <==> k in t.states[m] && !EvictsAt(maxTasks, t, m, k))
          && (k in t.states[m + 1] ==> t.states[m + 1][k] == t.states[m][k]))
  }

  lemma OneStep(maxTasks: nat, t: Trace, m: nat, k: string)
    requires IsRun(maxTasks, t) && m < |t.ops|
    ensures Keeps(maxTasks, t, m, k)
  {
    var s, op, s', answer := t.states[m], t.ops[m], t.states[m + 1], t.answers[m];
    CapacityHolds(maxTasks, t, m);
    RunStep(maxTasks, t, m);
    AnswersAreKept(maxTasks, s, op, s', answer);
    if answer && Target(op) != k && k in s {
      EvictionIsMinimal(maxTasks, s, op, s', answer, k);
    }
  }

  ghost predicate KeepsThroughout(maxTasks: nat, t: Trace, k: string) {
    && |t.states| == |t.ops| + 1 && t.states[0] == map[]
    && forall m :: 0 <= m < |t.ops| ==> Keeps(maxTasks, t, m, k)
  }

  lemma AllSteps(maxTasks: nat, t: Trace, k: string)
    requires IsRun(maxTasks, t)
    ensures KeepsThroughout(maxTasks, t, k)
  {
    forall m | 0 <= m < |t.ops|
      ensures Keeps(maxTasks, t, m, k)
    {
      OneStep(maxTasks, t, m, k);
    }
  }

  lemma {:induction false} StaysFrom(maxTasks: nat, t: Trace, i: nat, j: nat, k: string)
    requires KeepsThroughout(maxTasks, t, k) && i < j < |t.states| && WritesAt(t, i, k) && LeftAlone(t, i, j, k)
    ensures k in t.states[j] ==> t.states[j][k] == t.ops[i].task
    ensures k in t.states[j] <==> forall m :: i < m < j ==> !EvictsAt(maxTasks, t, m, k)
    decreases j
  {
    assert Keeps(maxTasks, t, j - 1, k);
    if i + 1 < j {
      StaysFrom(maxTasks, t, i, j - 1, k);
      assert !Touches(t, j - 1, k);
    }
  }

  /** A task that was written stays, with that value, until a step writes or deletes its id or evicts it. */
  lemma WrittenTaskStays(maxTasks: nat, t: Trace, i: nat, j: nat, k: string)
    requires IsRun(maxTasks, t) && i < j < |t.states| && WritesAt(t, i, k) && LeftAlone(t, i, j, k)
    ensures k in t.states[j] ==> t.states[j][k] == t.ops[i].task
    ensures k in t.states[j] <==> forall m :: i < m < j ==> !EvictsAt(maxTasks, t, m, k)
  {
    AllSteps(maxTasks, t, k);
    StaysFrom(maxTasks, t, i, j, k);
  }

  /** Over any run a task is resident exactly if a step wrote it and no later one wrote, deleted or evicted it. */
  lemma ResidentIsLastWrite(maxTasks: nat, t: Trace, j: nat, k: string, task: StoredTask)
    requires IsRun(maxTasks, t) && j < |t.states|
    ensures k in t.states[j] && t.states[j][k] == task <==>
            exists i: nat :: IsLastWrite(maxTasks, t, i, j, k) && t.ops[i].task == task
  {
    AllSteps(maxTasks, t, k);
    if k in t.states[j] && t.states[j][k] == task {
      var i := LastWrite(maxTasks, t, j, k);
      StaysFrom(maxTasks, t, i, j, k);
      assert IsLastWrite(maxTasks, t, i, j, k);
    }
    forall i: nat | IsLastWrite(maxTasks, t, i, j, k)
      ensures k in t.states[j] && t.states[j][k] == t.ops[i].task
    {
      StaysFrom(maxTasks, t, i, j, k);
    }
  }

  ghost predicate IsLastWrite(maxTasks: nat, t: Trace, i: nat, j: nat, k: string) {
    && i < j && WritesAt(t, i, k) && LeftAlone(t, i, j, k)
    && forall m :: i < m < j ==> !EvictsAt(maxTasks, t, m, k)
  }

  lemma {:induction false} LastWrite(maxTasks: nat, t: Trace, j: nat, k: string) returns (i: nat)
    requires KeepsThroughout(maxTasks, t, k) && j < |t.states| && k in t.states[j]
    ensures IsLastWrite(maxTasks, t, i, j, k)
  {
    i := j - 1;
    assert Keeps(maxTasks, t, j - 1, k);
    if !WritesAt(t, i, k) {
      i := LastWrite(maxTasks, t, j - 1, k);
    }
  }

  function Target(op: Op): string {
    if op.Delete? || op.CompareAndUpdate? then op.taskId else op.task.id
  }

  // ---------- Ownership ----------

  /** Writes that skip the ownership check leave the owner as it is. */
  ghost predicate RespectsOwner(s: Store, op: Op) {
    (op.Upsert? || op.CompareAndUpdate?) && Target(op) in s ==> op.task.owner == s[Target(op)].owner
  }

  /** Through claimed writes, a resident owned task never changes hands. */
  lemma {:induction false} OwnerNeverChanges(maxTasks: nat, t: Trace, i: nat, j: nat, k: string)
    requires IsRun(maxTasks, t) && i <= j < |t.states|
    requires forall m :: i <= m <= j ==> k in t.states[m]
    requires forall m {:trigger t.ops[m]} :: i <= m < j ==> RespectsOwner(t.states[m], t.ops[m])
    requires t.states[i][k].owner.Some?
    ensures t.states[j][k].owner == t.states[i][k].owner
    decreases j
  {
    if i < j {
      OwnerNeverChanges(maxTasks, t, i, j - 1, k);
      var s, op, s' := t.states[j - 1], t.ops[j - 1], t.states[j];
      assert Keyed(op) && RespectsOwner(s, op);
      if Target(op) != k {
        CapacityHolds(maxTasks, t, j - 1);
        EvictionIsMinimal(maxTasks, s, op, s', t.answers[j - 1], k);
      }
    }
  }

  // ---------- Statuses ----------

  /** Nothing but `compare_and_update` writes to `k`. */
  predicate OnlyCompared(op: Op, k: string) {
    Target(op) == k ==> op.CompareAndUpdate?
  }

  lemma ComparedStep(maxTasks: nat, s: Store, op: Op, s': Store, answer: bool, k: string)
    requires Inv(maxTasks, s) && Keyed(op) && Step(maxTasks, s, op, s', answer) && OnlyCompared(op, k)
    ensures k !in s ==> k !in s'
    ensures k in s && k in s' ==> s'[k] == s[k] || CanTransition(s[k].status, s'[k].status)
    ensures k in s && k in s' && IsTerminal(s[k].status) ==> s'[k] == s[k]
  {
  }

  /** A terminal task is never overwritten by a compare-and-update: it stays as it is for as long as it is resident. */
  lemma {:induction false} TerminalSurvives(maxTasks: nat, t: Trace, i: nat, j: nat, k: string)
    requires IsRun(maxTasks, t) && i <= j < |t.states|
    requires forall m {:trigger t.ops[m]} :: i <= m < j ==> OnlyCompared(t.ops[m], k)
    requires k in t.states[i] && IsTerminal(t.states[i][k].status)
    ensures k in t.states[j] ==> t.states[j][k] == t.states[i][k]
    decreases j
  {
    if i < j {
      TerminalSurvives(maxTasks, t, i, j - 1, k);
      CapacityHolds(maxTasks, t, j - 1);
      assert Keyed(t.ops[j - 1]) && OnlyCompared(t.ops[j - 1], k);
      ComparedStep(maxTasks, t.states[j - 1], t.ops[j - 1], t.states[j], t.answers[j - 1], k);
    }
  }

  predicate Finishes(t: Trace, i: nat, k: string)
    requires i < |t.ops| && i < |t.answers|
  {
    t.ops[i].CompareAndUpdate? && t.ops[i].taskId == k && IsTerminal(t.ops[i].task.status) && t.answers[i]
  }

  /** Of all racing attempts to finish a task, at most one is applied. */
  lemma OneFinisherWins(maxTasks: nat, t: Trace, i: nat, j: nat, k: string)
    requires IsRun(maxTasks, t) && i < j < |t.ops|
    requires forall m {:trigger t.ops[m]} :: i <= m < j ==> OnlyCompared(t.ops[m], k)
    requires Finishes(t, i, k)
    ensures !Finishes(t, j, k)
  {
    assert Keyed(t.ops[i]) && Keyed(t.ops[j]);
    TerminalSurvives(maxTasks, t, i + 1, j, k);
  }

  // ---------- The trait's two-step defaults ----------

  /** The default `compare_and_update`: it decided on `seen`, and writes into whatever the store is by then. */
  ghost predicate DefaultCompareAndUpdate(maxTasks: nat, seen: Store, s: Store, id: string, task: StoredTask,
    s': Store, answer: bool)
  {
    answer == MayUpdate(seen, id, task) && if answer then Inserted(maxTasks, s, task, s') else s' == s
  }

  ghost predicate DefaultUpsertClaimed(maxTasks: nat, seen: Store, s: Store, id: string, task: StoredTask,
    s': Store, answer: bool)
  {
    answer == Claimable(seen, id, task) && if answer then Inserted(maxTasks, s, task, s') else s' == s
  }

  /** The defaults are the atomic bodies exactly when what they saw still decides the same way. */
  lemma DefaultsAgreeExactly(maxTasks: nat, seen: Store, s: Store, id: string, task: StoredTask,
                             s': Store, answer: bool)
    requires task.id == id && Inv(maxTasks, s)
    ensures DefaultCompareAndUpdate(maxTasks, seen, s, id, task, s', answer) ==>
              (Step(maxTasks, s, CompareAndUpdate(id, task), s', answer) <==>
               MayUpdate(seen, id, task) == MayUpdate(s, id, task))
    ensures DefaultUpsertClaimed(maxTasks, seen, s, id, task, s', answer) ==>
              (Step(maxTasks, s, UpsertClaimed(id, task), s', answer) <==>
               Claimable(seen, id, task) == Claimable(s, id, task))
  {
  }

  lemma Untargeted(maxTasks: nat, s: Store, op: Op, s': Store, answer: bool, k: string)
    requires Inv(maxTasks, s) && Keyed(op) && Step(maxTasks, s, op, s', answer) && Target(op) != k
    ensures k in s' ==> k in s && s'[k] == s[k]
  {
    if k in s {
      EvictionIsMinimal(maxTasks, s, op, s', answer, k);
    }
  }

  /** Steps that do not target an id leave its task as it is, or evict it. */
  lemma {:induction false} UntargetedRun(maxTasks: nat, t: Trace, i: nat, j: nat, k: string)
    requires IsRun(maxTasks, t) && i <= j < |t.states|
    requires forall m {:trigger t.ops[m]} :: i <= m < j ==> Target(t.ops[m]) != k
    ensures k in t.states[j] ==> k in t.states[i] && t.states[j][k] == t.states[i][k]
    decreases j
  {
    if i < j {
      UntargetedRun(maxTasks, t, i, j - 1, k);
      CapacityHolds(maxTasks, t, j - 1);
      RunStep(maxTasks, t, j - 1);
      Untargeted(maxTasks, t.states[j - 1], t.ops[j - 1], t.states[j], t.answers[j - 1], k);
    }
  }

  /**
   Over runs, a default that reads at step `i` and writes at step `j`, with no step on its id in between, acts like the
   atomic body at `j` exactly when the id was not evicted meanwhile, or what was read decided the way it does without a
   task.
   */
  lemma DefaultsInRuns(maxTasks: nat, t: Trace, i: nat, j: nat, id: string, task: StoredTask, s': Store, answer: bool)
    requires IsRun(maxTasks, t) && i <= j < |t.states| && task.id == id
    requires forall m {:trigger t.ops[m]} :: i <= m < j ==> Target(t.ops[m]) != id
    ensures DefaultCompareAndUpdate(maxTasks, t.states[i], t.states[j], id, task, s', answer) ==>
              (Step(maxTasks, t.states[j], CompareAndUpdate(id, task), s', answer) <==>
               id in t.states[j] || !MayUpdate(t.states[i], id, task))
    ensures DefaultUpsertClaimed(maxTasks, t.states[i], t.states[j], id, task, s', answer) ==>
              (Step(maxTasks, t.states[j], UpsertClaimed(id, task), s', answer) <==>
               id in t.states[j] || Claimable(t.states[i], id, task))
  {
    UntargetedRun(maxTasks, t, i, j, id);
    CapacityHolds(maxTasks, t, j);
    DefaultsAgreeExactly(maxTasks, t.states[i], t.states[j], id, task, s', answer);
  }

  /** With a cancel in between, the default overwrites a terminal task that the atomic body would have kept. */
  lemma DefaultLosesTerminal(maxTasks: nat)
    ensures var working := StoredTask("t", None, Working, "", 0);
            var cancel, complete := working.(status := Cancelled), working.(status := Completed);
            var seen: Store := map["t" := working];
            var s, s': Store := map["t" := cancel], map["t" := complete];
            && Step(maxTasks, seen, CompareAndUpdate("t", cancel), s, true)
            && DefaultCompareAndUpdate(maxTasks, seen, s, "t", complete, s', true)
            && IsTerminal(s["t"].status) && s'["t"].status != s["t"].status
  {
  }

  // ---------- The store ----------

  class InMemoryTaskStore {
    var inner: Store
    const maxTasks: nat

    constructor (maxTasks: nat)
      ensures this.maxTasks == maxTasks && inner == map[]
    {
      this.maxTasks := maxTasks;
      inner := map[];
    }

    /** The scan for the smallest `updated_at`, in hash order. */
    method OldestKey() returns (oldest: string)
      requires inner.Keys != {}
      ensures Oldest(inner, oldest)
      ensures oldest in inner && forall k :: k in inner ==> inner[oldest].updatedAt <= inner[k].updatedAt
    {
      var todo := inner.Keys;
      oldest :| oldest in todo;
      todo := todo - {oldest};
      while todo != {}
        invariant todo <= inner.Keys && oldest in inner
        invariant forall k :: k in inner && k !in todo ==> inner[oldest].updatedAt <= inner[k].updatedAt
      {
        var k :| k in todo;
        todo := todo - {k};
        if inner[k].updatedAt < inner[oldest].updatedAt {
          oldest := k;
        }
      }
    }

    method InsertLocked(stored: StoredTask)
      modifies this
      ensures Inserted(maxTasks, old(inner), stored, inner)
      ensures if stored.id in old(inner) || maxTasks == 0 || |old(inner)| < maxTasks
              then inner == old(inner)[stored.id := stored]
              else exists k :: Oldest(old(inner), k) && inner == (old(inner) - {k})[stored.id := stored]
    {
      var insertingNew := stored.id !in inner;
      if insertingNew && maxTasks > 0 && |inner| >= maxTasks {
        var oldest := OldestKey();
        inner := inner - {oldest};
      }
      inner := inner[stored.id := stored];
    }

    method UpsertTask(stored: StoredTask)
      modifies this
      ensures Step(maxTasks, old(inner), Upsert(stored), inner, true)
      ensures stored.id in inner && inner[stored.id] == stored
    {
      InsertLocked(stored);
    }

    method UpsertClaimedTask(taskId: string, update: StoredTask) returns (applied: bool)
      modifies this
      ensures Step(maxTasks, old(inner), UpsertClaimed(taskId, update), inner, applied)
      ensures applied <==> taskId !in old(inner) || old(inner)[taskId].owner in {None, update.owner}
      ensures if applied then update.id in inner && inner[update.id] == update else inner == old(inner)
    {
      var claimable := true;
      if taskId in inner {
        match inner[taskId].owner
        case Some(actual) => claimable := update.owner == Some(actual);
        case None => claimable := true;
      }
      if !claimable {
        return false;
      }
      InsertLocked(update);
      applied := true;
    }

    method CompareAndUpdateTask(taskId: string, update: StoredTask) returns (applied: bool)
      modifies this
      ensures Step(maxTasks, old(inner), CompareAndUpdate(taskId, update), inner, applied)
      ensures applied <==> taskId in old(inner) && CanTransition(old(inner)[taskId].status, update.status)
      ensures inner == if applied then old(inner)[taskId := update] else old(inner)
    {
      if taskId in inner && CanTransition(inner[taskId].status, update.status) {
        inner := inner[taskId := update];
        return true;
      }
      applied := false;
    }

    method DeleteTask(taskId: string) returns (removed: bool)
      modifies this
      ensures Step(maxTasks, old(inner), Delete(taskId), inner, removed)
      ensures removed == (taskId in old(inner)) && inner == old(inner) - {taskId}
    {
      removed := taskId in inner;
      inner := inner - {taskId};
    }

    method Get(taskId: string) returns (r: Option<StoredTask>)
      ensures r.Some? <==> taskId in inner
      ensures r.Some? ==> r.value == inner[taskId]
    {
      r := if taskId in inner then Some(inner[taskId]) else None;
    }
  }
}
