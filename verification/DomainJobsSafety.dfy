/**
  What no interleaving of the multi-replica registry can break: an id is returned by at most one
  successful Start, a finished record is final, and only the runner stamped on a record moves it.
*/
module DomainJobsSafety {
  import opened Outcomes
  import opened Decimals
  import opened JobTypes
  import opened DomainJobs

  // ---------------------------------------------------------------------------------------------
  // The inductive invariant

  ghost predicate NoRepeats(ids: seq<JobId>) {
    forall i, j :: 0 <= i < j < |ids| ==> ids[i] != ids[j]
  }

  predicate Owned(table: Table, r: Runner, id: JobId) {
    id in table && table[id].runner == r
  }

  /** A Start whose producer has not yet answered holds this id. */
  predicate Starts(task: Task, id: JobId) {
    (task.Claimed? || task.Producing? || task.Abandoning?) && task.id == id
  }

  predicate StartsSome(task: Task) {
    task.Claimed? || task.Producing? || task.Abandoning?
  }

  /** The task works on a job this replica has started for good. */
  predicate Runs(task: Task) {
    || task.Collecting? || task.Settling? || task.Committing? || task.Announcing?
    || task.Cancelling? || task.Requesting? || task.TearingDown? || task.TearingCancel?
  }

  predicate WillAnnounce(task: Task) {
    task.Announcing? && task.committed
  }

  ghost predicate TaskInv(table: Table, issued: seq<JobId>, announced: seq<JobId>, r: Runner,
                          handles: map<JobId, Handle>, task: Task)
  {
    && (task.Claiming? ==> task.record.runner == r && task.record.status.Running? && !task.record.reported)
    && (StartsSome(task) ==> Owned(table, r, task.id) && table[task.id].status.Running? && task.id !in issued)
    && (task.Claimed? || task.Abandoning? ==> task.id !in handles)
    && (task.Producing? ==> task.id in handles && !handles[task.id].ready)
    && (Runs(task) ==> Owned(table, r, task.id) && task.id in issued)
    && (task.Settling? || task.Committing? ==> task.outcome.status.IsTerminal())
    && (WillAnnounce(task) ==> table[task.id].status.IsTerminal() && task.id !in announced)
    && (task.Marking? ==> task.id in table && table[task.id].status.IsTerminal())
  }

  /** No two Starts hold one id, and no job is about to be announced twice. */
  predicate Compatible(a: Task, b: Task) {
    && !(StartsSome(a) && StartsSome(b) && a.id == b.id)
    && !(WillAnnounce(a) && WillAnnounce(b) && a.id == b.id)
  }

  ghost predicate HandleInv(table: Table, issued: seq<JobId>, r: Runner, handles: map<JobId, Handle>) {
    forall id <- handles :: Owned(table, r, id) && (handles[id].ready ==> id in issued)
  }

  /** A booting replica still has every live record of its predecessor on its list, and only its own. */
  ghost predicate BootInv(table: Table, r: Runner, phase: Phase) {
    phase.Booting? ==>
      && (forall id <- table :: table[id].runner == r && table[id].IsActive() ==> id in phase.pending)
      && (forall k :: 0 <= k < |phase.pending| ==> Owned(table, r, phase.pending[k]))
  }

  ghost predicate ReplicaInv(table: Table, issued: seq<JobId>, announced: seq<JobId>, r: Runner, rep: Replica) {
    && (!rep.phase.Up? ==> rep.tasks == map[] && rep.handles == map[])
    && BootInv(table, r, rep.phase)
    && HandleInv(table, issued, r, rep.handles)
    && (forall t <- rep.tasks :: TaskInv(table, issued, announced, r, rep.handles, rep.tasks[t]))
    && (forall t, u | t in rep.tasks && u in rep.tasks && t != u :: Compatible(rep.tasks[t], rep.tasks[u]))
  }

  ghost predicate LedgerInv(table: Table, issued: seq<JobId>, announced: seq<JobId>) {
    && (forall id <- table :: table[id].id == id)
    && NoRepeats(issued) && NoRepeats(announced)
    && (forall i :: 0 <= i < |issued| ==> issued[i] in table)
    && (forall i :: 0 <= i < |announced| ==> announced[i] in table && table[announced[i]].status.IsTerminal())
  }

  ghost predicate Inv(w: World) {
    && LedgerInv(w.table, w.issued, w.announced)
    && forall r <- w.replicas :: ReplicaInv(w.table, w.issued, w.announced, r, w.replicas[r])
  }

  // ---------------------------------------------------------------------------------------------
  // What one step may do to the table

  /** b is what a may become: same stamps, final once terminal, a report never taken back. */
  predicate Later(a: Record, b: Record) {
    && b.id == a.id && b.runner == a.runner && b.spec == a.spec && b.startedAt == a.startedAt
    && (a.reported ==> b.reported)
    && (b.status.Running? ==> a.status.Running?)
    && (a.status.IsTerminal() ==>
          b.status == a.status && b.detail == a.detail && b.output == a.output && b.finishedAt == a.finishedAt)
  }

  /** One step of runner r: others' records can only become reported, and only an unreturned Start is withdrawn. */
  ghost predicate TableStep(table: Table, table': Table, issued: seq<JobId>, r: Runner) {
    && (forall id <- table ::
          if id in table' then Later(table[id], table'[id]) && (table[id].runner != r ==> table'[id] == table[id].(reported := table'[id].reported))
          else table[id].runner == r && table[id].status.Running? && id !in issued)
    && (forall id <- table' :: id !in table ==> table'[id].runner == r && table'[id].status.Running? && table'[id].id == id)
  }

  lemma SameTable(table: Table, issued: seq<JobId>, r: Runner)
    ensures TableStep(table, table, issued, r)
  {
  }

  lemma OneRecordMoves(table: Table, id: JobId, b: Record, issued: seq<JobId>, r: Runner)
    requires id in table && Later(table[id], b) && (table[id].runner != r ==> b == table[id].(reported := b.reported))
    ensures TableStep(table, table[id := b], issued, r)
  {
  }

  lemma OneRecordAppears(table: Table, b: Record, issued: seq<JobId>, r: Runner)
    requires b.id !in table && b.runner == r && b.status.Running?
    ensures TableStep(table, table[b.id := b], issued, r)
  {
  }

  lemma OneRecordWithdrawn(table: Table, id: JobId, issued: seq<JobId>, r: Runner)
    requires Owned(table, r, id) && table[id].status.Running? && id !in issued
    ensures TableStep(table, table - {id}, issued, r)
  {
  }

  /** Another replica keeps its invariant whatever runner r does in one step. */
  lemma OtherReplicaKept(table: Table, table': Table, issued: seq<JobId>, issued': seq<JobId>,
                         announced: seq<JobId>, announced': seq<JobId>, r: Runner, other: Runner, rep: Replica)
    requires other != r && ReplicaInv(table, issued, announced, other, rep)
    requires TableStep(table, table', issued, r)
    requires forall id <- issued :: id in issued'
    requires forall id <- issued' :: id !in issued ==> Owned(table, r, id)
    requires forall id <- announced' :: id !in announced ==> Owned(table, r, id)
    ensures ReplicaInv(table', issued', announced', other, rep)
  {
    forall t <- rep.tasks ensures TaskInv(table', issued', announced', other, rep.handles, rep.tasks[t]) {
      var task := rep.tasks[t];
      assert TaskInv(table, issued, announced, other, rep.handles, task);
    }
  }

  // ---------------------------------------------------------------------------------------------
  // The acting replica

  function Extended(ids: seq<JobId>, more: Option<JobId>): seq<JobId> {
    ids + (if more.Some? then [more.value] else [])
  }

  /** A task step that touches nothing but the job x. */
  ghost predicate Touches(w: World, r: Runner, m: Micro, x: JobId)
    requires r in w.replicas
  {
    var handles := w.replicas[r].handles;
    && TableStep(w.table, m.table, w.issued, r)
    && (forall id <- w.table :: id != x ==> id in m.table && m.table[id] == w.table[id])
    && (forall id <- handles :: id != x ==> id in m.handles && m.handles[id] == handles[id])
    && (forall id <- m.handles :: id != x ==> id in handles)
    && (m.issued.Some? ==> m.issued.value == x && x !in w.issued && Owned(w.table, r, x) && Owned(m.table, r, x))
    && (m.announced.Some? ==> m.announced.value == x && x !in w.announced && Owned(w.table, r, x) && Owned(m.table, r, x)
                              && m.table[x].status.IsTerminal())
  }

  /** A step that only moves its own task on. */
  ghost predicate Quiet(w: World, r: Runner, m: Micro)
    requires r in w.replicas
  {
    m.table == w.table && m.handles == w.replicas[r].handles && m.issued == None && m.announced == None
  }

  /** No other Start of the replica holds x, and nobody else is about to announce it if this step does. */
  ghost predicate OthersClear(rep: Replica, t: nat, m: Micro, x: JobId, quiet: bool) {
    forall u <- rep.tasks :: u != t ==>
      && (!quiet ==> !Starts(rep.tasks[u], x))
      && (m.announced.Some? ==> !(WillAnnounce(rep.tasks[u]) && rep.tasks[u].id == x))
      && (m.next.Some? ==> Compatible(m.next.value, rep.tasks[u]))
  }

  ghost predicate Sound(w: World, r: Runner, t: nat, m: Micro, x: JobId)
    requires r in w.replicas
  {
    var issued' := Extended(w.issued, m.issued);
    && Touches(w, r, m, x)
    && OthersClear(w.replicas[r], t, m, x, Quiet(w, r, m))
    && (!Quiet(w, r, m) && x in m.handles ==> Owned(m.table, r, x) && (m.handles[x].ready ==> x in issued'))
    && (m.next.Some? ==> TaskInv(m.table, issued', Extended(w.announced, m.announced), r, m.handles, m.next.value))
  }

  lemma LedgerKept(w: World, r: Runner, t: nat, m: Micro, x: JobId)
    requires Inv(w) && r in w.replicas && Sound(w, r, t, m, x)
    ensures LedgerInv(m.table, Extended(w.issued, m.issued), Extended(w.announced, m.announced))
  {
    var issued', announced' := Extended(w.issued, m.issued), Extended(w.announced, m.announced);
    forall i | 0 <= i < |issued'| ensures issued'[i] in m.table {
      if i < |w.issued| {
        assert issued'[i] == w.issued[i];
      }
    }
    forall i | 0 <= i < |announced'| ensures announced'[i] in m.table && m.table[announced'[i]].status.IsTerminal() {
      if i < |w.announced| {
        assert announced'[i] == w.announced[i];
      }
    }
  }

  lemma OtherTaskKept(w: World, r: Runner, m: Micro, x: JobId, task: Task)
    requires r in w.replicas && Touches(w, r, m, x)
    requires TaskInv(w.table, w.issued, w.announced, r, w.replicas[r].handles, task)
    requires (!Quiet(w, r, m) ==> !Starts(task, x)) && (m.announced.Some? ==> !(WillAnnounce(task) && task.id == x))
    ensures TaskInv(m.table, Extended(w.issued, m.issued), Extended(w.announced, m.announced), r, m.handles, task)
  {
  }

  lemma HandlesKept(w: World, r: Runner, t: nat, m: Micro, x: JobId)
    requires Inv(w) && r in w.replicas && Sound(w, r, t, m, x)
    ensures HandleInv(m.table, Extended(w.issued, m.issued), r, m.handles)
  {
    assert HandleInv(w.table, w.issued, r, w.replicas[r].handles);
    forall id <- m.handles
      ensures Owned(m.table, r, id) && (m.handles[id].ready ==> id in Extended(w.issued, m.issued))
    {
      if id != x {
        assert HandleInv(w.table, w.issued, r, w.replicas[r].handles);
      }
    }
  }

  lemma ActorKept(w: World, r: Runner, t: nat, m: Micro, x: JobId)
    requires Inv(w) && r in w.replicas && t in w.replicas[r].tasks && Sound(w, r, t, m, x)
    ensures ReplicaInv(m.table, Extended(w.issued, m.issued), Extended(w.announced, m.announced), r,
                       After(w, r, t, m).replicas[r])
  {
    hide TaskInv, LedgerInv, Touches, TableStep;
    var rep := w.replicas[r];
    var rep' := After(w, r, t, m).replicas[r];
    HandlesKept(w, r, t, m, x);
    forall u <- rep'.tasks
      ensures TaskInv(m.table, Extended(w.issued, m.issued), Extended(w.announced, m.announced), r, m.handles, rep'.tasks[u])
    {
      if u != t {
        OtherTaskKept(w, r, m, x, rep.tasks[u]);
      }
    }
  }

  lemma SoundStepKeeps(w: World, r: Runner, t: nat, m: Micro, x: JobId)
    requires Inv(w) && r in w.replicas && t in w.replicas[r].tasks && Sound(w, r, t, m, x)
    ensures Inv(After(w, r, t, m))
  {
    hide TaskInv, LedgerInv, TableStep, HandleInv, BootInv;
    LedgerKept(w, r, t, m, x);
    ActorKept(w, r, t, m, x);
    forall other <- w.replicas | other != r
      ensures ReplicaInv(m.table, Extended(w.issued, m.issued), Extended(w.announced, m.announced), other, w.replicas[other])
    {
      OtherReplicaKept(w.table, m.table, w.issued, Extended(w.issued, m.issued),
                       w.announced, Extended(w.announced, m.announced), r, other, w.replicas[other]);
    }
  }

  // ---------------------------------------------------------------------------------------------
  // Every kind of step is sound

  lemma OthersDoNotStart(w: World, r: Runner, t: nat, x: JobId)
    requires Inv(w) && r in w.replicas && t in w.replicas[r].tasks
    requires x in w.issued || Starts(w.replicas[r].tasks[t], x) || x !in w.table || !w.table[x].status.Running?
    ensures forall u <- w.replicas[r].tasks :: u != t ==> !Starts(w.replicas[r].tasks[u], x)
  {
    hide LedgerInv, HandleInv, BootInv;
    var rep := w.replicas[r];
    forall u <- rep.tasks | u != t
      ensures !Starts(rep.tasks[u], x)
    {
      assert Compatible(rep.tasks[t], rep.tasks[u]);
      assert TaskInv(w.table, w.issued, w.announced, r, rep.handles, rep.tasks[u]);
    }
  }

  lemma QuietSound(w: World, r: Runner, t: nat, m: Micro)
    requires Inv(w) && r in w.replicas && t in w.replicas[r].tasks && Quiet(w, r, m)
    requires m.next.Some? ==>
      && TaskInv(w.table, w.issued, w.announced, r, w.replicas[r].handles, m.next.value)
      && !WillAnnounce(m.next.value) && !StartsSome(m.next.value)
    ensures Sound(w, r, t, m, "")
  {
    hide TaskInv, LedgerInv, HandleInv, BootInv;
    SameTable(w.table, w.issued, r);
    assert Extended(w.issued, None) == w.issued && Extended(w.announced, None) == w.announced;
  }

  lemma StartSound(w: World, r: Runner, t: nat, task: Task, input: Input) returns (x: JobId)
    requires Inv(w) && r in w.replicas && t in w.replicas[r].tasks && task == w.replicas[r].tasks[t]
    requires task.Reading? || task.Claiming? || task.Claimed? || task.Producing? || task.Abandoning?
    ensures Sound(w, r, t, StartStep(w.table, w.replicas[r].handles, r, w.limit, task, input), x)
  {
    hide Inv, Sound, TaskInv, Highest, ActiveCount, Lists;
    var m := StartStep(w.table, w.replicas[r].handles, r, w.limit, task, input);
    if task.Reading? {
      x := "";
      ReadSound(w, r, t, task, input, m);
    } else if task.Claiming? {
      x := ClaimSound(w, r, t, task, input, m);
    } else {
      x := task.id;
      if task.Producing? {
        ProduceSound(w, r, t, task, input, m);
      } else if task.Claimed? {
        RegisterSound(w, r, t, task, input, m);
      } else {
        WithdrawSound(w, r, t, task, input, m);
      }
    }
  }

  lemma ReadSound(w: World, r: Runner, t: nat, task: Task, input: Input, m: Micro)
    requires Inv(w) && r in w.replicas && t in w.replicas[r].tasks && task == w.replicas[r].tasks[t]
    requires task.Reading? && m == StartStep(w.table, w.replicas[r].handles, r, w.limit, task, input)
    ensures Sound(w, r, t, m, "")
  {
    hide Inv, Sound, Highest, ActiveCount, Lists;
    QuietSound(w, r, t, m);
  }

  lemma RegisterSound(w: World, r: Runner, t: nat, task: Task, input: Input, m: Micro)
    requires Inv(w) && r in w.replicas && t in w.replicas[r].tasks && task == w.replicas[r].tasks[t]
    requires task.Claimed?
    requires m == StartStep(w.table, w.replicas[r].handles, r, w.limit, task, input)
    ensures Sound(w, r, t, m, task.id)
  {
    hide Inv, TableStep;
    TaskHolds(w, r, t);
    OthersDoNotStart(w, r, t, task.id);
    SameTable(w.table, w.issued, r);
  }

  lemma WithdrawSound(w: World, r: Runner, t: nat, task: Task, input: Input, m: Micro)
    requires Inv(w) && r in w.replicas && t in w.replicas[r].tasks && task == w.replicas[r].tasks[t]
    requires task.Abandoning?
    requires m == StartStep(w.table, w.replicas[r].handles, r, w.limit, task, input)
    ensures Sound(w, r, t, m, task.id)
  {
    hide Inv, TableStep;
    TaskHolds(w, r, t);
    OthersDoNotStart(w, r, t, task.id);
    SameTable(w.table, w.issued, r);
    OneRecordWithdrawn(w.table, task.id, w.issued, r);
  }

  lemma ProduceSound(w: World, r: Runner, t: nat, task: Task, input: Input, m: Micro)
    requires Inv(w) && r in w.replicas && t in w.replicas[r].tasks && task == w.replicas[r].tasks[t]
    requires task.Producing? && m == StartStep(w.table, w.replicas[r].handles, r, w.limit, task, input)
    ensures Sound(w, r, t, m, task.id)
  {
    hide LedgerInv, BootInv, HandleInv;
    assert TaskInv(w.table, w.issued, w.announced, r, w.replicas[r].handles, task);
    OthersDoNotStart(w, r, t, task.id);
    SameTable(w.table, w.issued, r);
  }

  lemma ClaimSound(w: World, r: Runner, t: nat, task: Task, input: Input, m: Micro) returns (x: JobId)
    requires Inv(w) && r in w.replicas && t in w.replicas[r].tasks && task == w.replicas[r].tasks[t]
    requires task.Claiming? && m == StartStep(w.table, w.replicas[r].handles, r, w.limit, task, input)
    ensures Sound(w, r, t, m, x)
  {
    hide Inv, Highest, ActiveCount, Lists, TableStep, Sound;
    TaskHolds(w, r, t);
    if input.ok && task.record.id !in w.table {
      x := task.record.id;
      NewRecordSound(w, r, t, task, m);
    } else {
      x := "";
      QuietSound(w, r, t, m);
    }
  }

  lemma NewRecordSound(w: World, r: Runner, t: nat, task: Task, m: Micro)
    requires Inv(w) && r in w.replicas && t in w.replicas[r].tasks && task == w.replicas[r].tasks[t]
    requires task.Claiming? && task.record.id !in w.table
    requires m == Micro(Some(Claimed(task.record.id)), w.table[task.record.id := task.record], w.replicas[r].handles, None, None)
    ensures Sound(w, r, t, m, task.record.id)
  {
    hide Inv, TableStep;
    TaskHolds(w, r, t);
    OthersDoNotStart(w, r, t, task.record.id);
    OneRecordAppears(w.table, task.record, w.issued, r);
    UnknownIsUnissued(w, task.record.id);
  }

  lemma UnknownIsUnissued(w: World, id: JobId)
    requires Inv(w) && id !in w.table
    ensures id !in w.issued
  {
  }

  lemma SettleSound(w: World, r: Runner, t: nat, task: Task, input: Input) returns (x: JobId)
    requires Inv(w) && r in w.replicas && t in w.replicas[r].tasks && task == w.replicas[r].tasks[t]
    requires task.Collecting? || task.Settling? || task.Committing? || task.Announcing?
    ensures Sound(w, r, t, SettleStep(w.table, w.replicas[r].handles, w.replicas[r].listenersClosed, task, input), x)
  {
    hide Inv, Sound, TaskInv, Settled;
    var m := SettleStep(w.table, w.replicas[r].handles, w.replicas[r].listenersClosed, task, input);
    if task.Committing? {
      x := task.id;
      CommitSound(w, r, t, task, input, m);
    } else if task.Announcing? {
      x := task.id;
      AnnounceSound(w, r, t, task, input, m);
    } else {
      x := "";
      OutcomeHolds(w, r, t);
      MovesOnSound(w, r, t, m.next.value);
    }
  }

  lemma OutcomeHolds(w: World, r: Runner, t: nat)
    requires Inv(w) && r in w.replicas && t in w.replicas[r].tasks
    ensures w.replicas[r].tasks[t].Settling? ==> w.replicas[r].tasks[t].outcome.status.IsTerminal()
  {
    TaskHolds(w, r, t);
  }

  /** Moving on within one running job, before anything is committed. */
  lemma MovesOnSound(w: World, r: Runner, t: nat, next: Task)
    requires Inv(w) && r in w.replicas && t in w.replicas[r].tasks
    requires Runs(w.replicas[r].tasks[t]) && Runs(next) && next.id == w.replicas[r].tasks[t].id && !WillAnnounce(next)
    requires next.Settling? || next.Committing? ==> next.outcome.status.IsTerminal()
    ensures Sound(w, r, t, Micro(Some(next), w.table, w.replicas[r].handles, None, None), "")
  {
    hide Inv, Sound;
    TaskHolds(w, r, t);
    QuietSound(w, r, t, Micro(Some(next), w.table, w.replicas[r].handles, None, None));
  }

  lemma HandleOf(w: World, r: Runner, id: JobId)
    requires Inv(w) && r in w.replicas
    ensures id in w.replicas[r].handles ==> Owned(w.table, r, id) && (w.replicas[r].handles[id].ready ==> id in w.issued)
  {
    hide LedgerInv, BootInv, TaskInv;
    assert HandleInv(w.table, w.issued, r, w.replicas[r].handles);
  }

  lemma TaskHolds(w: World, r: Runner, t: nat)
    requires Inv(w) && r in w.replicas && t in w.replicas[r].tasks
    ensures TaskInv(w.table, w.issued, w.announced, r, w.replicas[r].handles, w.replicas[r].tasks[t])
    ensures HandleInv(w.table, w.issued, r, w.replicas[r].handles)
  {
  }

  lemma CommitSound(w: World, r: Runner, t: nat, task: Task, input: Input, m: Micro)
    requires Inv(w) && r in w.replicas && t in w.replicas[r].tasks && task == w.replicas[r].tasks[t]
    requires task.Committing?
    requires m == SettleStep(w.table, w.replicas[r].handles, w.replicas[r].listenersClosed, task, input)
    ensures Sound(w, r, t, m, task.id)
  {
    hide Inv, TableStep, HandleInv;
    HandleOf(w, r, task.id);
    TaskHolds(w, r, t);
    OthersDoNotStart(w, r, t, task.id);
    if input.ok && task.id in w.table {
      OneRecordMoves(w.table, task.id, Settled(w.table[task.id], task.outcome, task.waiters, input.now), w.issued, r);
      if !w.table[task.id].status.IsTerminal() {
        OnlyOneAnnouncer(w, r, t, task.id);
      }
    } else {
      SameTable(w.table, w.issued, r);
    }
  }

  lemma AnnounceSound(w: World, r: Runner, t: nat, task: Task, input: Input, m: Micro)
    requires Inv(w) && r in w.replicas && t in w.replicas[r].tasks && task == w.replicas[r].tasks[t]
    requires task.Announcing?
    requires m == SettleStep(w.table, w.replicas[r].handles, w.replicas[r].listenersClosed, task, input)
    ensures Sound(w, r, t, m, task.id)
  {
    hide Inv;
    TaskHolds(w, r, t);
    OthersDoNotStart(w, r, t, task.id);
    SameTable(w.table, w.issued, r);
    if task.committed {
      OnlyOneAnnouncer(w, r, t, task.id);
    }
  }

  /** Nobody is about to announce a job that is not finished, and at most one task is about to. */
  lemma OnlyOneAnnouncer(w: World, r: Runner, t: nat, x: JobId)
    requires Inv(w) && r in w.replicas && t in w.replicas[r].tasks && x in w.table
    requires !w.table[x].status.IsTerminal() || (WillAnnounce(w.replicas[r].tasks[t]) && w.replicas[r].tasks[t].id == x)
    ensures forall u <- w.replicas[r].tasks :: u != t ==> !(WillAnnounce(w.replicas[r].tasks[u]) && w.replicas[r].tasks[u].id == x)
    ensures !w.table[x].status.IsTerminal() ==> x !in w.announced
  {
    var rep := w.replicas[r];
    forall u <- rep.tasks | u != t
      ensures !(WillAnnounce(rep.tasks[u]) && rep.tasks[u].id == x)
    {
      assert Compatible(rep.tasks[t], rep.tasks[u]);
      assert TaskInv(w.table, w.issued, w.announced, r, rep.handles, rep.tasks[u]);
    }
  }

  lemma KillSound(w: World, r: Runner, t: nat, task: Task, input: Input) returns (x: JobId)
    requires Inv(w) && r in w.replicas && t in w.replicas[r].tasks && task == w.replicas[r].tasks[t]
    requires task.KillCalled? || task.Killing? || task.Cancelling? || task.Requesting?
    ensures Sound(w, r, t, KillStep(w.table, w.replicas[r].handles, task, input), x)
  {
    hide Inv;
    TaskHolds(w, r, t);
    var m := KillStep(w.table, w.replicas[r].handles, task, input);
    if task.Requesting? {
      x := task.id;
      RecordStepSound(w, r, t, KillRequested(w.table[x]), m);
    } else {
      x := "";
      QuietSound(w, r, t, m);
    }
  }

  lemma TeardownSound(w: World, r: Runner, t: nat, task: Task, input: Input) returns (x: JobId)
    requires Inv(w) && r in w.replicas && t in w.replicas[r].tasks && task == w.replicas[r].tasks[t]
    requires task.TearingDown? || task.TearingCancel?
    ensures Sound(w, r, t, TeardownStep(w.table, w.replicas[r].handles, task, input), x)
  {
    hide Inv;
    TaskHolds(w, r, t);
    var m := TeardownStep(w.table, w.replicas[r].handles, task, input);
    if task.TearingDown? {
      x := task.id;
      RecordStepSound(w, r, t, TornDown(w.table[x]), m);
    } else {
      x := "";
      QuietSound(w, r, t, m);
    }
  }

  lemma MarkSound(w: World, r: Runner, t: nat, task: Task, input: Input) returns (x: JobId)
    requires Inv(w) && r in w.replicas && t in w.replicas[r].tasks && task == w.replicas[r].tasks[t]
    requires task.ReadCalled? || task.Marking?
    ensures Sound(w, r, t, MarkStep(w.table, w.replicas[r].handles, task, input), x)
  {
    hide Inv;
    TaskHolds(w, r, t);
    var m := MarkStep(w.table, w.replicas[r].handles, task, input);
    if task.Marking? {
      x := task.id;
      RecordStepSound(w, r, t, w.table[x].(reported := true), m);
    } else {
      x := "";
      QuietSound(w, r, t, m);
    }
  }

  /** A task that writes one record later than it was, and keeps or drops only itself. */
  lemma RecordStepSound(w: World, r: Runner, t: nat, b: Record, m: Micro)
    requires Inv(w) && r in w.replicas && t in w.replicas[r].tasks
    requires Runs(w.replicas[r].tasks[t]) || w.replicas[r].tasks[t].Marking?
    requires var x := w.replicas[r].tasks[t].id;
      && x in w.table && Later(w.table[x], b)
      && (w.table[x].runner != r ==> b.status == w.table[x].status)
      && (m.table == w.table || m.table == w.table[x := b])
      && m.handles == w.replicas[r].handles && m.issued == None && m.announced == None
      && (m.next == None || m.next == Some(TearingCancel(x)))
      && (m.next.Some? ==> Runs(w.replicas[r].tasks[t]))
    ensures Sound(w, r, t, m, w.replicas[r].tasks[t].id)
  {
    hide Inv, TableStep, HandleInv;
    HandleOf(w, r, w.replicas[r].tasks[t].id);
    var x := w.replicas[r].tasks[t].id;
    TaskHolds(w, r, t);
    OthersDoNotStart(w, r, t, x);
    SameTable(w.table, w.issued, r);
    OneRecordMoves(w.table, x, b, w.issued, r);
  }

  lemma TaskStepSound(w: World, r: Runner, t: nat, input: Input) returns (x: JobId)
    requires Inv(w) && r in w.replicas && t in w.replicas[r].tasks
    ensures Sound(w, r, t, TaskStep(w, r, w.replicas[r].tasks[t], input), x)
  {
    hide Inv, Sound, StartStep, SettleStep, KillStep, TeardownStep, MarkStep;
    var task := w.replicas[r].tasks[t];
    if task.Reading? || task.Claiming? || task.Claimed? || task.Producing? || task.Abandoning? {
      x := StartSound(w, r, t, task, input);
    } else if task.Collecting? || task.Settling? || task.Committing? || task.Announcing? {
      x := SettleSound(w, r, t, task, input);
    } else if task.KillCalled? || task.Killing? || task.Cancelling? || task.Requesting? {
      x := KillSound(w, r, t, task, input);
    } else if task.TearingDown? || task.TearingCancel? {
      x := TeardownSound(w, r, t, task, input);
    } else {
      x := MarkSound(w, r, t, task, input);
    }
  }

  // ---------------------------------------------------------------------------------------------
  // Every action keeps the invariant

  lemma ReplicaReplaced(w: World, r: Runner, rep: Replica)
    requires Inv(w) && r in w.replicas && ReplicaInv(w.table, w.issued, w.announced, r, rep)
    ensures Inv(w.(replicas := w.replicas[r := rep]))
  {
    hide LedgerInv, ReplicaInv;
  }

  lemma CallKeeps(w: World, r: Runner, t: nat, task: Task)
    requires Inv(w) && r in w.replicas && CallAccepted(w.replicas[r], task) && w.replicas[r].phase.Up?
    requires t !in w.replicas[r].tasks
    ensures Inv(Step(w, Call(r, t, task)))
  {
    hide LedgerInv, TaskStep, TakeoverStep, BootInv;
    var rep := w.replicas[r];
    var rep' := rep.(tasks := rep.tasks[t := task]);
    assert HandleInv(w.table, w.issued, r, rep.handles);
    assert TaskInv(w.table, w.issued, w.announced, r, rep.handles, task);
    assert ReplicaInv(w.table, w.issued, w.announced, r, rep');
    ReplicaReplaced(w, r, rep');
  }

  lemma WaitersKept(w: World, r: Runner, id: JobId, waiters: nat)
    requires Inv(w) && r in w.replicas && id in w.replicas[r].handles && w.replicas[r].handles[id].ready
    ensures Inv(WithHandle(w, r, id, w.replicas[r].handles[id].(waiters := waiters)))
  {
    hide LedgerInv, BootInv;
    var rep := w.replicas[r];
    var handles' := rep.handles[id := rep.handles[id].(waiters := waiters)];
    forall t <- rep.tasks
      ensures TaskInv(w.table, w.issued, w.announced, r, handles', rep.tasks[t])
    {
      assert TaskInv(w.table, w.issued, w.announced, r, rep.handles, rep.tasks[t]);
    }
    ReplicaReplaced(w, r, rep.(handles := handles'));
  }

  lemma BootKeeps(w: World, r: Runner, entries: seq<Record>)
    requires Inv(w) && r in w.replicas && w.replicas[r].phase.Down? && Lists(w.table, entries)
    ensures Inv(Step(w, Boot(r, entries)))
  {
    hide TaskStep, TakeoverStep, TaskInv;
    var rep' := Replica(Booting(ActiveOf(entries, r)), map[], map[], false);
    forall id <- w.table | w.table[id].runner == r && w.table[id].IsActive()
      ensures id in ActiveOf(entries, r)
    {
      var i :| 0 <= i < |entries| && entries[i] == w.table[id];
      assert entries[i].id == id;
    }
    ReplicaReplaced(w, r, rep');
  }

  lemma OthersKept(w: World, table': Table, r: Runner)
    requires Inv(w) && TableStep(w.table, table', w.issued, r)
    ensures forall other <- w.replicas :: other != r ==> ReplicaInv(table', w.issued, w.announced, other, w.replicas[other])
  {
    hide LedgerInv, ReplicaInv, TableStep;
    forall other <- w.replicas | other != r
      ensures ReplicaInv(table', w.issued, w.announced, other, w.replicas[other])
    {
      OtherReplicaKept(w.table, table', w.issued, w.issued, w.announced, w.announced, r, other, w.replicas[other]);
    }
  }

  lemma TakeoverKeeps(w: World, r: Runner, ok: bool, now: Time)
    requires Inv(w) && r in w.replicas && w.replicas[r].phase.Booting?
    ensures Inv(TakeoverStep(w, r, w.replicas[r], ok, now))
    ensures TableStep(w.table, TakeoverStep(w, r, w.replicas[r], ok, now).table, w.issued, r)
  {
    hide TaskInv, LedgerInv, HandleInv;
    var rep := w.replicas[r];
    var pending := rep.phase.pending;
    SameTable(w.table, w.issued, r);
    if pending == [] {
      ReplicaReplaced(w, r, rep.(phase := Up));
    } else if !ok || pending[0] !in w.table {
      ReplicaReplaced(w, r, Replica(Down, map[], map[], false));
    } else {
      assert Owned(w.table, r, pending[0]);
      TakeOneKeeps(w, r, now);
    }
  }

  lemma TakeOneKeeps(w: World, r: Runner, now: Time)
    requires Inv(w) && r in w.replicas && w.replicas[r].phase.Booting? && w.replicas[r].phase.pending != []
    requires Owned(w.table, r, w.replicas[r].phase.pending[0])
    ensures Inv(TakeoverStep(w, r, w.replicas[r], true, now))
    ensures TableStep(w.table, TakeoverStep(w, r, w.replicas[r], true, now).table, w.issued, r)
  {
    hide ReplicaInv, TableStep, LedgerInv;
    var pending := w.replicas[r].phase.pending;
    var id := pending[0];
    var table' := w.table[id := TakenOver(w.table[id], now)];
    OneRecordMoves(w.table, id, TakenOver(w.table[id], now), w.issued, r);
    OthersKept(w, table', r);
    BootedOneMore(w, r, now);
    LedgerAfter(w, id, TakenOver(w.table[id], now));
  }

  lemma BootedOneMore(w: World, r: Runner, now: Time)
    requires Inv(w) && r in w.replicas && w.replicas[r].phase.Booting? && w.replicas[r].phase.pending != []
    requires Owned(w.table, r, w.replicas[r].phase.pending[0])
    ensures var pending := w.replicas[r].phase.pending;
            var table' := w.table[pending[0] := TakenOver(w.table[pending[0]], now)];
            ReplicaInv(table', w.issued, w.announced, r, w.replicas[r].(phase := Booting(pending[1..])))
  {
    hide TaskInv, LedgerInv;
    var pending := w.replicas[r].phase.pending;
    assert pending == [pending[0]] + pending[1..];
  }

  lemma LedgerAfter(w: World, id: JobId, b: Record)
    requires Inv(w) && id in w.table && Later(w.table[id], b)
    ensures LedgerInv(w.table[id := b], w.issued, w.announced)
  {
    hide ReplicaInv;
  }

  lemma StepKeeps(w: World, a: Action)
    requires Inv(w)
    ensures Inv(Step(w, a))
  {
    hide Inv, TaskStep, TakeoverStep, CallAccepted, Lists;
    if a.r in w.replicas {
      var rep := w.replicas[a.r];
      match a {
        case Call(r, t, task) =>
          if rep.phase.Up? && t !in rep.tasks && CallAccepted(rep, task) {
            CallKeeps(w, r, t, task);
          }
        case Advance(r, t, input) =>
          if t in rep.tasks {
            var x := TaskStepSound(w, r, t, input);
            SoundStepKeeps(w, r, t, TaskStep(w, r, rep.tasks[t], input), x);
          }
        case WaitBegins(r, id) =>
          if id in rep.handles && rep.handles[id].ready {
            WaitersKept(w, r, id, rep.handles[id].waiters + 1);
          }
        case WaitEnds(r, id) =>
          if id in rep.handles && rep.handles[id].ready && rep.handles[id].waiters > 0 {
            WaitersKept(w, r, id, rep.handles[id].waiters - 1);
          }
        case CloseListeners(r) =>
          ReplicaHolds(w, r);
          ReplicaReplaced(w, r, rep.(listenersClosed := true));
        case Crash(r) =>
          ReplicaReplaced(w, r, Replica(Down, map[], map[], false));
        case Boot(r, entries) =>
          if rep.phase.Down? && Lists(w.table, entries) {
            BootKeeps(w, r, entries);
          }
        case Takeover(r, ok, now) =>
          if rep.phase.Booting? {
            TakeoverKeeps(w, r, ok, now);
          }
      }
    }
  }

  lemma ReplicaHolds(w: World, r: Runner)
    requires Inv(w) && r in w.replicas
    ensures ReplicaInv(w.table, w.issued, w.announced, r, w.replicas[r])
    ensures ReplicaInv(w.table, w.issued, w.announced, r, w.replicas[r].(listenersClosed := true))
  {
  }

  /** The invariant holds in every state any run of any length reaches. */
  lemma {:induction false} RunKeeps(w: World, actions: seq<Action>)
    requires Inv(w)
    ensures Inv(Run(w, actions))
    decreases |actions|
  {
    hide Inv;
    if actions != [] {
      StepKeeps(w, actions[0]);
      RunKeeps(Step(w, actions[0]), actions[1..]);
    }
  }

  lemma InitialInv(w: World)
    requires Initial(w)
    ensures Inv(w)
  {
  }
}
