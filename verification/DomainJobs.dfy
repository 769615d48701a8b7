/**
  The multi-replica job registry (adapter/domainjobs/registry.go) as a step system. Replicas share
  nothing but a table of records whose every key is read and written atomically; a call is a task
  that advances by one table operation or one locked section at a time, so every interleaving of
  calls, crashes and restarts is some sequence of actions.
*/
module DomainJobs {
  import opened Outcomes
  import opened Decimals
  import opened JobTypes

  type Runner = string

  const START_ATTEMPTS: nat := 8

  datatype JobSpec = JobSpec(kind: string, labelText: string, outputLimitBytes: int, ownerSession: string)

  datatype Record = Record(id: JobId, runner: Runner, spec: JobSpec, status: JobStatus, detail: string,
                           startedAt: Time, finishedAt: Option<Time>, reported: bool, output: string) {
    predicate IsActive() {
      status.Running? || status.Stopping?
    }
  }

  type Table = map<JobId, Record>

  // ---------------------------------------------------------------------------------------------
  // What each table operation writes

  function Claim(spec: JobSpec, runner: Runner, ordinal: nat, now: Time): Record {
    Record(JobIdOf(spec.kind, ordinal), runner, spec, Running, "", now, None, false, "")
  }

  function Settled(current: Record, outcome: Outcome, waiters: nat, now: Time): Record {
    if current.status.IsTerminal() then current
    else current.(status := outcome.status, detail := outcome.detail, output := outcome.output,
                  finishedAt := Some(now), reported := current.reported || waiters > 0)
  }

  function KillRequested(current: Record): Record {
    current.(status := if current.status.IsTerminal() then current.status else Stopping, reported := true)
  }

  function TornDown(current: Record): Record {
    if current.status.IsTerminal() then current else current.(status := Stopping, reported := true)
  }

  const ORPHANED_DETAIL := "cancel threw during teardown; work may be orphaned"
  const LOST_DETAIL := "runner restarted; job was lost with the previous process"

  function TakenOver(current: Record, now: Time): Record {
    if current.status.IsTerminal() then current
    else current.(status := Failed, detail := LOST_DETAIL, finishedAt := Some(now))
  }

  /** The highest ordinal any listed record carries for the kind; 0 when there is none. */
  function Highest(entries: seq<Record>, kind: string): nat {
    if entries == [] then 0
    else
      var before := Highest(entries[..|entries| - 1], kind);
      var last := Ordinal(entries[|entries| - 1], kind);
      if last > before then last else before
  }

  lemma {:induction false} HighestIsABound(entries: seq<Record>, kind: string, i: nat)
    requires i < |entries|
    ensures Ordinal(entries[i], kind) <= Highest(entries, kind)
  {
    hide Ordinal;
    if i < |entries| - 1 {
      HighestIsABound(entries[..|entries| - 1], kind, i);
    }
  }

  lemma {:induction false} HighestIsAttained(entries: seq<Record>, kind: string) returns (i: nat)
    requires Highest(entries, kind) > 0
    ensures i < |entries| && Ordinal(entries[i], kind) == Highest(entries, kind)
  {
    hide Ordinal;
    i := |entries| - 1;
    if Ordinal(entries[i], kind) < Highest(entries, kind) {
      i := HighestIsAttained(entries[..|entries| - 1], kind);
    }
  }

  function Ordinal(record: Record, kind: string): nat {
    var ordinal := OrdinalOf(record.id, kind);
    if ordinal.Some? && ordinal.value > 0 then ordinal.value else 0
  }

  function ActiveCount(entries: seq<Record>, ownerSession: string): nat {
    if entries == [] then 0
    else
      ActiveCount(entries[..|entries| - 1], ownerSession)
      + if entries[|entries| - 1].spec.ownerSession == ownerSession && entries[|entries| - 1].IsActive() then 1 else 0
  }

  // ---------------------------------------------------------------------------------------------
  // Replicas and their running calls

  datatype Handle = Handle(ready: bool, waiters: nat, settled: bool)

  datatype Task =
    // Start
    | Reading(spec: JobSpec, attempt: nat)
    | Claiming(record: Record, attempt: nat)
    | Claimed(id: JobId)
    | Producing(id: JobId)
    | Abandoning(id: JobId)
    // the collector and settle
    | Collecting(id: JobId)
    | Settling(id: JobId, outcome: Outcome)
    | Committing(id: JobId, outcome: Outcome, waiters: nat, closed: bool)
    | Announcing(id: JobId, closed: bool, committed: bool)
    // Kill
    | KillCalled(id: JobId, session: string)
    | Killing(id: JobId)
    | Cancelling(id: JobId)
    | Requesting(id: JobId)
    // cancelForTeardown, for one handle
    | TearingDown(id: JobId)
    | TearingCancel(id: JobId)
    // Read and finishWait
    | ReadCalled(id: JobId, session: string)
    | Marking(id: JobId)

  datatype Phase = Down | Booting(pending: seq<JobId>) | Up

  datatype Replica = Replica(phase: Phase, handles: map<JobId, Handle>, tasks: map<nat, Task>, listenersClosed: bool)

  /** The whole system, with the ids successful Starts returned and the ids announced as done. */
  datatype World = World(table: Table, replicas: map<Runner, Replica>, limit: nat,
                         issued: seq<JobId>, announced: seq<JobId>)

  /** What the environment answers to one step: storage, clock, listing, producer. */
  datatype Input = Input(ok: bool, now: Time, entries: seq<Record>, received: Option<Outcome>)

  /** One step of one task: the task that remains, and what the step changed. */
  datatype Micro = Micro(next: Option<Task>, table: Table, handles: map<JobId, Handle>,
                         issued: Option<JobId>, announced: Option<JobId>)

  /** Entries: every record once, in some order. */
  ghost predicate Lists(table: Table, entries: seq<Record>) {
    && (forall i, j :: 0 <= i < j < |entries| ==> entries[i].id != entries[j].id)
    && (forall id <- table :: table[id] in entries)
    && (forall i :: 0 <= i < |entries| ==> entries[i].id in table && table[entries[i].id] == entries[i])
  }

  predicate Reaches(record: Record, session: string) {
    record.spec.ownerSession == "" || record.spec.ownerSession == session
  }

  /** Start: claim, register the handle, run the producer, and either return the id or abandon. */
  ghost function StartStep(table: Table, handles: map<JobId, Handle>, runner: Runner, limit: nat, task: Task, input: Input)
    : Micro
    requires task.Reading? || task.Claiming? || task.Claimed? || task.Producing? || task.Abandoning?
  {
    match task
    case Reading(spec, attempt) =>
      if !input.ok || !Lists(table, input.entries) || attempt >= START_ATTEMPTS
         || ActiveCount(input.entries, spec.ownerSession) >= limit
      then Micro(None, table, handles, None, None)
      else
        var record := Claim(spec, runner, Highest(input.entries, spec.kind) + 1, input.now);
        Micro(Some(Claiming(record, attempt)), table, handles, None, None)
    case Claiming(record, attempt) =>
      if !input.ok then Micro(None, table, handles, None, None)
      else if record.id in table then Micro(Some(Reading(record.spec, attempt + 1)), table, handles, None, None)
      else Micro(Some(Claimed(record.id)), table[record.id := record], handles, None, None)
    case Claimed(id) =>
      Micro(Some(Producing(id)), table, handles[id := Handle(false, 0, false)], None, None)
    case Producing(id) =>
      if input.ok && id in handles then
        Micro(Some(Collecting(id)), table, handles[id := handles[id].(ready := true)], Some(id), None)
      else
        Micro(Some(Abandoning(id)), table, handles - {id}, None, None)
    case Abandoning(id) =>
      Micro(None, if input.ok then table - {id} else table, handles, None, None)
  }

  /** collect and settle: read the waiters, commit the outcome, release the waiters and announce. */
  ghost function SettleStep(table: Table, handles: map<JobId, Handle>, listenersClosed: bool, task: Task, input: Input)
    : Micro
    requires task.Collecting? || task.Settling? || task.Committing? || task.Announcing?
  {
    match task
    case Collecting(id) =>
      Micro(Some(Settling(id, Collected(input.received))), table, handles, None, None)
    case Settling(id, outcome) =>
      var waiters := if id in handles then handles[id].waiters else 0;
      Micro(Some(Committing(id, outcome, waiters, listenersClosed)), table, handles, None, None)
    case Committing(id, outcome, waiters, closed) =>
      if !input.ok || id !in table then
        Micro(Some(Announcing(id, closed, false)), table, handles, None, None)
      else
        Micro(Some(Announcing(id, closed, !table[id].status.IsTerminal())),
              table[id := Settled(table[id], outcome, waiters, input.now)], handles, None, None)
    case Announcing(id, closed, committed) =>
      Micro(None, table, if id in handles then handles[id := handles[id].(settled := true)] else handles, None,
            if committed && !closed then Some(id) else None)
  }

  /** Kill: reach the record, find the handle, cancel outside every lock, then record the request. */
  ghost function KillStep(table: Table, handles: map<JobId, Handle>, task: Task, input: Input): Micro
    requires task.KillCalled? || task.Killing? || task.Cancelling? || task.Requesting?
  {
    match task
    case KillCalled(id, session) =>
      if !input.ok || id !in table || !Reaches(table[id], session) then Micro(None, table, handles, None, None)
      else if table[id].status.IsTerminal() then Micro(Some(Marking(id)), table, handles, None, None)
      else Micro(Some(Killing(id)), table, handles, None, None)
    case Killing(id) =>
      if id in handles && handles[id].ready then Micro(Some(Cancelling(id)), table, handles, None, None)
      else Micro(None, table, handles, None, None)
    case Cancelling(id) =>
      Micro(if input.ok then Some(Requesting(id)) else None, table, handles, None, None)
    case Requesting(id) =>
      Micro(None, if input.ok && id in table then table[id := KillRequested(table[id])] else table, handles, None, None)
  }

  /** cancelForTeardown for one ready handle; a cancel that fails settles the job as failed. */
  ghost function TeardownStep(table: Table, handles: map<JobId, Handle>, task: Task, input: Input): Micro
    requires task.TearingDown? || task.TearingCancel?
  {
    match task
    case TearingDown(id) =>
      if !input.ok || id !in table then Micro(None, table, handles, None, None)
      else
        var stopped := TornDown(table[id]);
        Micro(if stopped.status.IsTerminal() then None else Some(TearingCancel(id)),
              table[id := stopped], handles, None, None)
    case TearingCancel(id) =>
      Micro(if input.ok then None
            else Some(Settling(id, Outcome(Failed, ORPHANED_DETAIL, ""))),
            table, handles, None, None)
  }

  /** Read, and markReported wherever it is used. */
  ghost function MarkStep(table: Table, handles: map<JobId, Handle>, task: Task, input: Input): Micro
    requires task.ReadCalled? || task.Marking?
  {
    match task
    case ReadCalled(id, session) =>
      if input.ok && id in table && Reaches(table[id], session) && table[id].status.IsTerminal() then
        Micro(Some(Marking(id)), table, handles, None, None)
      else
        Micro(None, table, handles, None, None)
    case Marking(id) =>
      Micro(None, if input.ok && id in table then table[id := table[id].(reported := true)] else table, handles, None, None)
  }

  ghost function TaskStep(w: World, r: Runner, task: Task, input: Input): Micro
    requires r in w.replicas
  {
    var handles := w.replicas[r].handles;
    if task.Reading? || task.Claiming? || task.Claimed? || task.Producing? || task.Abandoning? then
      StartStep(w.table, handles, r, w.limit, task, input)
    else if task.Collecting? || task.Settling? || task.Committing? || task.Announcing? then
      SettleStep(w.table, handles, w.replicas[r].listenersClosed, task, input)
    else if task.KillCalled? || task.Killing? || task.Cancelling? || task.Requesting? then
      KillStep(w.table, handles, task, input)
    else if task.TearingDown? || task.TearingCancel? then
      TeardownStep(w.table, handles, task, input)
    else
      MarkStep(w.table, handles, task, input)
  }

  // ---------------------------------------------------------------------------------------------
  // The step system

  datatype Action =
    | Call(r: Runner, t: nat, task: Task)
    | Advance(r: Runner, t: nat, input: Input)
    | WaitBegins(r: Runner, id: JobId)
    | WaitEnds(r: Runner, id: JobId)
    | CloseListeners(r: Runner)
    | Crash(r: Runner)
    | Boot(r: Runner, entries: seq<Record>)
    | Takeover(r: Runner, ok: bool, now: Time)

  /** The calls a replica accepts; teardown only picks handles that are ready. */
  predicate CallAccepted(rep: Replica, task: Task) {
    match task
    case Reading(spec, attempt) => attempt == 0 && spec.kind != "" && '-' !in spec.kind && spec.labelText != ""
                                   && spec.outputLimitBytes >= 0
    case KillCalled(_, _) => true
    case ReadCalled(_, _) => true
    case TearingDown(id) => id in rep.handles && rep.handles[id].ready
    case _ => false
  }

  function ActiveOf(entries: seq<Record>, r: Runner): (ids: seq<JobId>)
    ensures forall i :: 0 <= i < |entries| && entries[i].runner == r && entries[i].IsActive() ==> entries[i].id in ids
    ensures forall k :: 0 <= k < |ids| ==> exists i :: 0 <= i < |entries| && entries[i].id == ids[k] && entries[i].runner == r
  {
    if entries == [] then []
    else (if entries[0].runner == r && entries[0].IsActive() then [entries[0].id] else []) + ActiveOf(entries[1..], r)
  }

  ghost function Step(w: World, a: Action): World {
    if a.r !in w.replicas then w else
      var rep := w.replicas[a.r];
      match a
      case Call(r, t, task) =>
        if !rep.phase.Up? || t in rep.tasks || !CallAccepted(rep, task) then w
        else w.(replicas := w.replicas[r := rep.(tasks := rep.tasks[t := task])])
      case Advance(r, t, input) =>
        if t !in rep.tasks then w else After(w, r, t, TaskStep(w, r, rep.tasks[t], input))
      case WaitBegins(r, id) =>
        if id !in rep.handles || !rep.handles[id].ready then w
        else WithHandle(w, r, id, rep.handles[id].(waiters := rep.handles[id].waiters + 1))
      case WaitEnds(r, id) =>
        if id !in rep.handles || !rep.handles[id].ready || rep.handles[id].waiters == 0 then w
        else WithHandle(w, r, id, rep.handles[id].(waiters := rep.handles[id].waiters - 1))
      case CloseListeners(r) => w.(replicas := w.replicas[r := rep.(listenersClosed := true)])
      case Crash(r) => w.(replicas := w.replicas[r := Replica(Down, map[], map[], false)])
      case Boot(r, entries) =>
        if !rep.phase.Down? || !Lists(w.table, entries) then w
        else w.(replicas := w.replicas[r := Replica(Booting(ActiveOf(entries, r)), map[], map[], false)])
      case Takeover(r, ok, now) =>
        if !rep.phase.Booting? then w else TakeoverStep(w, r, rep, ok, now)
  }

  function WithHandle(w: World, r: Runner, id: JobId, handle: Handle): World
    requires r in w.replicas
  {
    w.(replicas := w.replicas[r := w.replicas[r].(handles := w.replicas[r].handles[id := handle])])
  }

  function TakeoverStep(w: World, r: Runner, rep: Replica, ok: bool, now: Time): World
    requires rep.phase.Booting?
  {
    var pending := rep.phase.pending;
    if pending == [] then w.(replicas := w.replicas[r := rep.(phase := Up)])
    else if !ok || pending[0] !in w.table then
      w.(replicas := w.replicas[r := Replica(Down, map[], map[], false)])
    else
      w.(table := w.table[pending[0] := TakenOver(w.table[pending[0]], now)],
         replicas := w.replicas[r := rep.(phase := Booting(pending[1..]))])
  }

  function After(w: World, r: Runner, t: nat, m: Micro): World
    requires r in w.replicas
  {
    var rep := w.replicas[r];
    var tasks := if m.next.Some? then rep.tasks[t := m.next.value] else rep.tasks - {t};
    World(m.table, w.replicas[r := rep.(handles := m.handles, tasks := tasks)], w.limit,
          w.issued + (if m.issued.Some? then [m.issued.value] else []),
          w.announced + (if m.announced.Some? then [m.announced.value] else []))
  }

  ghost function Run(w: World, actions: seq<Action>): World
    decreases |actions|
  {
    if actions == [] then w else Run(Step(w, actions[0]), actions[1..])
  }

  /** Every replica down, nothing recorded. */
  ghost predicate Initial(w: World) {
    && w.table == map[] && w.issued == [] && w.announced == []
    && forall r <- w.replicas :: w.replicas[r] == Replica(Down, map[], map[], false)
  }
}
