/**
  The in-process job registry (adapter/localjobs/registry.go) as a step system. Everything it
  shares sits under one mutex; a call is a task that runs one locked section at a time, with
  foreign code (cancel hooks, producers, listeners) running between its sections.
*/
module LocalJobs {
  import opened Outcomes
  import opened Decimals
  import opened JobTypes

  datatype JobSpec = JobSpec(kind: string, labelText: string, outputLimitBytes: int, owner: Option<string>)

  /** A tracked job; closes counts how often its settled channel has been closed. */
  datatype Job = Job(id: JobId, spec: JobSpec, status: JobStatus, detail: string, output: string,
                     startedAt: Time, finishedAt: Option<Time>, reported: bool, waiters: int, closes: nat) {
    predicate IsActive() {
      status.Running? || status.Stopping?
    }
  }

  datatype Snapshot = Snapshot(id: JobId, status: JobStatus, detail: string, finishedAt: Option<Time>, reported: bool)

  function SnapshotOf(job: Job): Snapshot {
    Snapshot(job.id, job.status, job.detail, job.finishedAt, job.reported)
  }

  /** A job is referred to by the position it was allocated at; dropping it does not reuse the position. */
  type Ref = nat

  /** What the mutex protects, plus every job ever allocated. */
  datatype Books = Books(jobs: seq<Job>, store: map<JobId, Ref>, order: seq<Ref>, counters: map<string, nat>,
                         listenersClosed: bool)

  // ---------------------------------------------------------------------------------------------
  // Locked sections

  function NewJob(id: JobId, spec: JobSpec, now: Time): Job {
    Job(id, spec, Running, "", "", now, None, false, 0, 0)
  }

  function CounterOf(b: Books, kind: string): nat {
    if kind in b.counters then b.counters[kind] else 0
  }

  function RegisterSection(b: Books, spec: JobSpec, now: Time): Books {
    var n := CounterOf(b, spec.kind) + 1;
    var job := NewJob(JobIdOf(spec.kind, n), spec, now);
    b.(jobs := b.jobs + [job], store := b.store[job.id := |b.jobs|], order := b.order + [|b.jobs|],
       counters := b.counters[spec.kind := n])
  }

  function SettledJob(job: Job, outcome: Outcome, now: Time): Job {
    if job.status.IsTerminal() then job
    else job.(status := outcome.status, detail := outcome.detail, output := outcome.output,
              finishedAt := Some(now), reported := job.reported || job.waiters > 0, closes := job.closes + 1)
  }

  function MarkIfTerminal(job: Job): Job {
    if job.status.IsTerminal() then job.(reported := true) else job
  }

  function KilledJob(job: Job): Job {
    job.(status := if job.status.IsTerminal() then job.status else Stopping, reported := true)
  }

  function ClaimedByTeardown(job: Job): Job {
    if job.status.IsTerminal() then job else job.(reported := true)
  }

  function StoppedJob(job: Job): Job {
    if job.status.IsTerminal() then job else job.(status := Stopping)
  }

  function EnterWait(job: Job): Job {
    if job.status.IsTerminal() then job else job.(waiters := job.waiters + 1)
  }

  /** The section after the wait; aborted is a caller's own cancellation. */
  function LeaveWait(job: Job, aborted: bool): Job {
    var left := job.(waiters := job.waiters - 1);
    if aborted && !job.status.IsTerminal() then left else MarkIfTerminal(left)
  }

  function WithJob(b: Books, ref: Ref, job: Job): Books
    requires ref < |b.jobs|
  {
    b.(jobs := b.jobs[ref := job])
  }

  function Without(order: seq<Ref>, dropped: seq<Ref>): (kept: seq<Ref>)
    ensures forall ref <- kept :: ref in order && ref !in dropped
    ensures forall ref <- order :: ref in dropped || ref in kept
  {
    if order == [] then []
    else (if order[0] in dropped then [] else [order[0]]) + Without(order[1..], dropped)
  }

  function DropSection(b: Books, dropped: seq<Ref>): Books {
    b.(store := map id | id in b.store && b.store[id] !in dropped :: b.store[id], order := Without(b.order, dropped))
  }

  function ClearSection(b: Books): Books {
    b.(store := map[], order := [])
  }

  /** reachLocked; None is any refusal. */
  function Reach(b: Books, id: JobId, session: string): Option<Ref> {
    if id !in b.store || b.store[id] >= |b.jobs| then None
    else
      var owner := b.jobs[b.store[id]].spec.owner;
      if owner.None? || owner.value == session then Some(b.store[id]) else None
  }

  /** The jobs of one exact owner, in registration order. */
  function OwnedBy(b: Books, order: seq<Ref>, owner: Option<string>): seq<Ref> {
    if order == [] then []
    else
      (if order[0] < |b.jobs| && b.jobs[order[0]].spec.owner == owner then [order[0]] else [])
      + OwnedBy(b, order[1..], owner)
  }

  // ---------------------------------------------------------------------------------------------
  // Tasks

  datatype Task =
    | Registering(spec: JobSpec)
    | Collecting(ref: Ref)
    | Settling(ref: Ref, outcome: Outcome)
    | Announcing(ref: Ref, snapshot: Snapshot, closed: bool)
    | KillCalled(id: JobId, session: string)
    | Cancelling(ref: Ref)
    | Requesting(ref: Ref)
    | WaitCalled(id: JobId, session: string, limit: int)
    | Waiting(ref: Ref)
    | WaitOver(ref: Ref)
    | ReadCalled(id: JobId, session: string)
    | TearingDown(ref: Ref)
    | TearingCancel(ref: Ref)
    | TearingStop(ref: Ref)
    | DisposingOwned(owner: Option<string>)
    | Dropping(refs: seq<Ref>)
    | Disposing
    | Clearing

  /** Everything a run can see: the books, the calls in flight, and what done listeners have heard. */
  datatype World = World(books: Books, tasks: map<nat, Task>, heard: seq<(Ref, Snapshot)>)

  /** ok is what the foreign code before the section answered; received is the producer's outcome. */
  datatype Input = Input(ok: bool, now: Time, received: Option<Outcome>)

  datatype Micro = Micro(books: Books, next: Option<Task>, heard: seq<(Ref, Snapshot)>)

  function JobStep(b: Books, ref: Ref, job: Job, next: Option<Task>): Micro
    requires ref < |b.jobs|
  {
    Micro(WithJob(b, ref, job), next, [])
  }

  /** Tasks that carry a reference to a job they hold on to, whatever the store says. */
  predicate Holds(task: Task) {
    || task.Collecting? || task.Settling? || task.Announcing? || task.Cancelling? || task.Requesting?
    || task.Waiting? || task.WaitOver? || task.TearingDown? || task.TearingCancel? || task.TearingStop?
  }

  function HoldingStep(b: Books, task: Task, input: Input): Micro
    requires Holds(task) && task.ref < |b.jobs|
  {
    var ref := task.ref;
    var job := b.jobs[ref];
    match task
    case Collecting(_) => Micro(b, Some(Settling(ref, Collected(input.received))), [])
    case Settling(_, outcome) =>
      if job.status.IsTerminal() then Micro(b, None, [])
      else
        var settled := SettledJob(job, outcome, input.now);
        JobStep(b, ref, settled, Some(Announcing(ref, SnapshotOf(settled), b.listenersClosed)))
    case Announcing(_, snapshot, closed) => Micro(b, None, if closed then [] else [(ref, snapshot)])
    case Cancelling(_) => Micro(b, if input.ok then Some(Requesting(ref)) else None, [])
    case Requesting(_) => JobStep(b, ref, KilledJob(job), None)
    case Waiting(_) => JobStep(b, ref, LeaveWait(job, !input.ok), None)
    case WaitOver(_) => JobStep(b, ref, MarkIfTerminal(job), None)
    case TearingDown(_) =>
      JobStep(b, ref, ClaimedByTeardown(job), if job.status.IsTerminal() then None else Some(TearingCancel(ref)))
    case TearingCancel(_) =>
      Micro(b, Some(if input.ok then TearingStop(ref)
                    else Settling(ref, Outcome(Failed, "cancel threw during teardown; work may be orphaned", ""))), [])
    case TearingStop(_) => JobStep(b, ref, StoppedJob(job), None)
  }

  function CallStep(b: Books, task: Task, input: Input): Micro
    requires !Holds(task)
  {
    match task
    case Registering(spec) =>
      if input.ok then Micro(RegisterSection(b, spec, input.now), Some(Collecting(|b.jobs|)), []) else Micro(b, None, [])
    case KillCalled(id, session) =>
      var found := Reach(b, id, session);
      if found.None? then Micro(b, None, [])
      else if b.jobs[found.value].status.IsTerminal() then
        JobStep(b, found.value, MarkIfTerminal(b.jobs[found.value]), None)
      else Micro(b, Some(Cancelling(found.value)), [])
    case WaitCalled(id, session, limit) =>
      var found := Reach(b, id, session);
      if found.None? || limit <= 0 then Micro(b, None, [])
      else if b.jobs[found.value].status.IsTerminal() then Micro(b, Some(WaitOver(found.value)), [])
      else JobStep(b, found.value, EnterWait(b.jobs[found.value]), Some(Waiting(found.value)))
    case ReadCalled(id, session) =>
      var found := Reach(b, id, session);
      if found.None? then Micro(b, None, [])
      else JobStep(b, found.value, MarkIfTerminal(b.jobs[found.value]), None)
    case DisposingOwned(owner) =>
      var owned := OwnedBy(b, b.order, owner);
      Micro(b, if owned == [] then None else Some(Dropping(owned)), [])
    case Dropping(refs) => Micro(DropSection(b, refs), None, [])
    case Disposing => Micro(b.(listenersClosed := true), Some(Clearing), [])
    case Clearing => Micro(ClearSection(b), None, [])
    case _ => Micro(b, None, [])
  }

  function TaskStep(b: Books, task: Task, input: Input): Micro {
    if !Holds(task) then CallStep(b, task, input)
    else if task.ref < |b.jobs| then HoldingStep(b, task, input)
    else Micro(b, None, [])
  }

  datatype Action = Call(t: nat, task: Task) | Advance(t: nat, input: Input)

  /** What may begin at any time; a teardown may pick any job there is. */
  predicate CallAccepted(b: Books, task: Task) {
    match task
    case Registering(spec) => spec.kind != "" && spec.labelText != "" && spec.outputLimitBytes >= 0
    case KillCalled(_, _) => true
    case WaitCalled(_, _, _) => true
    case ReadCalled(_, _) => true
    case TearingDown(ref) => ref < |b.jobs|
    case DisposingOwned(_) => true
    case Disposing => true
    case _ => false
  }

  function Step(w: World, a: Action): World {
    match a
    case Call(t, task) =>
      if t in w.tasks || !CallAccepted(w.books, task) then w else w.(tasks := w.tasks[t := task])
    case Advance(t, input) =>
      if t !in w.tasks then w
      else
        var m := TaskStep(w.books, w.tasks[t], input);
        World(m.books, if m.next.Some? then w.tasks[t := m.next.value] else w.tasks - {t}, w.heard + m.heard)
  }

  function Run(w: World, actions: seq<Action>): World
    decreases |actions|
  {
    if actions == [] then w else Run(Step(w, actions[0]), actions[1..])
  }

  const INITIAL := World(Books([], map[], [], map[], false), map[], [])
}
