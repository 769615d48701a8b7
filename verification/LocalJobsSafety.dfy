/**
  What no interleaving of the in-process registry's locked sections can break: a terminal status
  absorbs, settlement happens once, ids are never reused, and a waiter's claim reaches listeners.
*/
module LocalJobsSafety {
  import opened Outcomes
  import opened Decimals
  import opened JobTypes
  import opened LocalJobs

  // ---------------------------------------------------------------------------------------------
  // The invariant

  /** Settled exactly once, and exactly when terminal. */
  predicate JobInv(job: Job) {
    && job.closes == (if job.status.IsTerminal() then 1 else 0)
    && (job.finishedAt.Some? <==> job.status.IsTerminal())
  }

  /** Each job carries a number its kind's counter has passed. */
  ghost predicate Numbered(b: Books, job: Job) {
    exists n: nat :: 0 < n <= CounterOf(b, job.spec.kind) && job.id == JobIdOf(job.spec.kind, n)
  }

  ghost predicate IdsInv(b: Books) {
    && (forall i :: 0 <= i < |b.jobs| ==> Numbered(b, b.jobs[i]))
    && (forall i, j :: 0 <= i < j < |b.jobs| ==> b.jobs[i].id != b.jobs[j].id)
  }

  ghost predicate Increasing(order: seq<Ref>) {
    forall i, j :: 0 <= i < j < |order| ==> order[i] < order[j]
  }

  /** The map and the list hold the same jobs, the list in registration order. */
  ghost predicate IndexInv(b: Books) {
    && Increasing(b.order)
    && (forall ref <- b.order :: ref < |b.jobs| && b.jobs[ref].id in b.store && b.store[b.jobs[ref].id] == ref)
    && (forall id <- b.store :: b.store[id] in b.order && b.jobs[b.store[id]].id == id)
  }

  ghost predicate BooksInv(b: Books) {
    && (forall i :: 0 <= i < |b.jobs| ==> JobInv(b.jobs[i]))
    && IdsInv(b)
    && IndexInv(b)
  }

  ghost predicate HasHeard(heard: seq<(Ref, Snapshot)>, ref: Ref) {
    exists k :: 0 <= k < |heard| && heard[k].0 == ref
  }

  /** What a listener is told is the settled job, up to a later report. */
  predicate TellsOf(snapshot: Snapshot, job: Job) {
    && job.status.IsTerminal()
    && snapshot.id == job.id && snapshot.status == job.status && snapshot.detail == job.detail
    && snapshot.finishedAt == job.finishedAt && (snapshot.reported ==> job.reported)
  }

  ghost predicate TaskInv(b: Books, heard: seq<(Ref, Snapshot)>, task: Task) {
    && (Holds(task) ==> task.ref < |b.jobs|)
    && (task.Settling? ==> task.outcome.status.IsTerminal())
    && (task.Announcing? ==> TellsOf(task.snapshot, b.jobs[task.ref]) && !HasHeard(heard, task.ref))
  }

  predicate Compatible(a: Task, b: Task) {
    !(a.Announcing? && b.Announcing? && a.ref == b.ref)
  }

  ghost function WaitersOn(tasks: map<nat, Task>, ref: Ref): set<nat> {
    set t | t in tasks && tasks[t] == Waiting(ref)
  }

  ghost predicate WaitersInv(b: Books, tasks: map<nat, Task>) {
    forall ref: Ref :: ref < |b.jobs| ==> b.jobs[ref].waiters == |WaitersOn(tasks, ref)|
  }

  ghost predicate HeardInv(b: Books, heard: seq<(Ref, Snapshot)>) {
    && (forall i, j :: 0 <= i < j < |heard| ==> heard[i].0 != heard[j].0)
    && (forall k :: 0 <= k < |heard| ==> heard[k].0 < |b.jobs| && TellsOf(heard[k].1, b.jobs[heard[k].0]))
  }

  ghost predicate TasksInv(b: Books, tasks: map<nat, Task>, heard: seq<(Ref, Snapshot)>) {
    && (forall t <- tasks :: TaskInv(b, heard, tasks[t]))
    && (forall t, u | t in tasks && u in tasks && t != u :: Compatible(tasks[t], tasks[u]))
  }

  ghost predicate Inv(w: World) {
    && BooksInv(w.books)
    && TasksInv(w.books, w.tasks, w.heard)
    && WaitersInv(w.books, w.tasks)
    && HeardInv(w.books, w.heard)
  }

  // ---------------------------------------------------------------------------------------------
  // What one section may do to a job

  predicate Later(a: Job, b: Job) {
    && b.id == a.id && b.spec == a.spec && b.startedAt == a.startedAt
    && (a.reported ==> b.reported)
    && (b.status.Running? ==> a.status.Running?)
    && (a.status.IsTerminal() ==>
          b.status == a.status && b.detail == a.detail && b.output == a.output && b.finishedAt == a.finishedAt
          && b.closes == a.closes)
  }

  ghost predicate BooksLater(a: Books, b: Books) {
    && |a.jobs| <= |b.jobs|
    && (forall i :: 0 <= i < |a.jobs| ==> Later(a.jobs[i], b.jobs[i]))
    && (a.listenersClosed ==> b.listenersClosed)
  }

  /** Rewriting one job later than it was, without touching who waits, keeps the books. */
  lemma OneJobLater(b: Books, ref: Ref, job: Job)
    requires BooksInv(b) && ref < |b.jobs| && Later(b.jobs[ref], job) && JobInv(job)
    ensures BooksInv(WithJob(b, ref, job)) && BooksLater(b, WithJob(b, ref, job))
  {
    var b' := WithJob(b, ref, job);
    forall i | 0 <= i < |b'.jobs| ensures Numbered(b', b'.jobs[i]) {
      assert Numbered(b, b.jobs[i]);
    }
  }

  lemma RegisterKeepsIndex(b: Books, spec: JobSpec, now: Time)
    requires BooksInv(b)
    ensures IndexInv(RegisterSection(b, spec, now))
    ensures RegisterSection(b, spec, now).jobs[|b.jobs|].id !in b.store
  {
    hide JobInv, JobIdOf, IdsInv;
    var b' := RegisterSection(b, spec, now);
    var id := b'.jobs[|b.jobs|].id;
    NewIdIsNew(b, spec, now);
    forall other <- b.store ensures other != id {
      assert b.store[other] in b.order && b.jobs[b.store[other]].id == other;
    }
    forall i, j | 0 <= i < j < |b'.order| ensures b'.order[i] < b'.order[j] {
      assert b'.order[i] == b.order[i] && b.order[i] in b.order;
    }
    forall ref <- b'.order
      ensures ref < |b'.jobs| && b'.jobs[ref].id in b'.store && b'.store[b'.jobs[ref].id] == ref
    {
      if ref != |b.jobs| {
        assert ref in b.order && b'.jobs[ref] == b.jobs[ref];
      }
    }
    assert |b.jobs| in b'.order by {
      assert b'.order[|b.order|] == |b.jobs|;
    }
    forall id' <- b'.store ensures b'.store[id'] in b'.order && b'.jobs[b'.store[id']].id == id' {
      if id' != id {
        assert b.store[id'] in b.order && b.order <= b'.order;
      }
    }
  }

  /** The counter makes the next id different from every id ever given out, whatever kinds contain. */
  lemma NewIdIsNew(b: Books, spec: JobSpec, now: Time)
    requires IdsInv(b)
    ensures IdsInv(RegisterSection(b, spec, now))
    ensures forall i :: 0 <= i < |b.jobs| ==> b.jobs[i].id != RegisterSection(b, spec, now).jobs[|b.jobs|].id
  {
    hide JobIdOf;
    var b' := RegisterSection(b, spec, now);
    var n := CounterOf(b, spec.kind) + 1;
    forall i | 0 <= i < |b.jobs|
      ensures Numbered(b', b'.jobs[i]) && b.jobs[i].id != JobIdOf(spec.kind, n)
    {
      assert Numbered(b, b.jobs[i]);
      var m: nat :| 0 < m <= CounterOf(b, b.jobs[i].spec.kind) && b.jobs[i].id == JobIdOf(b.jobs[i].spec.kind, m);
      assert 0 < m <= CounterOf(b', b.jobs[i].spec.kind);
      if JobIdOf(b.jobs[i].spec.kind, m) == JobIdOf(spec.kind, n) {
        JobIdsDiffer(b.jobs[i].spec.kind, m, spec.kind, n);
      }
    }
    assert Numbered(b', b'.jobs[|b.jobs|]) by {
      assert CounterOf(b', spec.kind) == n;
    }
  }

  lemma {:induction false} WithoutIncreasing(order: seq<Ref>, dropped: seq<Ref>)
    requires Increasing(order)
    ensures Increasing(Without(order, dropped))
  {
    if order != [] {
      WithoutIncreasing(order[1..], dropped);
      var rest := Without(order[1..], dropped);
      forall i | 0 <= i < |rest| ensures rest[i] > order[0] {
        assert rest[i] in rest;
        var k :| 0 <= k < |order[1..]| && order[1..][k] == rest[i];
        assert order[k + 1] == rest[i];
      }
    }
  }

  lemma DropKeeps(b: Books, dropped: seq<Ref>)
    requires BooksInv(b)
    ensures BooksInv(DropSection(b, dropped)) && BooksLater(b, DropSection(b, dropped))
    ensures DropSection(b, dropped).jobs == b.jobs
  {
    var b' := DropSection(b, dropped);
    WithoutIncreasing(b.order, dropped);
    forall i | 0 <= i < |b'.jobs| ensures Numbered(b', b'.jobs[i]) {
      assert Numbered(b, b.jobs[i]);
    }
  }

  // ---------------------------------------------------------------------------------------------
  // Soundness of one section

  function WaitDelta(task: Task, ref: Ref): int {
    if task == Waiting(ref) then 1 else 0
  }

  function NextDelta(next: Option<Task>, ref: Ref): int {
    if next.Some? then WaitDelta(next.value, ref) else 0
  }

  /** The waiter count of every job moves with the task's own waiting. */
  ghost predicate CountsWaiters(b: Books, task: Task, m: Micro) {
    forall ref: Ref :: ref < |m.books.jobs| ==>
      m.books.jobs[ref].waiters
      == (if ref < |b.jobs| then b.jobs[ref].waiters else 0) + NextDelta(m.next, ref) - WaitDelta(task, ref)
  }

  ghost predicate AnnouncesOnce(w: World, t: nat, m: Micro)
    requires t in w.tasks
  {
    || m.heard == []
    || (exists ref, snapshot :: m.heard == [(ref, snapshot)] && w.tasks[t].Announcing? && w.tasks[t].ref == ref
          && m.next == None && ref < |m.books.jobs| && TellsOf(snapshot, m.books.jobs[ref]) && !HasHeard(w.heard, ref))
  }

  ghost predicate Sound(w: World, t: nat, m: Micro)
    requires t in w.tasks
  {
    && BooksInv(m.books) && BooksLater(w.books, m.books)
    && CountsWaiters(w.books, w.tasks[t], m)
    && AnnouncesOnce(w, t, m)
    && (m.next.Some? ==> TaskInv(m.books, w.heard, m.next.value))
    && (m.next.Some? ==> forall u <- w.tasks :: u != t ==> Compatible(m.next.value, w.tasks[u]))
  }

  ghost function Then(w: World, t: nat, m: Micro): World
    requires t in w.tasks
  {
    World(m.books, if m.next.Some? then w.tasks[t := m.next.value] else w.tasks - {t}, w.heard + m.heard)
  }

  lemma WaitersMove(tasks: map<nat, Task>, t: nat, next: Option<Task>, ref: Ref)
    requires t in tasks
    ensures var tasks' := if next.Some? then tasks[t := next.value] else tasks - {t};
            |WaitersOn(tasks', ref)| == |WaitersOn(tasks, ref)| + NextDelta(next, ref) - WaitDelta(tasks[t], ref)
  {
    var tasks' := if next.Some? then tasks[t := next.value] else tasks - {t};
    SameOthers(tasks, t, next, ref);
    hide WaitersOn;
    SizeWithout(WaitersOn(tasks, ref), t);
    SizeWithout(WaitersOn(tasks', ref), t);
  }

  lemma SameOthers(tasks: map<nat, Task>, t: nat, next: Option<Task>, ref: Ref)
    requires t in tasks
    ensures var tasks' := if next.Some? then tasks[t := next.value] else tasks - {t};
            && WaitersOn(tasks, ref) - {t} == WaitersOn(tasks', ref) - {t}
            && (t in WaitersOn(tasks, ref) <==> tasks[t] == Waiting(ref))
            && (t in WaitersOn(tasks', ref) <==> next == Some(Waiting(ref)))
  {
  }

  lemma SizeWithout(s: set<nat>, t: nat)
    ensures |s - {t}| == |s| - if t in s then 1 else 0
  {
    if t !in s {
      assert s - {t} == s;
    }
  }

  lemma WaitersKept(w: World, t: nat, m: Micro)
    requires Inv(w) && t in w.tasks && CountsWaiters(w.books, w.tasks[t], m) && BooksLater(w.books, m.books)
    ensures WaitersInv(m.books, Then(w, t, m).tasks)
  {
    hide BooksInv, HeardInv;
    forall ref: Ref | ref < |m.books.jobs|
      ensures m.books.jobs[ref].waiters == |WaitersOn(Then(w, t, m).tasks, ref)|
    {
      WaitersMove(w.tasks, t, m.next, ref);
    }
  }

  lemma SoundKeeps(w: World, t: nat, m: Micro)
    requires Inv(w) && t in w.tasks && Sound(w, t, m)
    ensures Inv(Then(w, t, m))
  {
    WaitersKept(w, t, m);
  }

  // ---------------------------------------------------------------------------------------------
  // Every section is sound

  lemma BooksUnchanged(b: Books)
    ensures BooksLater(b, b)
  {
  }

  /** A section that only moves its own task on, neither into nor out of a wait. */
  lemma QuietSound(w: World, t: nat, m: Micro)
    requires Inv(w) && t in w.tasks && m.books == w.books && m.heard == []
    requires !w.tasks[t].Waiting? && (m.next.Some? ==> !m.next.value.Waiting? && !m.next.value.Announcing?)
    requires m.next.Some? ==> TaskInv(w.books, w.heard, m.next.value)
    ensures Sound(w, t, m)
  {
    hide BooksInv, HeardInv, TasksInv, WaitersInv;
    BooksUnchanged(w.books);
  }

  /** A section that rewrites one job, later than it was. */
  lemma JobSound(w: World, t: nat, ref: Ref, job: Job, next: Option<Task>)
    requires Inv(w) && t in w.tasks && ref < |w.books.jobs|
    requires Later(w.books.jobs[ref], job) && JobInv(job)
    requires job.waiters == w.books.jobs[ref].waiters + NextDelta(next, ref) - WaitDelta(w.tasks[t], ref)
    requires w.tasks[t].Waiting? ==> w.tasks[t].ref == ref
    requires next.Some? && next.value.Waiting? ==> next.value.ref == ref
    requires next.Some? ==> TaskInv(WithJob(w.books, ref, job), w.heard, next.value)
    requires next.Some? ==> forall u <- w.tasks :: u != t ==> Compatible(next.value, w.tasks[u])
    ensures Sound(w, t, JobStep(w.books, ref, job, next))
  {
    hide BooksInv, HeardInv, TasksInv, WaitersInv, TaskInv, Later, JobInv;
    OneJobLater(w.books, ref, job);
  }

  lemma JobHolds(w: World, ref: Ref)
    requires Inv(w) && ref < |w.books.jobs|
    ensures JobInv(w.books.jobs[ref])
  {
  }

  lemma TaskHolds(w: World, t: nat)
    requires Inv(w) && t in w.tasks
    ensures TaskInv(w.books, w.heard, w.tasks[t])
  {
  }

  lemma RegisterSound(w: World, t: nat, input: Input)
    requires Inv(w) && t in w.tasks && w.tasks[t].Registering?
    ensures Sound(w, t, CallStep(w.books, w.tasks[t], input))
  {
    hide HeardInv, TasksInv, WaitersInv, IndexInv, IdsInv, CounterOf;
    if input.ok {
      var b' := RegisterSection(w.books, w.tasks[t].spec, input.now);
      RegisterKeepsIndex(w.books, w.tasks[t].spec, input.now);
      NewIdIsNew(w.books, w.tasks[t].spec, input.now);
      assert forall i :: 0 <= i < |w.books.jobs| ==> b'.jobs[i] == w.books.jobs[i];
    } else {
      QuietSound(w, t, Micro(w.books, None, []));
    }
  }

  /** Nobody is about to announce a job that is not settled, and nobody has heard of it. */
  lemma UnsettledIsUnheard(w: World, ref: Ref)
    requires Inv(w) && ref < |w.books.jobs| && !w.books.jobs[ref].status.IsTerminal()
    ensures !HasHeard(w.heard, ref)
    ensures forall u <- w.tasks :: !(w.tasks[u].Announcing? && w.tasks[u].ref == ref)
  {
    hide BooksInv, WaitersInv;
    forall u <- w.tasks ensures !(w.tasks[u].Announcing? && w.tasks[u].ref == ref) {
      assert TaskInv(w.books, w.heard, w.tasks[u]);
    }
  }

  lemma SettleSound(w: World, t: nat, input: Input)
    requires Inv(w) && t in w.tasks && w.tasks[t].Settling?
    ensures Sound(w, t, TaskStep(w.books, w.tasks[t], input))
  {
    hide BooksInv, HeardInv, TasksInv, WaitersInv;
    hide HasHeard;
    var task := w.tasks[t];
    TaskHolds(w, t);
    var job := w.books.jobs[task.ref];
    JobHolds(w, task.ref);
    if job.status.IsTerminal() {
      QuietSound(w, t, Micro(w.books, None, []));
    } else {
      UnsettledIsUnheard(w, task.ref);
      var settled := SettledJob(job, task.outcome, input.now);
      JobSound(w, t, task.ref, settled, Some(Announcing(task.ref, SnapshotOf(settled), w.books.listenersClosed)));
    }
  }

  lemma AnnounceSound(w: World, t: nat, input: Input)
    requires Inv(w) && t in w.tasks && w.tasks[t].Announcing?
    ensures Sound(w, t, TaskStep(w.books, w.tasks[t], input))
  {
    hide BooksInv, HeardInv, TasksInv, WaitersInv, HasHeard;
    TaskHolds(w, t);
    BooksUnchanged(w.books);
  }

  lemma QuietHoldingSound(w: World, t: nat, input: Input)
    requires Inv(w) && t in w.tasks && (w.tasks[t].Collecting? || w.tasks[t].Cancelling? || w.tasks[t].TearingCancel?)
    ensures Sound(w, t, TaskStep(w.books, w.tasks[t], input))
  {
    hide BooksInv, HeardInv, TasksInv, WaitersInv, Sound;
    TaskHolds(w, t);
    QuietSound(w, t, HoldingStep(w.books, w.tasks[t], input));
  }

  lemma TeardownSound(w: World, t: nat, input: Input)
    requires Inv(w) && t in w.tasks && (w.tasks[t].TearingDown? || w.tasks[t].TearingStop?)
    ensures Sound(w, t, TaskStep(w.books, w.tasks[t], input))
  {
    hide BooksInv, HeardInv, TasksInv, WaitersInv, Sound;
    var task := w.tasks[t];
    TaskHolds(w, t);
    var job := w.books.jobs[task.ref];
    JobHolds(w, task.ref);
    if task.TearingDown? {
      JobSound(w, t, task.ref, ClaimedByTeardown(job), if job.status.IsTerminal() then None else Some(TearingCancel(task.ref)));
    } else {
      JobSound(w, t, task.ref, StoppedJob(job), None);
    }
  }

  lemma HoldingSound(w: World, t: nat, input: Input)
    requires Inv(w) && t in w.tasks && Holds(w.tasks[t]) && !w.tasks[t].Settling? && !w.tasks[t].Announcing?
    ensures Sound(w, t, TaskStep(w.books, w.tasks[t], input))
  {
    hide BooksInv, HeardInv, TasksInv, WaitersInv, Sound;
    var task := w.tasks[t];
    if task.Collecting? || task.Cancelling? || task.TearingCancel? {
      QuietHoldingSound(w, t, input);
    } else if task.TearingDown? || task.TearingStop? {
      TeardownSound(w, t, input);
    } else {
      TaskHolds(w, t);
      var job := w.books.jobs[task.ref];
      JobHolds(w, task.ref);
      if task.Requesting? {
        JobSound(w, t, task.ref, KilledJob(job), None);
      } else if task.Waiting? {
        JobSound(w, t, task.ref, LeaveWait(job, !input.ok), None);
      } else {
        JobSound(w, t, task.ref, MarkIfTerminal(job), None);
      }
    }
  }

  lemma ReachingSound(w: World, t: nat, input: Input)
    requires Inv(w) && t in w.tasks && (w.tasks[t].KillCalled? || w.tasks[t].WaitCalled? || w.tasks[t].ReadCalled?)
    ensures Sound(w, t, TaskStep(w.books, w.tasks[t], input))
  {
    hide BooksInv, HeardInv, TasksInv, WaitersInv;
    var task := w.tasks[t];
    var found := Reach(w.books, task.id, task.session);
    if found.None? || (task.WaitCalled? && task.limit <= 0) {
      QuietSound(w, t, Micro(w.books, None, []));
    } else {
      var ref := found.value;
      var job := w.books.jobs[ref];
      JobHolds(w, ref);
      if task.ReadCalled? || (task.KillCalled? && job.status.IsTerminal()) {
        JobSound(w, t, ref, MarkIfTerminal(job), None);
      } else if task.WaitCalled? && !job.status.IsTerminal() {
        JobSound(w, t, ref, EnterWait(job), Some(Waiting(ref)));
      } else {
        QuietSound(w, t, CallStep(w.books, task, input));
      }
    }
  }

  lemma ListSound(w: World, t: nat, input: Input)
    requires Inv(w) && t in w.tasks
    requires w.tasks[t].DisposingOwned? || w.tasks[t].Dropping? || w.tasks[t].Disposing? || w.tasks[t].Clearing?
    ensures Sound(w, t, TaskStep(w.books, w.tasks[t], input))
  {
    hide HeardInv, TasksInv, WaitersInv, BooksInv, OwnedBy, DropSection, ClearSection, BooksLater;
    var task := w.tasks[t];
    if task.Dropping? {
      DropKeeps(w.books, task.refs);
    } else if task.DisposingOwned? {
      QuietSound(w, t, CallStep(w.books, task, input));
    } else if task.Disposing? {
      CloseKeeps(w.books);
    } else {
      ClearKeeps(w.books);
    }
  }

  lemma CloseKeeps(b: Books)
    requires BooksInv(b)
    ensures BooksInv(b.(listenersClosed := true)) && BooksLater(b, b.(listenersClosed := true))
  {
    hide JobInv, IndexInv;
    forall i | 0 <= i < |b.jobs| ensures Numbered(b.(listenersClosed := true), b.jobs[i]) {
      assert Numbered(b, b.jobs[i]);
    }
    assert IndexInv(b.(listenersClosed := true)) by { IndexIgnoresListeners(b); }
  }

  lemma IndexIgnoresListeners(b: Books)
    requires IndexInv(b)
    ensures IndexInv(b.(listenersClosed := true))
  {
  }

  lemma ClearKeeps(b: Books)
    requires BooksInv(b)
    ensures BooksInv(ClearSection(b)) && BooksLater(b, ClearSection(b))
    ensures ClearSection(b).jobs == b.jobs
  {
    hide JobInv;
    forall i | 0 <= i < |b.jobs| ensures Numbered(ClearSection(b), b.jobs[i]) {
      assert Numbered(b, b.jobs[i]);
    }
  }

  lemma AnyTaskSound(w: World, t: nat, input: Input)
    requires Inv(w) && t in w.tasks
    ensures Sound(w, t, TaskStep(w.books, w.tasks[t], input))
  {
    hide Inv, Sound, CallStep, HoldingStep;
    var task := w.tasks[t];
    if task.Settling? {
      SettleSound(w, t, input);
    } else if task.Announcing? {
      AnnounceSound(w, t, input);
    } else if Holds(task) {
      HoldingSound(w, t, input);
    } else if task.Registering? {
      RegisterSound(w, t, input);
    } else if task.KillCalled? || task.WaitCalled? || task.ReadCalled? {
      ReachingSound(w, t, input);
    } else {
      ListSound(w, t, input);
    }
  }

  lemma CallKeeps(w: World, t: nat, task: Task)
    requires Inv(w) && t !in w.tasks && CallAccepted(w.books, task)
    ensures Inv(w.(tasks := w.tasks[t := task]))
  {
    hide BooksInv, HeardInv;
    var tasks' := w.tasks[t := task];
    forall ref: Ref | ref < |w.books.jobs| ensures WaitersOn(tasks', ref) == WaitersOn(w.tasks, ref) {
    }
    assert TaskInv(w.books, w.heard, task);
  }

  lemma StepKeeps(w: World, a: Action)
    requires Inv(w)
    ensures Inv(Step(w, a)) && BooksLater(w.books, Step(w, a).books)
    ensures w.heard <= Step(w, a).heard
  {
    hide Inv, TaskStep, CallAccepted;
    BooksUnchanged(w.books);
    match a {
      case Call(t, task) =>
        if t !in w.tasks && CallAccepted(w.books, task) {
          CallKeeps(w, t, task);
        }
      case Advance(t, input) =>
        if t in w.tasks {
          AnyTaskSound(w, t, input);
          SoundKeeps(w, t, TaskStep(w.books, w.tasks[t], input));
        }
    }
  }

  lemma LaterTwice(a: Books, b: Books, c: Books)
    requires BooksLater(a, b) && BooksLater(b, c)
    ensures BooksLater(a, c)
  {
  }

  // ---------------------------------------------------------------------------------------------
  // Over whole runs

  /**
    From any state that satisfies the invariant, along any run: the invariant holds at the end,
    and every job became only later: same identity, final once terminal, reports never taken back.
  */
  lemma {:induction false} RunKeeps(w: World, actions: seq<Action>)
    requires Inv(w)
    ensures Inv(Run(w, actions)) && BooksLater(w.books, Run(w, actions).books)
    decreases |actions|
  {
    hide Inv, Step, BooksLater;
    BooksUnchanged(w.books);
    if actions != [] {
      StepKeeps(w, actions[0]);
      RunKeeps(Step(w, actions[0]), actions[1..]);
      LaterTwice(w.books, Step(w, actions[0]).books, Run(w, actions).books);
    }
  }
}
