/**
  What calls of the in-process registry bring about once they get their sections, whatever other calls
  and foreign code do in between (adapter/localjobs/registry.go).
*/
module LocalJobsProgress {
  import opened Outcomes
  import opened Decimals
  import opened JobTypes
  import opened LocalJobs
  import opened LocalJobsSafety
  import opened LocalJobsTheorems

  predicate At(w: World, t: nat, task: Task) {
    t in w.tasks && w.tasks[t] == task
  }

  /** Anything may happen but a section of this call. */
  predicate LeavesAlone(actions: seq<Action>, t: nat) {
    forall i :: 0 <= i < |actions| ==> !(actions[i].Advance? && actions[i].t == t)
  }

  lemma TaskStays(w: World, a: Action, t: nat)
    requires t in w.tasks && !(a.Advance? && a.t == t)
    ensures At(Step(w, a), t, w.tasks[t])
  {
    hide TaskStep;
  }

  /** A call keeps its place until its next section. */
  lemma {:induction false} TaskWaits(w: World, actions: seq<Action>, t: nat)
    requires Inv(w) && t in w.tasks && LeavesAlone(actions, t)
    ensures Inv(Run(w, actions)) && At(Run(w, actions), t, w.tasks[t])
    decreases |actions|
  {
    hide Inv, Step;
    if actions != [] {
      StepKeeps(w, actions[0]);
      TaskStays(w, actions[0], t);
      TaskWaits(Step(w, actions[0]), actions[1..], t);
    }
  }

  /** Calls begin at any time, and only with their first section; a Start only with a declaration that passes the checks. */
  lemma CallBegins(w: World, t: nat, task: Task)
    requires t !in w.tasks
    ensures At(Step(w, Call(t, task)), t, task) <==>
      || task.KillCalled? || task.WaitCalled? || task.ReadCalled? || task.DisposingOwned? || task.Disposing?
      || (task.Registering? && task.spec.kind != "" && task.spec.labelText != "" && task.spec.outputLimitBytes >= 0)
      || (task.TearingDown? && task.ref < |w.books.jobs|)
    ensures Step(w, Call(t, task)).books == w.books && Step(w, Call(t, task)).heard == w.heard
  {
  }

  /** One section of the call after anything else happened. */
  function Onward(w: World, between: seq<Action>, t: nat, input: Input): World {
    Step(Run(w, between), Advance(t, input))
  }

  lemma OnwardKeeps(w: World, between: seq<Action>, t: nat, input: Input)
    requires Inv(w) && t in w.tasks && LeavesAlone(between, t)
    ensures Inv(Run(w, between)) && At(Run(w, between), t, w.tasks[t]) && Inv(Onward(w, between, t, input))
  {
    hide Inv, Step;
    TaskWaits(w, between, t);
    StepKeeps(Run(w, between), Advance(t, input));
  }

  lemma RefInside(w: World, t: nat)
    requires Inv(w) && t in w.tasks && LocalJobs.Holds(w.tasks[t])
    ensures w.tasks[t].ref < |w.books.jobs|
  {
    TaskHolds(w, t);
  }

  /** The books with one job changed. */
  predicate OnlyJob(was: Books, now: Books, ref: Ref, job: Job) {
    ref < |was.jobs| && now == was.(jobs := was.jobs[ref := job])
  }

  // ---- Settling ----

  lemma CollectStep(w: World, t: nat, ref: Ref, input: Input)
    requires At(w, t, Collecting(ref)) && ref < |w.books.jobs|
    ensures var next := Step(w, Advance(t, input)); next.books == w.books && At(next, t, Settling(ref, Collected(input.received)))
  {
  }

  lemma SettleStep(w: World, t: nat, ref: Ref, outcome: Outcome, input: Input)
    requires At(w, t, Settling(ref, outcome)) && ref < |w.books.jobs|
    ensures var next, job := Step(w, Advance(t, input)), w.books.jobs[ref];
            && next.heard == w.heard
            && (job.status in ENDED ==> next.books == w.books && t !in next.tasks)
            && (job.status !in ENDED ==>
                  && OnlyJob(w.books, next.books, ref,
                             job.(status := outcome.status, detail := outcome.detail, output := outcome.output,
                                  finishedAt := Some(input.now), reported := job.reported || job.waiters >= 1,
                                  closes := job.closes + 1))
                  && At(next, t, Announcing(ref, Snapshot(job.id, outcome.status, outcome.detail, Some(input.now),
                                                          job.reported || job.waiters >= 1), w.books.listenersClosed)))
  {
  }

  lemma AnnounceStep(w: World, t: nat, ref: Ref, snapshot: Snapshot, closed: bool, input: Input)
    requires At(w, t, Announcing(ref, snapshot, closed)) && ref < |w.books.jobs|
    ensures var next := Step(w, Advance(t, input));
            next.books == w.books && t !in next.tasks && next.heard == w.heard + (if closed then [] else [(ref, snapshot)])
  {
  }

  /**
    The first settlement of a job is heard, with the outcome and the report it settled with, unless
    listeners were closed by then; whatever happens between its sections.
  */
  lemma SettlementIsHeard(w: World, a: seq<Action>, settle: Input, b: seq<Action>, announce: Input, t: nat, ref: Ref, outcome: Outcome)
    requires Inv(w) && At(w, t, Settling(ref, outcome)) && LeavesAlone(a, t) && LeavesAlone(b, t)
    requires ref < |Run(w, a).books.jobs| && Run(w, a).books.jobs[ref].status !in ENDED
    ensures var at := Run(w, a);
            var before := Run(Onward(w, a, t, settle), b);
            var end := Step(before, Advance(t, announce));
            var job := at.books.jobs[ref];
            && end.heard == before.heard + (if at.books.listenersClosed then [] else
                 [(ref, Snapshot(job.id, outcome.status, outcome.detail, Some(settle.now), job.reported || job.waiters >= 1))])
            && ref < |end.books.jobs| && end.books.jobs[ref].status == outcome.status
            && end.books.jobs[ref].detail == outcome.detail && end.books.jobs[ref].output == outcome.output
  {
    hide Inv, Step, Run;
    OnwardKeeps(w, a, t, settle);
    SettleStep(Run(w, a), t, ref, outcome, settle);
    var s1 := Onward(w, a, t, settle);
    OutcomeEnds(Run(w, a), t);
    TerminalAbsorbs(s1, b, ref);
    OnwardKeeps(s1, b, t, announce);
    var task := s1.tasks[t];
    AnnounceStep(Run(s1, b), t, ref, task.snapshot, task.closed, announce);
  }

  lemma OutcomeEnds(w: World, t: nat)
    requires Inv(w) && t in w.tasks && w.tasks[t].Settling?
    ensures w.tasks[t].outcome.status in ENDED
  {
    TaskHolds(w, t);
  }

  // ---- Killing ----

  /** The section of a call, as the step sees it. */
  lemma CallAdvances(w: World, t: nat, task: Task, input: Input)
    requires At(w, t, task) && !LocalJobs.Holds(task)
    ensures var m, next := CallStep(w.books, task, input), Step(w, Advance(t, input));
            && next.books == m.books && next.heard == w.heard + m.heard
            && (m.next.Some? ==> At(next, t, m.next.value)) && (m.next.None? ==> t !in next.tasks)
  {
    hide CallStep, HoldingStep;
  }

  lemma Found(w: World, id: JobId, session: string, k: nat)
    requires Inv(w) && ListedFor(w.books, k, id, session)
    ensures k < |w.books.order| && w.books.order[k] < |w.books.jobs| && Reach(w.books, id, session) == Some(w.books.order[k])
  {
    hide Inv, Reach;
    ReachIsExact(w, id, session);
  }

  /** A kill reaches the job the caller's own list shows under the id: an ended one it marks, a live one it goes on to cancel. */
  lemma KillLooks(w: World, t: nat, id: JobId, session: string, k: nat, input: Input)
    requires Inv(w) && At(w, t, KillCalled(id, session)) && ListedFor(w.books, k, id, session)
    ensures var next, ref := Step(w, Advance(t, input)), w.books.order[k];
            var job := w.books.jobs[ref];
            && (job.status in ENDED ==> OnlyJob(w.books, next.books, ref, job.(reported := true)) && t !in next.tasks)
            && (job.status !in ENDED ==> next.books == w.books && At(next, t, Cancelling(ref)))
  {
    hide Inv, Reach, ListedFor, Step, OwnedBy, DropSection, RegisterSection;
    Found(w, id, session, k);
    CallAdvances(w, t, KillCalled(id, session), input);
  }

  /** A kill of what the caller cannot see leaves no trace. */
  lemma KillRefused(w: World, t: nat, id: JobId, session: string, input: Input)
    requires Inv(w) && At(w, t, KillCalled(id, session)) && forall k: nat :: !ListedFor(w.books, k, id, session)
    ensures var next := Step(w, Advance(t, input)); next.books == w.books && t !in next.tasks && next.heard == w.heard
  {
    hide Inv, Reach;
    ReachIsExact(w, id, session);
  }

  lemma CancellingStep(w: World, t: nat, ref: Ref, input: Input)
    requires At(w, t, Cancelling(ref)) && ref < |w.books.jobs|
    ensures var next := Step(w, Advance(t, input));
            next.books == w.books && if input.ok then At(next, t, Requesting(ref)) else t !in next.tasks
  {
  }

  lemma RequestingStep(w: World, t: nat, ref: Ref, input: Input)
    requires At(w, t, Requesting(ref)) && ref < |w.books.jobs|
    ensures var next, job := Step(w, Advance(t, input)), w.books.jobs[ref];
            t !in next.tasks &&
            OnlyJob(w.books, next.books, ref, job.(status := if job.status in ENDED then job.status else Stopping, reported := true))
  {
  }

  /** A kill whose producer cancels leaves the job reported, and stopping unless it ended in the meantime. */
  lemma KillRequestsTheStop(w: World, a: seq<Action>, cancel: Input, b: seq<Action>, request: Input, t: nat, ref: Ref)
    requires Inv(w) && At(w, t, Cancelling(ref)) && cancel.ok && LeavesAlone(a, t) && LeavesAlone(b, t)
    ensures var before := Run(Onward(w, a, t, cancel), b);
            var end := Step(before, Advance(t, request));
            && ref < |before.books.jobs| && ref < |end.books.jobs| && end.books.jobs[ref].reported
            && end.books.jobs[ref].status ==
               (if before.books.jobs[ref].status in ENDED then before.books.jobs[ref].status else Stopping)
  {
    hide Inv, Step, Run;
    OnwardKeeps(w, a, t, cancel);
    RefInside(Run(w, a), t);
    CancellingStep(Run(w, a), t, ref, cancel);
    var s1 := Onward(w, a, t, cancel);
    OnwardKeeps(s1, b, t, request);
    RefInside(Run(s1, b), t);
    RequestingStep(Run(s1, b), t, ref, request);
  }

  // ---- Waiting and reading ----

  lemma WaitLooks(w: World, t: nat, id: JobId, session: string, limit: int, k: nat, input: Input)
    requires Inv(w) && At(w, t, WaitCalled(id, session, limit)) && ListedFor(w.books, k, id, session) && limit > 0
    ensures var next, ref := Step(w, Advance(t, input)), w.books.order[k];
            var job := w.books.jobs[ref];
            && (job.status in ENDED ==> next.books == w.books && At(next, t, WaitOver(ref)))
            && (job.status !in ENDED ==>
                  OnlyJob(w.books, next.books, ref, job.(waiters := job.waiters + 1)) && At(next, t, Waiting(ref)))
  {
    hide Inv, Reach, ListedFor, Step, OwnedBy, DropSection, RegisterSection;
    Found(w, id, session, k);
    CallAdvances(w, t, WaitCalled(id, session, limit), input);
  }

  /** The end of a wait takes the waiter away and, if the job has ended, claims its report; a cancelled wait too. */
  lemma WaitEnds(w: World, a: seq<Action>, input: Input, t: nat, ref: Ref)
    requires Inv(w) && (At(w, t, Waiting(ref)) || At(w, t, WaitOver(ref))) && LeavesAlone(a, t)
    ensures var before, end := Run(w, a), Onward(w, a, t, input);
            && ref < |before.books.jobs| && t !in end.tasks
            && var job := before.books.jobs[ref];
            OnlyJob(before.books, end.books, ref,
                    job.(waiters := if w.tasks[t].Waiting? then job.waiters - 1 else job.waiters,
                         reported := job.reported || job.status in ENDED))
  {
    hide Inv, Step, Run;
    OnwardKeeps(w, a, t, input);
    RefInside(Run(w, a), t);
    WaitingStep(Run(w, a), t, ref, input);
  }

  lemma WaitingStep(w: World, t: nat, ref: Ref, input: Input)
    requires (At(w, t, Waiting(ref)) || At(w, t, WaitOver(ref))) && ref < |w.books.jobs|
    ensures var next, job := Step(w, Advance(t, input)), w.books.jobs[ref];
            && t !in next.tasks
            && OnlyJob(w.books, next.books, ref,
                       job.(waiters := if w.tasks[t].Waiting? then job.waiters - 1 else job.waiters,
                            reported := job.reported || job.status in ENDED))
  {
  }

  lemma ReadLooks(w: World, t: nat, id: JobId, session: string, k: nat, input: Input)
    requires Inv(w) && At(w, t, ReadCalled(id, session)) && ListedFor(w.books, k, id, session)
    ensures var next, ref := Step(w, Advance(t, input)), w.books.order[k];
            var job := w.books.jobs[ref];
            t !in next.tasks && OnlyJob(w.books, next.books, ref, job.(reported := job.reported || job.status in ENDED))
  {
    hide Inv, Reach, ListedFor, Step, OwnedBy, DropSection, RegisterSection;
    Found(w, id, session, k);
    CallAdvances(w, t, ReadCalled(id, session), input);
  }

  // ---- Tearing down ----

  lemma TearingDownStep(w: World, t: nat, ref: Ref, input: Input)
    requires At(w, t, TearingDown(ref)) && ref < |w.books.jobs|
    ensures var next, job := Step(w, Advance(t, input)), w.books.jobs[ref];
            && (job.status in ENDED ==> OnlyJob(w.books, next.books, ref, job) && t !in next.tasks)
            && (job.status !in ENDED ==>
                  OnlyJob(w.books, next.books, ref, job.(reported := true)) && At(next, t, TearingCancel(ref)))
  {
  }

  lemma TearingCancelStep(w: World, t: nat, ref: Ref, input: Input)
    requires At(w, t, TearingCancel(ref)) && ref < |w.books.jobs|
    ensures var next := Step(w, Advance(t, input));
            && next.books == w.books
            && At(next, t, if input.ok then TearingStop(ref)
                           else Settling(ref, Outcome(Failed, "cancel threw during teardown; work may be orphaned", "")))
  {
  }

  lemma TearingStopStep(w: World, t: nat, ref: Ref, input: Input)
    requires At(w, t, TearingStop(ref)) && ref < |w.books.jobs|
    ensures var next, job := Step(w, Advance(t, input)), w.books.jobs[ref];
            t !in next.tasks &&
            OnlyJob(w.books, next.books, ref, job.(status := if job.status in ENDED then job.status else Stopping))
  {
  }

  /**
    Teardown of a live job, whatever happens between its sections: a cancel that works leaves it stopping,
    one that fails leaves it failed as possibly orphaned, and either way what ended by itself stays.
  */
  lemma TeardownEnds(w: World, a: seq<Action>, cancel: Input, b: seq<Action>, last: Input, t: nat, ref: Ref)
    requires Inv(w) && At(w, t, TearingCancel(ref)) && LeavesAlone(a, t) && LeavesAlone(b, t)
    ensures var before := Run(Onward(w, a, t, cancel), b);
            var end := Step(before, Advance(t, last));
            && ref < |before.books.jobs| && ref < |end.books.jobs|
            && var was, now := before.books.jobs[ref], end.books.jobs[ref];
            && (was.status in ENDED ==> now == was)
            && (was.status !in ENDED && cancel.ok ==> now == was.(status := Stopping))
            && (was.status !in ENDED && !cancel.ok ==>
                  now.status == Failed && now.detail == "cancel threw during teardown; work may be orphaned" && now.output == ""
                  && now.finishedAt == Some(last.now))
  {
    hide Inv, Step, Run;
    OnwardKeeps(w, a, t, cancel);
    RefInside(Run(w, a), t);
    TearingCancelStep(Run(w, a), t, ref, cancel);
    var s1 := Onward(w, a, t, cancel);
    OnwardKeeps(s1, b, t, last);
    RefInside(Run(s1, b), t);
    if cancel.ok {
      TearingStopStep(Run(s1, b), t, ref, last);
    } else {
      SettleStep(Run(s1, b), t, ref, s1.tasks[t].outcome, last);
    }
  }

  // ---- Disposing of what an owner has ----

  /** The books without the dropped jobs: the others keep their place and their id. */
  ghost predicate Dropped(was: Books, now: Books, dropped: seq<Ref>) {
    && now.jobs == was.jobs && now.counters == was.counters && now.listenersClosed == was.listenersClosed
    && (forall ref :: ref in now.order <==> ref in was.order && ref !in dropped)
    && Increasing(now.order)
    && (forall id :: id in now.store <==> id in was.store && was.store[id] !in dropped)
    && (forall id <- now.store :: now.store[id] == was.store[id])
  }

  lemma {:induction false} OwnedExactly(b: Books, order: seq<Ref>, owner: Option<string>)
    ensures forall ref :: ref in OwnedBy(b, order, owner) <==> ref in order && ref < |b.jobs| && b.jobs[ref].spec.owner == owner
  {
    if order != [] {
      OwnedExactly(b, order[1..], owner);
    }
  }

  /** Disposing picks exactly the listed jobs of this owner, of nobody when the owner is nobody. */
  lemma DisposingStep(w: World, t: nat, owner: Option<string>, input: Input)
    requires Inv(w) && At(w, t, DisposingOwned(owner))
    ensures var next := Step(w, Advance(t, input));
            && next.books == w.books
            && (t in next.tasks ==>
                  && next.tasks[t].Dropping?
                  && forall ref :: ref in next.tasks[t].refs <==> ref in w.books.order && w.books.jobs[ref].spec.owner == owner)
            && (t !in next.tasks ==> forall ref <- w.books.order :: w.books.jobs[ref].spec.owner != owner)
  {
    hide OwnedBy;
    OwnedExactly(w.books, w.books.order, owner);
    assert IndexInv(w.books);
    if OwnedBy(w.books, w.books.order, owner) != [] {
      assert OwnedBy(w.books, w.books.order, owner)[0] in OwnedBy(w.books, w.books.order, owner);
    }
  }

  lemma DroppingStep(w: World, t: nat, refs: seq<Ref>, input: Input)
    requires Inv(w) && At(w, t, Dropping(refs))
    ensures Dropped(w.books, Step(w, Advance(t, input)).books, refs) && t !in Step(w, Advance(t, input)).tasks
  {
    hide Inv, Increasing, Step, DropSection;
    StepKeeps(w, Advance(t, input));
    InvIncreases(Step(w, Advance(t, input)));
    CallAdvances(w, t, Dropping(refs), input);
    DropExactly(w.books, refs);
  }

  lemma InvIncreases(w: World)
    requires Inv(w)
    ensures Increasing(w.books.order)
  {
    hide TasksInv, WaitersInv, HeardInv, JobInv, IdsInv;
  }

  lemma DropExactly(b: Books, refs: seq<Ref>)
    ensures var next := DropSection(b, refs);
            && next.jobs == b.jobs && next.counters == b.counters && next.listenersClosed == b.listenersClosed
            && (forall ref :: ref in next.order <==> ref in b.order && ref !in refs)
            && (forall id :: id in next.store <==> id in b.store && b.store[id] !in refs)
            && (forall id <- next.store :: next.store[id] == b.store[id])
  {
  }

  // ---- Numbering ----

  /** How many of these jobs are of the kind. */
  function OfKind(jobs: seq<Job>, kind: string): nat {
    if jobs == [] then 0 else OfKind(jobs[..|jobs| - 1], kind) + if jobs[|jobs| - 1].spec.kind == kind then 1 else 0
  }

  /** Each job has the next number of its kind, dropped jobs counting. */
  ghost predicate NumberedInTurn(b: Books) {
    && (forall kind :: CounterOf(b, kind) == OfKind(b.jobs, kind))
    && (forall i :: 0 <= i < |b.jobs| ==>
          b.jobs[i].id == b.jobs[i].spec.kind + "-" + Decimal(OfKind(b.jobs[..i], b.jobs[i].spec.kind) + 1))
  }

  lemma {:induction false} SameKinds(a: seq<Job>, b: seq<Job>, kind: string)
    requires |a| == |b| && forall i :: 0 <= i < |a| ==> a[i].spec == b[i].spec
    ensures OfKind(a, kind) == OfKind(b, kind)
  {
    if a != [] {
      SameKinds(a[..|a| - 1], b[..|b| - 1], kind);
    }
  }

  lemma SameBooksNumbered(was: Books, now: Books)
    requires NumberedInTurn(was) && now.counters == was.counters && |now.jobs| == |was.jobs|
    requires forall i :: 0 <= i < |was.jobs| ==> now.jobs[i].spec == was.jobs[i].spec && now.jobs[i].id == was.jobs[i].id
    ensures NumberedInTurn(now)
  {
    hide Decimal, OfKind;
    forall kind ensures CounterOf(now, kind) == OfKind(now.jobs, kind) {
      SameKinds(was.jobs, now.jobs, kind);
      assert CounterOf(was, kind) == OfKind(was.jobs, kind);
    }
    forall i | 0 <= i < |now.jobs|
      ensures now.jobs[i].id == now.jobs[i].spec.kind + "-" + Decimal(OfKind(now.jobs[..i], now.jobs[i].spec.kind) + 1)
    {
      SameKinds(was.jobs[..i], now.jobs[..i], now.jobs[i].spec.kind);
      assert was.jobs[i].id == was.jobs[i].spec.kind + "-" + Decimal(OfKind(was.jobs[..i], was.jobs[i].spec.kind) + 1);
    }
  }

  lemma OfKindOneMore(jobs: seq<Job>, job: Job, kind: string)
    ensures OfKind(jobs + [job], kind) == OfKind(jobs, kind) + if job.spec.kind == kind then 1 else 0
  {
    assert (jobs + [job])[..|jobs|] == jobs;
  }

  lemma OneMoreNumbered(b: Books, spec: JobSpec, now: Time)
    requires NumberedInTurn(b)
    ensures NumberedInTurn(RegisterSection(b, spec, now))
  {
    hide Decimal, OfKind;
    var next := RegisterSection(b, spec, now);
    var job := next.jobs[|b.jobs|];
    forall kind ensures CounterOf(next, kind) == OfKind(next.jobs, kind) {
      OfKindOneMore(b.jobs, job, kind);
    }
    assert forall i :: 0 <= i <= |b.jobs| ==> next.jobs[..i] == b.jobs[..i];
    assert b.jobs[..|b.jobs|] == b.jobs;
    assert job.id == JobIdOf(spec.kind, CounterOf(b, spec.kind) + 1);
  }

  /** A section either registers one job or leaves how many there are, their ids and the counters. */
  lemma SectionNumbers(w: World, a: Action)
    requires Inv(w) && NumberedInTurn(w.books)
    ensures NumberedInTurn(Step(w, a).books)
  {
    hide Inv, NumberedInTurn, RegisterSection, Decimal;
    StepKeeps(w, a);
    if a.Advance? && a.t in w.tasks && w.tasks[a.t].Registering? && a.input.ok {
      OneMoreNumbered(w.books, w.tasks[a.t].spec, a.input.now);
    } else {
      SectionKeepsCount(w, a);
      SameBooksNumbered(w.books, Step(w, a).books);
    }
  }

  lemma HoldingKeepsCount(b: Books, task: Task, input: Input)
    requires LocalJobs.Holds(task) && task.ref < |b.jobs|
    ensures var next := HoldingStep(b, task, input).books; next.counters == b.counters && |next.jobs| == |b.jobs|
  {
    hide LeaveWait, SettledJob, Collected;
  }

  lemma CallKeepsCount(b: Books, task: Task, input: Input)
    requires !LocalJobs.Holds(task) && !(task.Registering? && input.ok)
    ensures var next := CallStep(b, task, input).books; next.counters == b.counters && |next.jobs| == |b.jobs|
  {
    hide OwnedBy, Without;
  }

  lemma SectionKeepsCount(w: World, a: Action)
    requires !(a.Advance? && a.t in w.tasks && w.tasks[a.t].Registering? && a.input.ok)
    ensures Step(w, a).books.counters == w.books.counters && |Step(w, a).books.jobs| == |w.books.jobs|
  {
    hide CallStep, HoldingStep;
    if a.Advance? && a.t in w.tasks {
      var task := w.tasks[a.t];
      if !LocalJobs.Holds(task) {
        CallKeepsCount(w.books, task, a.input);
      } else if task.ref < |w.books.jobs| {
        HoldingKeepsCount(w.books, task, a.input);
      }
    }
  }

  lemma NothingNumbered()
    ensures NumberedInTurn(INITIAL.books)
  {
    hide Decimal;
  }

  /** Over every run the n-th job of a kind gets the number n, whatever was dropped before. */
  lemma {:induction false} NthJobGetsNumberN(w: World, actions: seq<Action>)
    requires Inv(w) && NumberedInTurn(w.books)
    ensures NumberedInTurn(Run(w, actions).books)
    decreases |actions|
  {
    hide Inv, Step, NumberedInTurn;
    if actions != [] {
      StepKeeps(w, actions[0]);
      SectionNumbers(w, actions[0]);
      NthJobGetsNumberN(Step(w, actions[0]), actions[1..]);
    }
  }

  /** In particular from the start: each new job is running, unreported, unwatched and numbered in turn. */
  lemma NumberedFromTheStart(actions: seq<Action>)
    ensures NumberedInTurn(Run(INITIAL, actions).books)
  {
    hide NumberedInTurn, Step;
    InitialInv();
    NothingNumbered();
    NthJobGetsNumberN(INITIAL, actions);
  }

  lemma RegisteringStep(w: World, t: nat, spec: JobSpec, input: Input)
    requires At(w, t, Registering(spec)) && input.ok
    ensures var (next, n) := (Step(w, Advance(t, input)), |w.books.jobs|);
            && |next.books.jobs| == n + 1 && next.books.jobs[..n] == w.books.jobs && At(next, t, Collecting(n))
            && next.books.order == w.books.order + [n]
            && var job := next.books.jobs[n];
            job == Job(job.id, spec, Running, "", "", input.now, None, false, 0, 0)
            && next.books.store == w.books.store[job.id := n]
  {
    hide JobIdOf;
  }
}
