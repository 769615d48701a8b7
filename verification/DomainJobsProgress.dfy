/**
  What calls of the multi-replica registry bring about once they get their steps, whatever the other
  replicas and the other calls do in between (adapter/domainjobs/registry.go).
*/
module DomainJobsProgress {
  import opened Outcomes
  import opened Decimals
  import opened JobTypes
  import opened DomainJobs
  import opened DomainJobsSafety
  import opened DomainJobsTheorems
  import opened DomainJobsAccess
  import DomainRegistry

  /** Anything may happen but a step of this task and the end of its process. */
  predicate LeavesAlone(actions: seq<Action>, r: Runner, t: nat) {
    forall i :: 0 <= i < |actions| ==>
      !(actions[i].Advance? && actions[i].r == r && actions[i].t == t) && actions[i] != Crash(r)
  }

  lemma TaskStays(w: World, a: Action, r: Runner, t: nat)
    requires Busy(w, r, t) && w.replicas[r].phase.Up? && !(a.Advance? && a.r == r && a.t == t) && a != Crash(r)
    ensures Busy(Step(w, a), r, t) && Step(w, a).replicas[r].phase.Up?
    ensures Step(w, a).replicas[r].tasks[t] == w.replicas[r].tasks[t]
  {
    hide TaskStep;
  }

  /** A call keeps its place until its next step. */
  lemma {:induction false} TaskWaits(w: World, actions: seq<Action>, r: Runner, t: nat)
    requires Inv(w) && Busy(w, r, t) && LeavesAlone(actions, r, t)
    ensures Inv(Run(w, actions)) && Holds(Run(w, actions), r, t, w.replicas[r].tasks[t])
    decreases |actions|
  {
    hide Step;
    UpWhileRunning(w, r, t);
    hide Inv;
    if actions != [] {
      StepKeeps(w, actions[0]);
      TaskStays(w, actions[0], r, t);
      TaskWaits(Step(w, actions[0]), actions[1..], r, t);
    }
  }

  lemma UpWhileRunning(w: World, r: Runner, t: nat)
    requires Inv(w) && Busy(w, r, t)
    ensures w.replicas[r].phase.Up?
  {
  }

  /**
    Calls begin on a replica that is up, and only with their first step: a Start with a declaration that
    passes the checks, a kill or a read of any id, the teardown of a job whose producer is here.
  */
  lemma CallBegins(w: World, r: Runner, t: nat, task: Task)
    requires r in w.replicas && t !in w.replicas[r].tasks
    ensures Holds(Step(w, Call(r, t, task)), r, t, task) <==>
      && w.replicas[r].phase.Up?
      && (|| task.KillCalled? || task.ReadCalled?
          || (task.Reading? && task.attempt == 0 && task.spec.kind != "" && '-' !in task.spec.kind
              && task.spec.labelText != "" && task.spec.outputLimitBytes >= 0)
          || (task.TearingDown? && task.id in w.replicas[r].handles && w.replicas[r].handles[task.id].ready))
    ensures Step(w, Call(r, t, task)).table == w.table
  {
  }

  /** One step of the task after anything else happened. */
  ghost function Onward(w: World, between: seq<Action>, r: Runner, t: nat, input: Input): World {
    Step(Run(w, between), Advance(r, t, input))
  }

  lemma OnwardKeeps(w: World, between: seq<Action>, r: Runner, t: nat, input: Input)
    requires Inv(w) && Busy(w, r, t) && LeavesAlone(between, r, t)
    ensures Inv(Run(w, between)) && Holds(Run(w, between), r, t, w.replicas[r].tasks[t]) && Inv(Onward(w, between, r, t, input))
  {
    TaskWaits(w, between, r, t);
    hide Inv, Step;
    StepKeeps(Run(w, between), Advance(r, t, input));
  }

  // ---- Settling ----

  lemma CollectStep(w: World, r: Runner, t: nat, id: JobId, input: Input)
    requires Holds(w, r, t, Collecting(id))
    ensures var next := Step(w, Advance(r, t, input));
            next.table == w.table && Holds(next, r, t, Settling(id, Collected(input.received)))
  {
  }

  lemma SettlingStep(w: World, r: Runner, t: nat, id: JobId, outcome: Outcome, input: Input)
    requires Holds(w, r, t, Settling(id, outcome)) && id in w.replicas[r].handles
    ensures var next := Step(w, Advance(r, t, input));
            && next.table == w.table
            && Holds(next, r, t, Committing(id, outcome, w.replicas[r].handles[id].waiters, w.replicas[r].listenersClosed))
  {
  }

  lemma CommitStep(w: World, r: Runner, t: nat, id: JobId, outcome: Outcome, waiters: nat, closed: bool, input: Input)
    requires Holds(w, r, t, Committing(id, outcome, waiters, closed)) && input.ok && id in w.table
    ensures var next := Step(w, Advance(r, t, input));
            && id in next.table && Holds(next, r, t, Announcing(id, closed, w.table[id].status !in ENDED))
            && (w.table[id].status in ENDED ==> next.table[id] == w.table[id])
            && (w.table[id].status !in ENDED ==>
                  next.table[id] == w.table[id].(status := outcome.status, detail := outcome.detail, output := outcome.output,
                                                 finishedAt := Some(input.now), reported := w.table[id].reported || waiters >= 1))
  {
  }

  lemma AnnounceStep(w: World, r: Runner, t: nat, id: JobId, closed: bool, committed: bool, input: Input)
    requires Holds(w, r, t, Announcing(id, closed, committed))
    ensures var next := Step(w, Advance(r, t, input));
            && !Busy(next, r, t) && next.table == w.table
            && next.announced == w.announced + (if committed && !closed then [id] else [])
            && (id in w.replicas[r].handles ==> id in next.replicas[r].handles && next.replicas[r].handles[id].settled)
  {
  }

  /**
    A settlement that gets its two last steps is announced exactly when it was the first and listeners
    were open, and then the record already says how the job ended.
  */
  lemma SettlementIsAnnounced(w: World, before: seq<Action>, commit: Input, after: seq<Action>, last: Input, r: Runner, t: nat)
    requires Inv(w) && Busy(w, r, t) && w.replicas[r].tasks[t].Committing? && commit.ok
    requires LeavesAlone(before, r, t) && LeavesAlone(after, r, t)
    ensures var task := w.replicas[r].tasks[t];
            var at := Run(w, before);
            var prior := Run(Onward(w, before, r, t, commit), after);
            var end := Onward(Onward(w, before, r, t, commit), after, r, t, last);
            && task.id in at.table && task.id in end.table && end.table[task.id].status in ENDED
            && end.announced == prior.announced + (if at.table[task.id].status !in ENDED && !task.closed then [task.id] else [])
            && (at.table[task.id].status !in ENDED ==>
                  end.table[task.id].status == task.outcome.status && end.table[task.id].detail == task.outcome.detail
                  && end.table[task.id].output == task.outcome.output)
  {
    var task := w.replicas[r].tasks[t];
    OnwardKeeps(w, before, r, t, commit);
    var at := Run(w, before);
    TaskHolds(at, r, t);
    CommittingIsEnded(at, r, t);
    CommitStep(at, r, t, task.id, task.outcome, task.waiters, task.closed, commit);
    var mid := Onward(w, before, r, t, commit);
    hide Inv, Step, Run;
    OnwardKeeps(mid, after, r, t, last);
    TerminalIsFinal(mid, after, task.id);
    AnnounceStep(Run(mid, after), r, t, task.id, task.closed, at.table[task.id].status !in ENDED, last);
  }

  lemma CommittingIsEnded(w: World, r: Runner, t: nat)
    requires Inv(w) && Busy(w, r, t) && w.replicas[r].tasks[t].Committing?
    ensures w.replicas[r].tasks[t].outcome.status in ENDED
  {
    TaskHolds(w, r, t);
  }

  // ---- Tearing down ----

  lemma TearDownStep(w: World, r: Runner, t: nat, id: JobId, input: Input)
    requires Holds(w, r, t, TearingDown(id)) && input.ok && id in w.table
    ensures var next := Step(w, Advance(r, t, input));
            && (w.table[id].status in ENDED ==> next.table == w.table && !Busy(next, r, t))
            && (w.table[id].status !in ENDED ==>
                  && next.table == w.table[id := w.table[id].(status := Stopping, reported := true)]
                  && Holds(next, r, t, TearingCancel(id)))
  {
    assert w.table[id].status in ENDED ==> w.table[id := w.table[id]] == w.table;
  }

  lemma TearingCancelStep(w: World, r: Runner, t: nat, id: JobId, input: Input)
    requires Holds(w, r, t, TearingCancel(id))
    ensures var next := Step(w, Advance(r, t, input));
            && next.table == w.table
            && if input.ok then !Busy(next, r, t)
               else Holds(next, r, t, Settling(id, Outcome(Failed, "cancel threw during teardown; work may be orphaned", "")))
  {
  }

  /**
    A job whose cancel fails during teardown is failed as possibly orphaned, unless it ended by itself
    first: whatever happens between the steps, the record says so once they are done.
  */
  lemma FailedCancelFailsTheJob(w: World, a: seq<Action>, cancel: Input, b: seq<Action>, settle: Input, c: seq<Action>, commit: Input,
                                r: Runner, t: nat, id: JobId)
    requires Inv(w) && Holds(w, r, t, TearingCancel(id)) && !cancel.ok && commit.ok
    requires LeavesAlone(a, r, t) && LeavesAlone(b, r, t) && LeavesAlone(c, r, t)
    ensures var before := Run(Onward(Onward(w, a, r, t, cancel), b, r, t, settle), c);
            var end := Step(before, Advance(r, t, commit));
            && id in before.table && id in end.table
            && (before.table[id].status in ENDED ==> end.table[id] == before.table[id])
            && (before.table[id].status !in ENDED ==>
                  end.table[id].status == Failed && end.table[id].detail == "cancel threw during teardown; work may be orphaned"
                  && end.table[id].output == "" && end.table[id].finishedAt == Some(commit.now))
  {
    hide Inv, Step, Run, TaskStep;
    OnwardKeeps(w, a, r, t, cancel);
    TearingCancelStep(Run(w, a), r, t, id, cancel);
    var s1 := Onward(w, a, r, t, cancel);
    OnwardKeeps(s1, b, r, t, settle);
    var outcome := s1.replicas[r].tasks[t].outcome;
    var waiters, closed := SettlesAnyway(Run(s1, b), r, t, id, outcome, settle);
    var s2 := Onward(s1, b, r, t, settle);
    OnwardKeeps(s2, c, r, t, commit);
    var before := Run(s2, c);
    IssuedTask(before, r, t);
    CommitStep(before, r, t, id, outcome, waiters, closed, commit);
  }

  lemma SettlesAnyway(w: World, r: Runner, t: nat, id: JobId, outcome: Outcome, input: Input) returns (waiters: nat, closed: bool)
    requires Holds(w, r, t, Settling(id, outcome))
    ensures Holds(Step(w, Advance(r, t, input)), r, t, Committing(id, outcome, waiters, closed))
  {
    closed := w.replicas[r].listenersClosed;
    waiters := if id in w.replicas[r].handles then w.replicas[r].handles[id].waiters else 0;
  }

  lemma IssuedTask(w: World, r: Runner, t: nat)
    requires Inv(w) && Busy(w, r, t) && w.replicas[r].tasks[t].Committing?
    ensures w.replicas[r].tasks[t].id in w.table
  {
    TaskHolds(w, r, t);
  }

  // ---- Killing ----

  lemma KillingStep(w: World, r: Runner, t: nat, id: JobId, input: Input)
    requires Holds(w, r, t, Killing(id))
    ensures var next := Step(w, Advance(r, t, input));
            && next.table == w.table
            && if id in w.replicas[r].handles && w.replicas[r].handles[id].ready then Holds(next, r, t, Cancelling(id))
               else !Busy(next, r, t)
  {
  }

  lemma CancellingStep(w: World, r: Runner, t: nat, id: JobId, input: Input)
    requires Holds(w, r, t, Cancelling(id))
    ensures var next := Step(w, Advance(r, t, input));
            next.table == w.table && if input.ok then Holds(next, r, t, Requesting(id)) else !Busy(next, r, t)
  {
  }

  lemma RequestingStep(w: World, r: Runner, t: nat, id: JobId, input: Input)
    requires Holds(w, r, t, Requesting(id)) && input.ok && id in w.table
    ensures var next := Step(w, Advance(r, t, input));
            && !Busy(next, r, t)
            && next.table == w.table[id := w.table[id].(status := if w.table[id].status in ENDED then w.table[id].status else Stopping,
                                                        reported := true)]
  {
  }

  /**
    A kill whose producer cancels is on record afterwards, whatever happens between its steps: the job is
    reported, and stopping unless it ended in the meantime.
  */
  lemma KillRequestsTheStop(w: World, a: seq<Action>, cancel: Input, b: seq<Action>, request: Input, r: Runner, t: nat, id: JobId)
    requires Inv(w) && Holds(w, r, t, Cancelling(id)) && cancel.ok && request.ok
    requires LeavesAlone(a, r, t) && LeavesAlone(b, r, t)
    ensures var before := Run(Onward(w, a, r, t, cancel), b);
            var end := Step(before, Advance(r, t, request));
            && id in before.table && id in end.table && end.table[id].reported
            && end.table[id].status == (if before.table[id].status in ENDED then before.table[id].status else Stopping)
  {
    hide Inv, Step, Run, TaskStep;
    OnwardKeeps(w, a, r, t, cancel);
    CancellingStep(Run(w, a), r, t, id, cancel);
    var s1 := Onward(w, a, r, t, cancel);
    OnwardKeeps(s1, b, r, t, request);
    RequestedIsThere(Run(s1, b), r, t);
    RequestingStep(Run(s1, b), r, t, id, request);
  }

  lemma RequestedIsThere(w: World, r: Runner, t: nat)
    requires Inv(w) && Busy(w, r, t) && w.replicas[r].tasks[t].Requesting?
    ensures w.replicas[r].tasks[t].id in w.table
  {
    TaskHolds(w, r, t);
  }

  /** A read, or a kill, of a job that has ended leaves it reported and otherwise as it was. */
  lemma MarkingReports(w: World, a: seq<Action>, mark: Input, r: Runner, t: nat, id: JobId)
    requires Inv(w) && Holds(w, r, t, Marking(id)) && mark.ok && LeavesAlone(a, r, t)
    ensures var before, end := Run(w, a), Onward(w, a, r, t, mark);
            && id in before.table && before.table[id].status in ENDED && !Busy(end, r, t)
            && end.table == before.table[id := before.table[id].(reported := true)]
  {
    hide Inv, Step, Run;
    OnwardKeeps(w, a, r, t, mark);
    MarkingStep(Run(w, a), r, t, id, mark);
  }

  lemma MarkingStep(w: World, r: Runner, t: nat, id: JobId, input: Input)
    requires Inv(w) && Holds(w, r, t, Marking(id)) && input.ok
    ensures var next := Step(w, Advance(r, t, input));
            && id in w.table && w.table[id].status in ENDED && !Busy(next, r, t)
            && next.table == w.table[id := w.table[id].(reported := true)]
  {
    TaskHolds(w, r, t);
  }

  // ---- Starting ----

  /** The live records of an owner. */
  ghost function LiveOf(table: Table, ownerSession: string): set<JobId> {
    set id | id in table && table[id].spec.ownerSession == ownerSession && table[id].status in LIVE
  }

  /** The number a Start takes: past every number of its kind, and the next one. */
  ghost predicate NextNumber(table: Table, kind: string, n: nat) {
    && n >= 1
    && (forall id <- table :: Ordinal(table[id], kind) < n)
    && (n > 1 ==> exists id :: id in table && Ordinal(table[id], kind) == n - 1)
  }

  /** A Start goes on from its listing exactly when it may: read, fewer misses than eight, and below the owner's limit. */
  lemma ReadingStep(w: World, r: Runner, t: nat, spec: JobSpec, attempt: nat, input: Input)
    requires Inv(w) && Holds(w, r, t, Reading(spec, attempt)) && Lists(w.table, input.entries)
    ensures var next := Step(w, Advance(r, t, input));
            && next.table == w.table
            && (Busy(next, r, t) <==> input.ok && attempt < 8 && |LiveOf(w.table, spec.ownerSession)| < w.limit)
            && (Busy(next, r, t) ==> exists n: nat ::
                  && NextNumber(w.table, spec.kind, n)
                  && Holds(next, r, t, Claiming(Record(spec.kind + "-" + Decimal(n), r, spec, Running, "", input.now, None, false, ""), attempt)))
  {
    hide Highest, ActiveCount, Lists, Ordinal, Decimal, TaskInv, HandleInv;
    DomainRegistry.ListingCountsTable(w.table, input.entries, spec.ownerSession);
    assert DomainRegistry.ActiveIds(w.table, spec.ownerSession) == LiveOf(w.table, spec.ownerSession);
    NumberIsNext(w.table, input.entries, spec.kind);
  }

  lemma NumberIsNext(table: Table, entries: seq<Record>, kind: string)
    requires Lists(table, entries)
    ensures NextNumber(table, kind, Highest(entries, kind) + 1)
  {
    hide Highest, Ordinal;
    forall id <- table ensures Ordinal(table[id], kind) < Highest(entries, kind) + 1 {
      var i :| 0 <= i < |entries| && entries[i] == table[id];
      HighestIsABound(entries, kind, i);
    }
    if Highest(entries, kind) > 0 {
      var i := HighestIsAttained(entries, kind);
      assert entries[i].id in table;
    }
  }

  lemma ClaimingStep(w: World, r: Runner, t: nat, record: Record, attempt: nat, input: Input)
    requires Holds(w, r, t, Claiming(record, attempt))
    ensures var next := Step(w, Advance(r, t, input));
            if !input.ok then !Busy(next, r, t) && next.table == w.table
            else if record.id in w.table then Holds(next, r, t, Reading(record.spec, attempt + 1)) && next.table == w.table
            else Holds(next, r, t, Claimed(record.id)) && next.table == w.table[record.id := record]
  {
  }

  lemma ClaimedStep(w: World, r: Runner, t: nat, id: JobId, input: Input)
    requires Holds(w, r, t, Claimed(id))
    ensures var next := Step(w, Advance(r, t, input));
            Holds(next, r, t, Producing(id)) && next.table == w.table
            && next.replicas[r].handles == w.replicas[r].handles[id := Handle(false, 0, false)]
  {
  }

  lemma ProducingStep(w: World, r: Runner, t: nat, id: JobId, input: Input)
    requires Holds(w, r, t, Producing(id)) && id in w.replicas[r].handles
    ensures var next := Step(w, Advance(r, t, input));
            && next.table == w.table
            && if input.ok then
                 && Holds(next, r, t, Collecting(id)) && next.issued == w.issued + [id]
                 && id in next.replicas[r].handles && next.replicas[r].handles[id].ready
               else Holds(next, r, t, Abandoning(id)) && next.issued == w.issued && id !in next.replicas[r].handles
  {
  }

  lemma AbandoningStep(w: World, r: Runner, t: nat, id: JobId, input: Input)
    requires Holds(w, r, t, Abandoning(id))
    ensures var next := Step(w, Advance(r, t, input));
            !Busy(next, r, t) && next.table == if input.ok then w.table - {id} else w.table
  {
  }

  /** A claimed record stays the Start's own, running and unreturned, until the Start is done with it. */
  lemma {:induction false} ClaimStands(w: World, actions: seq<Action>, r: Runner, t: nat, id: JobId)
    requires Inv(w) && Busy(w, r, t) && Starts(w.replicas[r].tasks[t], id) && LeavesAlone(actions, r, t)
    ensures var end := Run(w, actions);
            && Inv(end) && Holds(end, r, t, w.replicas[r].tasks[t])
            && id in w.table && id in end.table && end.table[id].spec == w.table[id].spec
            && end.table[id].runner == r && end.table[id].status == Running && id !in end.issued
    decreases |actions|
  {
    ClaimHolds(w, r, t, id);
    UpWhileRunning(w, r, t);
    hide Inv, Step;
    if actions != [] {
      StepKeeps(w, actions[0]);
      TaskStays(w, actions[0], r, t);
      ClaimHolds(Step(w, actions[0]), r, t, id);
      StepTable(w, actions[0]);
      ClaimStands(Step(w, actions[0]), actions[1..], r, t, id);
    }
  }

  lemma ClaimHolds(w: World, r: Runner, t: nat, id: JobId)
    requires Inv(w) && Busy(w, r, t) && Starts(w.replicas[r].tasks[t], id)
    ensures id in w.table && w.table[id].runner == r && w.table[id].status == Running && id !in w.issued
    ensures w.replicas[r].tasks[t].Producing? ==> id in w.replicas[r].handles
  {
    TaskHolds(w, r, t);
  }

  /**
    A Start whose claim finds its number free and whose producer comes up returns that id, whatever happens
    between its steps, for a running job of its own replica with the declared spec and a handle to it.
  */
  lemma StartComesUp(w: World, a: seq<Action>, claim: Input, b: seq<Action>, register: Input, c: seq<Action>, produce: Input,
                     r: Runner, t: nat, record: Record, attempt: nat)
    requires Inv(w) && Holds(w, r, t, Claiming(record, attempt)) && claim.ok && produce.ok
    requires LeavesAlone(a, r, t) && LeavesAlone(b, r, t) && LeavesAlone(c, r, t)
    requires record.id !in Run(w, a).table
    ensures var before := Run(Onward(Onward(w, a, r, t, claim), b, r, t, register), c);
            var end := Step(before, Advance(r, t, produce));
            && end.issued == before.issued + [record.id] && record.id !in before.issued
            && record.id in end.table && end.table[record.id].spec == record.spec
            && end.table[record.id].runner == r && end.table[record.id].status == Running
            && record.id in end.replicas[r].handles && end.replicas[r].handles[record.id].ready
            && Holds(end, r, t, Collecting(record.id))
  {
    hide Inv, Step, Run, TaskStep;
    OnwardKeeps(w, a, r, t, claim);
    ClaimingStep(Run(w, a), r, t, record, attempt, claim);
    var s1 := Onward(w, a, r, t, claim);
    ClaimStands(s1, b, r, t, record.id);
    OnwardKeeps(s1, b, r, t, register);
    ClaimedStep(Run(s1, b), r, t, record.id, register);
    var s2 := Onward(s1, b, r, t, register);
    ClaimStands(s2, c, r, t, record.id);
    var before := Run(s2, c);
    ClaimHolds(before, r, t, record.id);
    ProducingStep(before, r, t, record.id, produce);
  }

  /** A Start whose producer fails withdraws its record, if the store lets it, and its id was never returned. */
  lemma FailedStartWithdraws(w: World, a: seq<Action>, produce: Input, b: seq<Action>, withdraw: Input, r: Runner, t: nat, id: JobId)
    requires Inv(w) && Holds(w, r, t, Producing(id)) && !produce.ok && LeavesAlone(a, r, t) && LeavesAlone(b, r, t)
    ensures var before := Run(Onward(w, a, r, t, produce), b);
            var end := Step(before, Advance(r, t, withdraw));
            && !Busy(end, r, t) && id !in before.issued
            && end.table == if withdraw.ok then before.table - {id} else before.table
  {
    hide Inv, Step, Run, TaskStep;
    OnwardKeeps(w, a, r, t, produce);
    ClaimStands(w, a, r, t, id);
    ClaimHolds(Run(w, a), r, t, id);
    ProducingStep(Run(w, a), r, t, id, produce);
    var s1 := Onward(w, a, r, t, produce);
    ClaimStands(s1, b, r, t, id);
    AbandoningStep(Run(s1, b), r, t, id, withdraw);
  }

  // ---- Waiting, closing, crashing ----

  lemma WaitsAreCounted(w: World, r: Runner, id: JobId)
    requires r in w.replicas && id in w.replicas[r].handles && w.replicas[r].handles[id].ready
    ensures var handle := w.replicas[r].handles[id];
            var (begun, ended) := (Step(w, WaitBegins(r, id)), Step(w, WaitEnds(r, id)));
            && begun.replicas[r].handles == w.replicas[r].handles[id := handle.(waiters := handle.waiters + 1)]
            && (handle.waiters > 0 ==> ended.replicas[r].handles == w.replicas[r].handles[id := handle.(waiters := handle.waiters - 1)])
            && begun.table == w.table && ended.table == w.table
  {
  }

  /** Closing the listeners and crashing touch nothing but their own replica; a crash forgets every call and handle. */
  lemma ReplicaGoes(w: World, r: Runner)
    requires r in w.replicas
    ensures var (closed, crashed) := (Step(w, CloseListeners(r)), Step(w, Crash(r)));
            && closed == w.(replicas := w.replicas[r := w.replicas[r].(listenersClosed := true)])
            && crashed == w.(replicas := w.replicas[r := Replica(Down, map[], map[], false)])
  {
  }

  // ---- Coming back ----

  /** The takeovers that fail these records, and the one that opens the replica. */
  function TakeoverOf(r: Runner, n: nat, now: Time): seq<Action> {
    seq(n + 1, _ => Takeover(r, true, now))
  }

  lemma OneTakeover(w: World, r: Runner, now: Time)
    requires Inv(w) && r in w.replicas && w.replicas[r].phase.Booting?
    ensures var (next, pending) := (Step(w, Takeover(r, true, now)), w.replicas[r].phase.pending);
            && r in next.replicas
            && (pending == [] ==> next.table == w.table && next.replicas[r].phase == Up)
            && (pending != [] ==>
                  && next.replicas[r].phase == Booting(pending[1..])
                  && pending[0] in w.table && next.table.Keys == w.table.Keys
                  && (forall id <- w.table :: id != pending[0] ==> next.table[id] == w.table[id])
                  && next.table[pending[0]] ==
                     if w.table[pending[0]].status in ENDED then w.table[pending[0]]
                     else w.table[pending[0]].(status := Failed, detail := "runner restarted; job was lost with the previous process",
                                               finishedAt := Some(now)))
  {
    assert BootInv(w.table, r, w.replicas[r].phase);
  }

  /** What becomes of a record in a takeover: only the runner's own live ones are failed. */
  predicate TakenOrKept(was: Record, now: Record, r: Runner, at: Time) {
    || now == was
    || (was.runner == r && was.status !in ENDED
        && now == was.(status := Failed, detail := "runner restarted; job was lost with the previous process", finishedAt := Some(at)))
  }

  lemma {:induction false} TakeoversComeUp(w: World, r: Runner, now: Time)
    requires Inv(w) && r in w.replicas && w.replicas[r].phase.Booting?
    ensures var end := Run(w, TakeoverOf(r, |w.replicas[r].phase.pending|, now));
            && r in end.replicas && end.replicas[r].phase == Up && end.table.Keys == w.table.Keys
            && (forall id <- w.table :: TakenOrKept(w.table[id], end.table[id], r, now))
            && (forall id <- w.table :: w.table[id].runner == r ==> end.table[id].status !in LIVE)
    decreases |w.replicas[r].phase.pending|
  {
    hide Inv, Step, Run;
    var pending := w.replicas[r].phase.pending;
    var actions := TakeoverOf(r, |pending|, now);
    OneTakeover(w, r, now);
    StepKeeps(w, Takeover(r, true, now));
    var next := Step(w, Takeover(r, true, now));
    RunFirst(w, actions);
    if pending == [] {
      NothingLiveLeft(w, r);
      RunNothing(next);
      assert actions[1..] == [];
    } else {
      assert actions[1..] == TakeoverOf(r, |pending| - 1, now);
      OwnPending(w, r);
      TakeoversComeUp(next, r, now);
    }
  }

  lemma RunFirst(w: World, actions: seq<Action>)
    requires actions != []
    ensures Run(w, actions) == Run(Step(w, actions[0]), actions[1..])
  {
    hide Step;
  }

  lemma RunNothing(w: World)
    ensures Run(w, []) == w
  {
  }

  lemma NothingLiveLeft(w: World, r: Runner)
    requires Inv(w) && r in w.replicas && w.replicas[r].phase == Booting([])
    ensures forall id <- w.table :: w.table[id].runner == r ==> w.table[id].status !in LIVE
  {
    assert BootInv(w.table, r, w.replicas[r].phase);
  }

  lemma OwnPending(w: World, r: Runner)
    requires Inv(w) && r in w.replicas && w.replicas[r].phase.Booting? && w.replicas[r].phase.pending != []
    ensures Owned(w.table, r, w.replicas[r].phase.pending[0])
  {
    assert BootInv(w.table, r, w.replicas[r].phase);
  }

  /**
    A replica that boots from a listing and gets its writes comes up, with every live record of its former
    process failed as lost and every other record as it was.
  */
  lemma BootComesUp(w: World, r: Runner, entries: seq<Record>, now: Time) returns (actions: seq<Action>)
    requires Inv(w) && r in w.replicas && w.replicas[r].phase.Down? && Lists(w.table, entries)
    ensures var end := Run(w, actions);
            && r in end.replicas && end.replicas[r].phase == Up && end.table.Keys == w.table.Keys
            && (forall id <- w.table :: TakenOrKept(w.table[id], end.table[id], r, now))
            && (forall id <- w.table :: w.table[id].runner == r ==> end.table[id].status !in LIVE)
  {
    hide Inv, Step, Run;
    StepKeeps(w, Boot(r, entries));
    var next := Step(w, Boot(r, entries));
    Boots(w, r, entries);
    TakeoversComeUp(next, r, now);
    actions := [Boot(r, entries)] + TakeoverOf(r, |next.replicas[r].phase.pending|, now);
    RunFirst(w, actions);
    assert actions[1..] == TakeoverOf(r, |next.replicas[r].phase.pending|, now);
  }

  lemma Boots(w: World, r: Runner, entries: seq<Record>)
    requires r in w.replicas && w.replicas[r].phase.Down? && Lists(w.table, entries)
    ensures var next := Step(w, Boot(r, entries)); next.table == w.table && r in next.replicas && next.replicas[r].phase.Booting?
  {
    hide Lists;
  }
}
