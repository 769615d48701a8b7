/** What the invariant of the multi-replica registry means for its callers, over whole runs. */
module DomainJobsTheorems {
  import opened Outcomes
  import opened Decimals
  import opened JobTypes
  import opened DomainJobs
  import opened DomainJobsSafety

  lemma StepTable(w: World, a: Action)
    requires Inv(w)
    ensures TableStep(w.table, Step(w, a).table, w.issued, a.r)
    ensures forall id <- w.issued :: id in Step(w, a).issued
    ensures forall id <- w.announced :: id in Step(w, a).announced
  {
    hide Inv, TaskStep, TableStep;
    SameTable(w.table, w.issued, a.r);
    if a.r in w.replicas {
      if a.Advance? && a.t in w.replicas[a.r].tasks {
        var x := TaskStepSound(w, a.r, a.t, a.input);
        var m := TaskStep(w, a.r, w.replicas[a.r].tasks[a.t], a.input);
      } else if a.Takeover? && w.replicas[a.r].phase.Booting? {
        TakeoverKeeps(w, a.r, a.ok, a.now);
      }
    }
  }

  /**
    Over every run from an empty ledger: no two successful Starts returned the same id, each of
    those ids still has its record, and no job was announced as done twice.
  */
  lemma IdsAreNeverReissued(w: World, actions: seq<Action>)
    requires Initial(w)
    ensures var end := Run(w, actions);
            && NoRepeats(end.issued) && NoRepeats(end.announced)
            && (forall i :: 0 <= i < |end.issued| ==> end.issued[i] in end.table)
            && (forall i :: 0 <= i < |end.announced| ==>
                  end.announced[i] in end.table && end.table[end.announced[i]].status in ENDED)
  {
    InitialInv(w);
    RunKeeps(w, actions);
  }

  /** A finished record is final over any continuation: it stays, with its outcome unchanged. */
  lemma {:induction false} TerminalIsFinal(w: World, actions: seq<Action>, id: JobId)
    requires Inv(w) && id in w.table && w.table[id].status in ENDED
    ensures id in Run(w, actions).table
    ensures var was, now := w.table[id], Run(w, actions).table[id];
            && now.status == was.status && now.detail == was.detail && now.output == was.output
            && now.finishedAt == was.finishedAt && now.runner == was.runner && now.spec == was.spec
            && now.startedAt == was.startedAt
            && (was.reported ==> now.reported)
    decreases |actions|
  {
    hide Inv, Step;
    if actions != [] {
      StepKeeps(w, actions[0]);
      StepTable(w, actions[0]);
      TerminalIsFinal(Step(w, actions[0]), actions[1..], id);
    }
  }

  /** An id a Start returned keeps its record for good, and its report is never taken back. */
  lemma {:induction false} IssuedRecordsStay(w: World, actions: seq<Action>, id: JobId)
    requires Inv(w) && id in w.issued
    ensures id in w.table && id in Run(w, actions).table
    ensures var was, now := w.table[id], Run(w, actions).table[id];
            now.runner == was.runner && now.spec == was.spec && now.startedAt == was.startedAt
            && (was.reported ==> now.reported) && (!was.status.Running? ==> !now.status.Running?)
    decreases |actions|
  {
    IssuedIsRecorded(w, id);
    hide Inv, Step;
    if actions != [] {
      StepKeeps(w, actions[0]);
      StepTable(w, actions[0]);
      IssuedRecordsStay(Step(w, actions[0]), actions[1..], id);
    }
  }

  lemma IssuedIsRecorded(w: World, id: JobId)
    requires Inv(w) && id in w.issued
    ensures id in w.table
  {
  }

  /**
    The first outcome to be committed is the job's outcome from then on, whatever happens after; a
    waiter counted before the commit makes it reported.
  */
  lemma SettlementStands(w: World, r: Runner, t: nat, input: Input, actions: seq<Action>)
    requires Inv(w) && r in w.replicas && t in w.replicas[r].tasks && w.replicas[r].tasks[t].Committing? && input.ok
    requires w.table[w.replicas[r].tasks[t].id].status !in ENDED
    ensures var task := w.replicas[r].tasks[t];
            var end := Run(Step(w, Advance(r, t, input)), actions);
            && task.id in end.table
            && end.table[task.id].status == task.outcome.status && end.table[task.id].detail == task.outcome.detail
            && end.table[task.id].output == task.outcome.output && end.table[task.id].finishedAt == Some(input.now)
            && (task.waiters > 0 ==> end.table[task.id].reported)
  {
    var task := w.replicas[r].tasks[t];
    TaskHolds(w, r, t);
    var next := Step(w, Advance(r, t, input));
    StepKeeps(w, Advance(r, t, input));
    hide Inv, Step;
    TerminalIsFinal(next, actions, task.id);
  }

  /** A cancel that fails leaves the ledger and the handles as they were; one that works leaves nothing running. */
  lemma KillEffects(w: World, r: Runner, t: nat, input: Input)
    requires Inv(w) && r in w.replicas && t in w.replicas[r].tasks
    ensures var task, next := w.replicas[r].tasks[t], Step(w, Advance(r, t, input));
            && (task.Cancelling? ==> next.table == w.table && next.replicas[r].handles == w.replicas[r].handles)
            && (task.Cancelling? && !input.ok ==> t !in next.replicas[r].tasks)
            && (task.Requesting? && input.ok ==>
                  && task.id in next.table && !next.table[task.id].status.Running? && next.table[task.id].reported
                  && (w.table[task.id].status !in ENDED ==> next.table[task.id].status.Stopping?))
  {
    TaskHolds(w, r, t);
  }

  /** A kill that was recorded stands: over any continuation the record stays, reported and not running. */
  lemma KillStands(w: World, r: Runner, t: nat, input: Input, actions: seq<Action>)
    requires Inv(w) && r in w.replicas && t in w.replicas[r].tasks && w.replicas[r].tasks[t].Requesting? && input.ok
    ensures var id := w.replicas[r].tasks[t].id;
            var end := Run(Step(w, Advance(r, t, input)), actions);
            && id in end.table && end.table[id].runner == r && end.table[id].reported && !end.table[id].status.Running?
            && (w.table[id].status in ENDED ==> end.table[id].status == w.table[id].status)
  {
    var id := w.replicas[r].tasks[t].id;
    TaskHolds(w, r, t);
    KillEffects(w, r, t, input);
    StepKeeps(w, Advance(r, t, input));
    StepTable(w, Advance(r, t, input));
    var next := Step(w, Advance(r, t, input));
    assert id in w.issued && w.table[id].runner == r;
    hide Inv, Step;
    IssuedRecordsStay(next, actions, id);
    if w.table[id].status in ENDED {
      TerminalIsFinal(next, actions, id);
    }
  }

  /** A job lost with its process is failed, and whether its end was reported is left as it was. */
  lemma TakeoverFailsTheJob(w: World, r: Runner, now: Time)
    requires Inv(w) && r in w.replicas && w.replicas[r].phase.Booting? && w.replicas[r].phase.pending != []
    ensures var id := w.replicas[r].phase.pending[0];
            var next := Step(w, Takeover(r, true, now));
            && id in w.table && id in next.table && next.table[id].runner == r
            && (w.table[id].status in LIVE ==>
                  next.table[id].status.Failed? && next.table[id].finishedAt == Some(now)
                  && next.table[id].reported == w.table[id].reported)
  {
    assert BootInv(w.table, r, w.replicas[r].phase);
  }

  /** The same record, but for its report, which can only be added. */
  predicate SameButReported(was: Record, now: Record) {
    now == was.(reported := now.reported) && (was.reported ==> now.reported)
  }

  /** Whoever is not the runner stamped on a record can only mark it reported; only a runner adds or removes its records. */
  lemma OnlyTheRunnerMoves(w: World, a: Action, id: JobId)
    requires Inv(w)
    ensures var table, table' := w.table, Step(w, a).table;
            && (id in table && table[id].runner != a.r ==> id in table' && SameButReported(table[id], table'[id]))
            && (id in table && id !in table' ==> table[id].runner == a.r && table[id].status.Running? && id !in w.issued)
            && (id !in table && id in table' ==> table'[id].runner == a.r && table'[id].status.Running?)
  {
    hide Inv, Step;
    StepTable(w, a);
  }

  /** The id a claim is about to try is free in the listing it was computed from. */
  lemma ClaimIsFreshInItsListing(table: Table, entries: seq<Record>, spec: JobSpec, r: Runner, now: Time)
    requires Lists(table, entries) && forall id <- table :: table[id].id == id
    ensures Claim(spec, r, Highest(entries, spec.kind) + 1, now).id !in table
  {
    hide JobIdOf, OrdinalOf, Highest;
    var n := Highest(entries, spec.kind) + 1;
    var id := JobIdOf(spec.kind, n);
    OrdinalOfJobId(spec.kind, n, spec.kind);
    forall i | 0 <= i < |entries|
      ensures entries[i].id != id
    {
      HighestIsABound(entries, spec.kind, i);
    }
  }

  // ---- A job whose process is gone ----

  /** A live record whose runner is not up. */
  ghost predicate Lost(w: World, r: Runner, id: JobId) {
    && r in w.replicas && !w.replicas[r].phase.Up?
    && id in w.table && w.table[id].runner == r && w.table[id].status in LIVE
  }

  /** The record once the takeover has failed it: everything the process had written is as it was. */
  predicate FailedByTakeover(was: Record, now: Record) {
    && now.status == Failed && now.detail == "runner restarted; job was lost with the previous process" && now.finishedAt.Some?
    && now.output == was.output && now.startedAt == was.startedAt && now.spec == was.spec && now.runner == was.runner
    && (was.reported ==> now.reported)
  }

  /** Another replica can only mark the record reported. */
  lemma OthersOnlyReport(w: World, a: Action, r: Runner, id: JobId)
    requires Inv(w) && Lost(w, r, id) && a.r != r
    ensures Lost(Step(w, a), r, id) && SameButReported(w.table[id], Step(w, a).table[id])
  {
    StepTable(w, a);
    OthersUntouched(w, a, r);
    hide Inv, Step;
  }

  lemma OthersUntouched(w: World, a: Action, r: Runner)
    requires a.r != r && r in w.replicas
    ensures r in Step(w, a).replicas && Step(w, a).replicas[r] == w.replicas[r]
  {
    hide TaskStep;
  }

  /** Its own replica, down or booting, holds no task and no handle, so only a takeover can touch the record. */
  lemma OwnerOnlyTakesOver(w: World, a: Action, id: JobId)
    requires Inv(w) && Lost(w, a.r, id)
    ensures var w' := Step(w, a);
            || (Lost(w', a.r, id) && w'.table[id] == w.table[id])
            || (id in w'.table && FailedByTakeover(w.table[id], w'.table[id]))
  {
    var rep := w.replicas[a.r];
    assert rep.tasks == map[] && rep.handles == map[] && BootInv(w.table, a.r, rep.phase);
    hide TaskStep, LedgerInv, HandleInv, TaskInv;
    if a.Takeover? && a.ok && rep.phase.Booting? && rep.phase.pending != [] {
      TakeoverFailsTheJob(w, a.r, a.now);
    }
  }

  /**
    A job whose process is gone ends failed: whatever the replicas do, crashes and failing writes
    included, once the runner is up again the record says lost, with the output it had.
  */
  lemma {:induction false} LostJobsFail(w: World, actions: seq<Action>, r: Runner, id: JobId)
    requires Inv(w) && Lost(w, r, id)
    ensures var end := Run(w, actions);
            && r in end.replicas && id in end.table
            && (end.replicas[r].phase.Up? ==> FailedByTakeover(w.table[id], end.table[id]))
            && (SameButReported(w.table[id], end.table[id]) || FailedByTakeover(w.table[id], end.table[id]))
    decreases |actions|
  {
    hide Inv, Step;
    if actions != [] {
      var next := Step(w, actions[0]);
      StepKeeps(w, actions[0]);
      if actions[0].r == r {
        OwnerOnlyTakesOver(w, actions[0], id);
      } else {
        OthersOnlyReport(w, actions[0], r, id);
      }
      if Lost(next, r, id) {
        LostJobsFail(next, actions[1..], r, id);
      } else {
        ReplicasStay(w, actions[0], r);
        ReplicaStays(next, actions[1..], r);
        TerminalIsFinal(next, actions[1..], id);
      }
    }
  }

  lemma ReplicasStay(w: World, a: Action, r: Runner)
    requires r in w.replicas
    ensures r in Step(w, a).replicas
  {
    hide TaskStep;
  }

  lemma {:induction false} ReplicaStays(w: World, actions: seq<Action>, r: Runner)
    requires r in w.replicas
    ensures r in Run(w, actions).replicas
    decreases |actions|
  {
    hide Step;
    if actions != [] {
      ReplicasStay(w, actions[0], r);
      ReplicaStays(Step(w, actions[0]), actions[1..], r);
    }
  }
}
