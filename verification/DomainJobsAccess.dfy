/**
  Who gets at a job of the multi-replica registry: the fence around a job with an owner, over whole
  runs (adapter/domainjobs/registry.go).
*/
module DomainJobsAccess {
  import opened Outcomes
  import opened Decimals
  import opened JobTypes
  import opened DomainJobs
  import opened DomainJobsSafety
  import opened DomainJobsTheorems

  /** The record is nobody's in particular, or this session's. */
  predicate OpenTo(record: Record, session: string) {
    record.spec.ownerSession == "" || record.spec.ownerSession == session
  }

  ghost predicate Holds(w: World, r: Runner, t: nat, task: Task) {
    r in w.replicas && t in w.replicas[r].tasks && w.replicas[r].tasks[t] == task
  }

  ghost predicate Busy(w: World, r: Runner, t: nat) {
    r in w.replicas && t in w.replicas[r].tasks
  }

  /** A call to kill or to read a job that has not looked at its record yet. */
  predicate Calls(task: Task, id: JobId, session: string) {
    task == KillCalled(id, session) || task == ReadCalled(id, session)
  }

  /** A kill or a read that has got past looking at the record. */
  predicate Inside(task: Task) {
    task.Killing? || task.Cancelling? || task.Requesting? || task.Marking?
  }

  // ---- One look at the record ----

  /** A kill goes on exactly when the record is read, is there and is open to the session; a refused one leaves no trace. */
  lemma KillLooks(w: World, r: Runner, t: nat, id: JobId, session: string, input: Input)
    requires Holds(w, r, t, KillCalled(id, session))
    ensures var next := Step(w, Advance(r, t, input));
            && (Busy(next, r, t) <==> input.ok && id in w.table && OpenTo(w.table[id], session))
            && (Busy(next, r, t) ==> Holds(next, r, t, if w.table[id].status.IsTerminal() then Marking(id) else Killing(id)))
            && next.table == w.table && next.replicas[r].handles == w.replicas[r].handles
  {
  }

  /** A read goes on to mark the report exactly when, besides, the job has ended. */
  lemma ReadLooks(w: World, r: Runner, t: nat, id: JobId, session: string, input: Input)
    requires Holds(w, r, t, ReadCalled(id, session))
    ensures var next := Step(w, Advance(r, t, input));
            && (Busy(next, r, t) <==>
                  input.ok && id in w.table && OpenTo(w.table[id], session) && w.table[id].status.IsTerminal())
            && (Busy(next, r, t) ==> Holds(next, r, t, Marking(id)))
            && next.table == w.table && next.replicas[r].handles == w.replicas[r].handles
  {
  }

  // ---- Whole runs ----

  lemma {:induction false} RunOneMore(w: World, actions: seq<Action>, a: Action)
    ensures Run(w, actions + [a]) == Step(Run(w, actions), a)
    decreases |actions|
  {
    hide Step;
    if actions == [] {
      assert [a][1..] == [] && actions + [a] == [a];
    } else {
      assert (actions + [a])[1..] == actions[1..] + [a] && (actions + [a])[0] == actions[0];
      RunOneMore(Step(w, actions[0]), actions[1..], a);
    }
  }

  /** The call task t of replica r works for session, and looked at the record of id just before action j. */
  ghost predicate LookedAt(w: World, actions: seq<Action>, r: Runner, t: nat, id: JobId, session: string, j: nat) {
    && j < |actions| && actions[j].Advance? && actions[j].r == r && actions[j].t == t
    && var then_ := Run(w, actions[..j]);
    && Busy(then_, r, t) && Calls(then_.replicas[r].tasks[t], id, session)
    && id in then_.table && OpenTo(then_.table[id], session)
  }

  /** From action j on the task has been there all the time. */
  ghost predicate StaysFrom(w: World, actions: seq<Action>, r: Runner, t: nat, j: nat) {
    forall m :: j < m <= |actions| ==> Busy(Run(w, actions[..m]), r, t)
  }

  ghost predicate Admitted(w: World, actions: seq<Action>, r: Runner, t: nat, id: JobId) {
    exists session, j: nat :: LookedAt(w, actions, r, t, id, session, j) && StaysFrom(w, actions, r, t, j)
  }

  /** The steps of starting, settling and tearing down a job never lead into a kill or a read. */
  lemma OtherStepsStayOut(w: World, r: Runner, task: Task, input: Input)
    requires r in w.replicas
    requires task.Reading? || task.Claiming? || task.Claimed? || task.Producing? || task.Abandoning?
             || task.Collecting? || task.Settling? || task.Committing? || task.Announcing?
             || task.TearingDown? || task.TearingCancel?
    ensures var next := TaskStep(w, r, task, input).next; next.Some? ==> !Inside(next.value)
  {
    hide Highest, ActiveCount, Lists, JobIdOf, Claim, Collected, Settled, TornDown;
  }

  lemma CallStepsGoIn(w: World, r: Runner, task: Task, input: Input)
    requires r in w.replicas && (Inside(task) || task.KillCalled? || task.ReadCalled?)
    ensures var next := TaskStep(w, r, task, input).next;
            next.Some? ==>
              && Inside(next.value) && next.value.id == task.id
              && (!Inside(task) ==> task.id in w.table && OpenTo(w.table[task.id], task.session))
  {
  }

  lemma AdvanceInto(w: World, r: Runner, t: nat, input: Input)
    requires Busy(w, r, t)
    ensures var (was, next) := (w.replicas[r].tasks[t], Step(w, Advance(r, t, input)));
            Busy(next, r, t) && Inside(next.replicas[r].tasks[t]) ==>
              var id := next.replicas[r].tasks[t].id;
              && (Inside(was) || was.KillCalled? || was.ReadCalled?) && was.id == id
              && (!Inside(was) ==> id in w.table && OpenTo(w.table[id], was.session))
  {
    hide TaskStep, OpenTo;
    var was := w.replicas[r].tasks[t];
    if Inside(was) || was.KillCalled? || was.ReadCalled? {
      CallStepsGoIn(w, r, was, input);
    } else {
      OtherStepsStayOut(w, r, was, input);
    }
  }

  /** Any other action leaves the task alone, ends it, or starts a new call in its place. */
  lemma OtherActions(w: World, a: Action, r: Runner, t: nat)
    requires !(a.Advance? && a.r == r && a.t == t)
    ensures Busy(Step(w, a), r, t) && Inside(Step(w, a).replicas[r].tasks[t]) ==>
              Busy(w, r, t) && w.replicas[r].tasks[t] == Step(w, a).replicas[r].tasks[t]
  {
    hide TaskStep;
  }

  lemma AdmittedStays(w: World, before: seq<Action>, a: Action, r: Runner, t: nat, id: JobId)
    requires Admitted(w, before, r, t, id) && Busy(Run(w, before + [a]), r, t)
    ensures Admitted(w, before + [a], r, t, id)
  {
    hide Run, Busy, OpenTo;
    var actions := before + [a];
    var session, j: nat :| LookedAt(w, before, r, t, id, session, j) && StaysFrom(w, before, r, t, j);
    assert forall m :: 0 <= m <= |before| ==> actions[..m] == before[..m];
    assert actions[..|actions|] == actions && actions[j] == before[j];
    assert LookedAt(w, actions, r, t, id, session, j) && StaysFrom(w, actions, r, t, j);
  }

  lemma AdmittedNow(w: World, before: seq<Action>, a: Action, r: Runner, t: nat, id: JobId, session: string)
    requires a.Advance? && a.r == r && a.t == t
    requires var then_ := Run(w, before);
             Busy(then_, r, t) && Calls(then_.replicas[r].tasks[t], id, session) && id in then_.table && OpenTo(then_.table[id], session)
    requires Busy(Run(w, before + [a]), r, t)
    ensures Admitted(w, before + [a], r, t, id)
  {
    hide Run, Busy, OpenTo, Calls;
    var actions := before + [a];
    assert actions[..|before|] == before && actions[..|actions|] == actions && actions[|before|] == a;
    assert LookedAt(w, actions, r, t, id, session, |before|) && StaysFrom(w, actions, r, t, |before|);
  }

  /**
    Over every run, whoever is inside a kill or a read of a job was let in: its own call looked at the
    record while that was nobody's or the caller's own, and has been on its way since.
  */
  lemma {:induction false} InsideWasAdmitted(w: World, actions: seq<Action>, r: Runner, t: nat)
    requires Initial(w)
    requires var end := Run(w, actions); Busy(end, r, t) && Inside(end.replicas[r].tasks[t])
    ensures Admitted(w, actions, r, t, Run(w, actions).replicas[r].tasks[t].id)
    decreases |actions|
  {
    hide Run, Step, Admitted, OpenTo;
    if actions == [] {
      NothingRuns(w, r, t);
    } else {
      var (before, a) := (actions[..|actions| - 1], actions[|actions| - 1]);
      assert actions == before + [a];
      RunOneMore(w, before, a);
      var prior := Run(w, before);
      var id := Run(w, actions).replicas[r].tasks[t].id;
      if a.Advance? && a.r == r && a.t == t {
        AdvanceFromRunning(prior, r, t, a.input);
        AdvanceInto(prior, r, t, a.input);
        var was := prior.replicas[r].tasks[t];
        if Inside(was) {
          InsideWasAdmitted(w, before, r, t);
          AdmittedStays(w, before, a, r, t, id);
        } else {
          AdmittedNow(w, before, a, r, t, id, was.session);
        }
      } else {
        OtherActions(prior, a, r, t);
        InsideWasAdmitted(w, before, r, t);
        AdmittedStays(w, before, a, r, t, id);
      }
    }
  }

  lemma NothingRuns(w: World, r: Runner, t: nat)
    requires Initial(w)
    ensures !Busy(Run(w, []), r, t)
  {
  }

  lemma AdvanceFromRunning(w: World, r: Runner, t: nat, input: Input)
    ensures Busy(Step(w, Advance(r, t, input)), r, t) ==> Busy(w, r, t)
  {
    hide TaskStep;
  }

  lemma {:induction false} RunInTwo(w: World, a: seq<Action>, b: seq<Action>)
    ensures Run(w, a + b) == Run(Run(w, a), b)
    decreases |a|
  {
    hide Step;
    if a == [] {
      assert a + b == b;
    } else {
      assert (a + b)[1..] == a[1..] + b && (a + b)[0] == a[0];
      RunInTwo(Step(w, a[0]), a[1..], b);
    }
  }

  /**
    A job whose id was returned is safe from strangers for good: a call that was let in to it works for
    a session the record, as it is now, is open to.
  */
  lemma NoStrangerInside(w: World, actions: seq<Action>, r: Runner, t: nat, session: string, j: nat)
    requires Initial(w) && Busy(Run(w, actions), r, t) && Inside(Run(w, actions).replicas[r].tasks[t])
    requires LookedAt(w, actions, r, t, Run(w, actions).replicas[r].tasks[t].id, session, j)
    requires Run(w, actions).replicas[r].tasks[t].id in Run(w, actions[..j]).issued
    ensures var id := Run(w, actions).replicas[r].tasks[t].id;
            id in Run(w, actions).table && OpenTo(Run(w, actions).table[id], session)
  {
    hide Run, Step, Inv, Calls;
    var id := Run(w, actions).replicas[r].tasks[t].id;
    InitialInv(w);
    RunKeeps(w, actions[..j]);
    RunInTwo(w, actions[..j], actions[j..]);
    assert actions[..j] + actions[j..] == actions;
    IssuedRecordsStay(Run(w, actions[..j]), actions[j..], id);
  }
}
