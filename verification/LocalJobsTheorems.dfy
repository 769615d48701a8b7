/** What the invariant of the in-process registry means over whole runs. */
module LocalJobsTheorems {
  import opened Outcomes
  import opened Decimals
  import opened JobTypes
  import opened LocalJobs
  import opened LocalJobsSafety

  /**
    Every run of the registry: the settled channel of a job is closed exactly once, and exactly
    when it is terminal; no two jobs ever allocated share an id, dropped ones included; the map
    and the list hold the same jobs; listeners hear of a job at most once.
  */
  lemma RegistryIsSafe(actions: seq<Action>)
    ensures var w := Run(INITIAL, actions);
            && (forall i :: 0 <= i < |w.books.jobs| ==>
                  w.books.jobs[i].closes == (if w.books.jobs[i].status in ENDED then 1 else 0))
            && (forall i, j :: 0 <= i < j < |w.books.jobs| ==> w.books.jobs[i].id != w.books.jobs[j].id)
            && IndexInv(w.books)
            && (forall i, j :: 0 <= i < j < |w.heard| ==> w.heard[i].0 != w.heard[j].0)
  {
    hide Step;
    InitialInv();
    RunKeeps(INITIAL, actions);
  }

  lemma InitialInv()
    ensures Inv(INITIAL)
  {
  }

  /** A terminal status absorbs, across every unlocked window, and a report is never taken back. */
  lemma TerminalAbsorbs(w: World, actions: seq<Action>, ref: Ref)
    requires Inv(w) && ref < |w.books.jobs|
    ensures ref < |Run(w, actions).books.jobs|
    ensures w.books.jobs[ref].reported ==> Run(w, actions).books.jobs[ref].reported
    ensures w.books.jobs[ref].status in ENDED ==>
      var was, now := w.books.jobs[ref], Run(w, actions).books.jobs[ref];
      now.status == was.status && now.detail == was.detail && now.output == was.output && now.finishedAt == was.finishedAt
  {
    hide Inv, Step;
    RunKeeps(w, actions);
  }

  /** The first outcome is the job's outcome from then on; every later one is ignored. */
  lemma SettlementStands(w: World, t: nat, input: Input, actions: seq<Action>)
    requires Inv(w) && t in w.tasks && w.tasks[t].Settling? && w.books.jobs[w.tasks[t].ref].status !in ENDED
    ensures var ref, outcome := w.tasks[t].ref, w.tasks[t].outcome;
            var end := Run(Step(w, Advance(t, input)), actions);
            && ref < |end.books.jobs|
            && end.books.jobs[ref].status == outcome.status && end.books.jobs[ref].detail == outcome.detail
            && end.books.jobs[ref].output == outcome.output && end.books.jobs[ref].finishedAt == Some(input.now)
  {
    TaskHolds(w, t);
    StepKeeps(w, Advance(t, input));
    var next := Step(w, Advance(t, input));
    hide Inv, Step;
    TerminalAbsorbs(next, actions, w.tasks[t].ref);
  }

  /** A cancel that fails changes nothing; one that works leaves the job reported and not running. */
  lemma KillEffects(w: World, t: nat, input: Input)
    requires Inv(w) && t in w.tasks && (w.tasks[t].Cancelling? || w.tasks[t].Requesting?)
    ensures var ref, next := w.tasks[t].ref, Step(w, Advance(t, input));
            && (w.tasks[t].Cancelling? ==> next.books == w.books && (!input.ok ==> t !in next.tasks))
            && (w.tasks[t].Requesting? ==>
                  next.books.jobs[ref].reported && !next.books.jobs[ref].status.Running?
                  && (w.books.jobs[ref].status !in ENDED ==> next.books.jobs[ref].status.Stopping?))
  {
    TaskHolds(w, t);
  }

  /** Once a cancel worked and was recorded, the job is reported and never runs again, whatever happens after. */
  lemma KillStands(w: World, t: nat, input: Input, actions: seq<Action>)
    requires Inv(w) && t in w.tasks && w.tasks[t].Requesting?
    ensures var ref := w.tasks[t].ref;
            var end := Run(Step(w, Advance(t, input)), actions);
            && ref < |end.books.jobs| && end.books.jobs[ref].reported && !end.books.jobs[ref].status.Running?
  {
    KillEffects(w, t, input);
    TaskHolds(w, t);
    StepKeeps(w, Advance(t, input));
    var next := Step(w, Advance(t, input));
    hide Inv, Step;
    RunKeeps(next, actions);
  }

  /** Whoever waits when a job settles makes the announced snapshot say reported. */
  lemma WaiterClaimsTheReport(w: World, t: nat, waiter: nat, input: Input)
    requires Inv(w) && t in w.tasks && waiter in w.tasks
    requires w.tasks[t].Settling? && w.tasks[waiter] == Waiting(w.tasks[t].ref)
    requires w.books.jobs[w.tasks[t].ref].status !in ENDED
    ensures var next := Step(w, Advance(t, input)).tasks[t];
            next.Announcing? && next.ref == w.tasks[t].ref && next.snapshot.reported
            && next.snapshot.status == w.tasks[t].outcome.status
  {
    var ref := w.tasks[t].ref;
    TaskHolds(w, t);
    assert waiter in WaitersOn(w.tasks, ref);
    assert w.books.jobs[ref].waiters > 0;
  }

  /** The k-th listed job carries the id and is open to the session. */
  predicate ListedFor(b: Books, k: nat, id: JobId, session: string) {
    && k < |b.order| && b.order[k] < |b.jobs|
    && b.jobs[b.order[k]].id == id
    && (b.jobs[b.order[k]].spec.owner.None? || b.jobs[b.order[k]].spec.owner.value == session)
  }

  /** Looking a job up by id reaches exactly what the list shows the same caller under that id. */
  lemma ReachIsExact(w: World, id: JobId, session: string)
    requires Inv(w)
    ensures Reach(w.books, id, session).Some? <==> exists k: nat :: ListedFor(w.books, k, id, session)
    ensures forall k: nat :: ListedFor(w.books, k, id, session) ==> Reach(w.books, id, session) == Some(w.books.order[k])
  {
    hide TasksInv, WaitersInv, HeardInv, JobInv, IdsInv;
    var found := Reach(w.books, id, session);
    if found.Some? {
      var k: nat :| k < |w.books.order| && w.books.order[k] == found.value;
      assert ListedFor(w.books, k, id, session);
    }
    forall k: nat | ListedFor(w.books, k, id, session)
      ensures id in w.books.store && w.books.store[id] == w.books.order[k]
    {
      assert w.books.order[k] in w.books.order;
    }
  }
}
