/**
  A kill that ends up at somebody else's job: between looking at a record and finding the handle,
  the job may give its id up to another one (adapter/domainjobs/registry.go).
*/
module DomainJobsRace {
  import opened Outcomes
  import opened Decimals
  import opened JobTypes
  import opened DomainJobs
  import opened DomainJobsSafety
  import opened DomainJobsAccess

  const R: Runner := "r"
  const GO := Input(true, 0, [], None)
  const STOP := Input(false, 0, [], None)

  /** A single replica that is up, nothing announced. */
  function Shape(table: Table, handles: map<JobId, Handle>, tasks: map<nat, Task>, issued: seq<JobId>): World {
    World(table, map[R := Replica(Up, handles, tasks, false)], 1, issued, [])
  }

  const NEW := World(map[], map[R := Replica(Down, map[], map[], false)], 1, [], [])

  function SpecFor(session: string): JobSpec {
    JobSpec("k", "l", 0, session)
  }

  function First(session: string): Record {
    Claim(SpecFor(session), R, 1, 0)
  }

  const ID := JobIdOf("k", 1)

  lemma CallMoves(table: Table, handles: map<JobId, Handle>, tasks: map<nat, Task>, issued: seq<JobId>, t: nat, task: Task)
    requires t !in tasks && (task.KillCalled? || task == Reading(SpecFor("A"), 0) || task == Reading(SpecFor("B"), 0))
    ensures Step(Shape(table, handles, tasks, issued), Call(R, t, task)) == Shape(table, handles, tasks[t := task], issued)
  {
    assert map[R := Replica(Up, handles, tasks, false)][R := Replica(Up, handles, tasks[t := task], false)]
        == map[R := Replica(Up, handles, tasks[t := task], false)];
  }

  lemma AdvanceMoves(table: Table, handles: map<JobId, Handle>, tasks: map<nat, Task>, issued: seq<JobId>, t: nat, input: Input, m: Micro)
    requires t in tasks && m == TaskStep(Shape(table, handles, tasks, issued), R, tasks[t], input) && m.announced == None
    ensures Step(Shape(table, handles, tasks, issued), Advance(R, t, input)) ==
            Shape(m.table, m.handles, if m.next.Some? then tasks[t := m.next.value] else tasks - {t},
                  issued + if m.issued.Some? then [m.issued.value] else [])
  {
    hide TaskStep;
    var after := if m.next.Some? then tasks[t := m.next.value] else tasks - {t};
    assert map[R := Replica(Up, handles, tasks, false)][R := Replica(Up, m.handles, after, false)]
        == map[R := Replica(Up, m.handles, after, false)];
  }

  lemma EmptyLedger()
    ensures Lists(map[], []) && Highest([], "k") == 0 && ActiveCount([], "A") == 0 && ActiveCount([], "B") == 0
  {
  }

  // ---- The pieces of the run ----

  const BOOT: seq<Action> := [Boot(R, []), Takeover(R, true, 0)]

  lemma Boots()
    ensures Initial(NEW) && Run(NEW, BOOT) == Shape(map[], map[], map[], [])
  {
    EmptyLedger();
    hide Lists;
    var booting := NEW.(replicas := map[R := Replica(Booting([]), map[], map[], false)]);
    assert NEW.replicas[R := Replica(Booting([]), map[], map[], false)] == booting.replicas;
    assert ActiveOf([], R) == [];
    assert Step(NEW, BOOT[0]) == booting;
    assert booting.replicas[R := Replica(Up, map[], map[], false)] == map[R := Replica(Up, map[], map[], false)];
    assert Step(booting, BOOT[1]) == Shape(map[], map[], map[], []);
    hide Step;
    TwoSteps(NEW, BOOT);
  }

  function Starting(session: string): seq<Action> {
    [Call(R, 0, Reading(SpecFor(session), 0)), Advance(R, 0, GO), Advance(R, 0, GO), Advance(R, 0, GO)]
  }

  lemma ReadingMoves(session: string, w: World)
    requires session in ["A", "B"] && w.table == map[] && w.limit == 1 && R in w.replicas && w.replicas[R].handles == map[]
    ensures TaskStep(w, R, Reading(SpecFor(session), 0), GO)
         == Micro(Some(Claiming(First(session), 0)), map[], map[], None, None)
  {
    EmptyLedger();
    hide JobIdOf, Lists, Highest, ActiveCount;
  }

  lemma ClaimingMoves(session: string, w: World)
    requires w.table == map[] && R in w.replicas && w.replicas[R].handles == map[]
    ensures TaskStep(w, R, Claiming(First(session), 0), GO)
         == Micro(Some(Claimed(ID)), map[ID := First(session)], map[], None, None)
  {
    hide JobIdOf;
  }

  lemma ClaimedMoves(w: World)
    requires R in w.replicas && w.replicas[R].handles == map[]
    ensures TaskStep(w, R, Claimed(ID), GO) == Micro(Some(Producing(ID)), w.table, map[ID := Handle(false, 0, false)], None, None)
  {
    hide JobIdOf;
  }

  lemma ReadsAt(session: string, tasks: map<nat, Task>)
    requires session in ["A", "B"] && 0 !in tasks
    ensures Step(Shape(map[], map[], tasks[0 := Reading(SpecFor(session), 0)], []), Advance(R, 0, GO)) ==
            Shape(map[], map[], tasks[0 := Claiming(First(session), 0)], [])
  {
    hide Step, TaskStep, JobIdOf, Lists, First, SpecFor;
    var was := tasks[0 := Reading(SpecFor(session), 0)];
    ReadingMoves(session, Shape(map[], map[], was, []));
    AdvanceMoves(map[], map[], was, [], 0, GO, Micro(Some(Claiming(First(session), 0)), map[], map[], None, None));
    assert was[0 := Claiming(First(session), 0)] == tasks[0 := Claiming(First(session), 0)];
  }

  lemma ClaimsAt(session: string, tasks: map<nat, Task>)
    requires 0 !in tasks
    ensures Step(Shape(map[], map[], tasks[0 := Claiming(First(session), 0)], []), Advance(R, 0, GO)) ==
            Shape(map[ID := First(session)], map[], tasks[0 := Claimed(ID)], [])
  {
    hide Step, TaskStep, JobIdOf, Lists, First, SpecFor;
    var was := tasks[0 := Claiming(First(session), 0)];
    ClaimingMoves(session, Shape(map[], map[], was, []));
    AdvanceMoves(map[], map[], was, [], 0, GO, Micro(Some(Claimed(ID)), map[ID := First(session)], map[], None, None));
    assert was[0 := Claimed(ID)] == tasks[0 := Claimed(ID)];
  }

  lemma RegistersAt(session: string, tasks: map<nat, Task>)
    requires 0 !in tasks
    ensures Step(Shape(map[ID := First(session)], map[], tasks[0 := Claimed(ID)], []), Advance(R, 0, GO)) ==
            Shape(map[ID := First(session)], map[ID := Handle(false, 0, false)], tasks[0 := Producing(ID)], [])
  {
    hide Step, TaskStep, JobIdOf, Lists, First, SpecFor;
    var was := tasks[0 := Claimed(ID)];
    ClaimedMoves(Shape(map[ID := First(session)], map[], was, []));
    AdvanceMoves(map[ID := First(session)], map[], was, [], 0, GO,
                 Micro(Some(Producing(ID)), map[ID := First(session)], map[ID := Handle(false, 0, false)], None, None));
    assert was[0 := Producing(ID)] == tasks[0 := Producing(ID)];
  }

  /** A Start on an empty ledger, up to the producer: it claims the first number. */
  lemma Starts1(session: string, tasks: map<nat, Task>)
    requires session in ["A", "B"] && 0 !in tasks
    ensures Run(Shape(map[], map[], tasks, []), Starting(session)) ==
            Shape(map[ID := First(session)], map[ID := Handle(false, 0, false)], tasks[0 := Producing(ID)], [])
  {
    hide Step, TaskStep, JobIdOf, Lists, Run, First, SpecFor, Shape;
    CallMoves(map[], map[], tasks, [], 0, Reading(SpecFor(session), 0));
    ReadsAt(session, tasks);
    ClaimsAt(session, tasks);
    RegistersAt(session, tasks);
    FourSteps(Shape(map[], map[], tasks, []), Starting(session));
  }

  lemma TwoSteps(w: World, actions: seq<Action>)
    requires |actions| == 2
    ensures Run(w, actions) == Step(Step(w, actions[0]), actions[1])
  {
    hide Step;
    assert actions == [actions[0]] + [actions[1]] && [] + [actions[0]] == [actions[0]];
    RunOneMore(w, [], actions[0]);
    RunOneMore(w, [actions[0]], actions[1]);
  }

  lemma FourSteps(w: World, actions: seq<Action>)
    requires |actions| == 4
    ensures Run(w, actions) == Step(Step(Step(Step(w, actions[0]), actions[1]), actions[2]), actions[3])
  {
    hide Step, Run;
    RunInTwo(w, actions[..2], actions[2..]);
    assert actions == actions[..2] + actions[2..];
    TwoSteps(w, actions[..2]);
    TwoSteps(Run(w, actions[..2]), actions[2..]);
  }

  const LOOK: seq<Action> := [Call(R, 1, KillCalled(ID, "A")), Advance(R, 1, GO)]
  const WITHDRAW: seq<Action> := [Advance(R, 0, STOP), Advance(R, 0, GO)]
  const LAND: seq<Action> := [Advance(R, 0, GO), Advance(R, 1, GO)]

  lemma Looks()
    ensures var (table, handles) := (map[ID := First("A")], map[ID := Handle(false, 0, false)]);
            Run(Shape(table, handles, map[0 := Producing(ID)], []), LOOK) ==
            Shape(table, handles, map[0 := Producing(ID), 1 := Killing(ID)], [])
  {
    hide Step, JobIdOf;
    var (table, handles) := (map[ID := First("A")], map[ID := Handle(false, 0, false)]);
    var called: map<nat, Task> := map[0 := Producing(ID), 1 := KillCalled(ID, "A")];
    CallMoves(table, handles, map[0 := Producing(ID)], [], 1, KillCalled(ID, "A"));
    assert map[0 := Producing(ID)][1 := KillCalled(ID, "A")] == called;
    AdvanceMoves(table, handles, called, [], 1, GO, Micro(Some(Killing(ID)), table, handles, None, None));
    assert called[1 := Killing(ID)] == map[0 := Producing(ID), 1 := Killing(ID)];
    TwoSteps(Shape(table, handles, map[0 := Producing(ID)], []), LOOK);
  }

  lemma Withdraws()
    ensures Run(Shape(map[ID := First("A")], map[ID := Handle(false, 0, false)], map[0 := Producing(ID), 1 := Killing(ID)], []), WITHDRAW)
         == Shape(map[], map[], map[1 := Killing(ID)], [])
  {
    hide Step, JobIdOf;
    var (table, handles) := (map[ID := First("A")], map[ID := Handle(false, 0, false)]);
    var tasks: map<nat, Task> := map[0 := Producing(ID), 1 := Killing(ID)];
    var leaving: map<nat, Task> := map[0 := Abandoning(ID), 1 := Killing(ID)];
    assert handles - {ID} == map[] && table - {ID} == map[];
    AdvanceMoves(table, handles, tasks, [], 0, STOP, Micro(Some(Abandoning(ID)), table, map[], None, None));
    assert tasks[0 := Abandoning(ID)] == leaving;
    AdvanceMoves(table, map[], leaving, [], 0, GO, Micro(None, map[], map[], None, None));
    var left: map<nat, Task> := map[1 := Killing(ID)];
    assert leaving - {0} == left;
    assert Step(Shape(table, map[], leaving, []), WITHDRAW[1]) == Shape(map[], map[], left, []);
    TwoSteps(Shape(table, handles, tasks, []), WITHDRAW);
  }

  lemma Lands()
    ensures var (table, handles) := (map[ID := First("B")], map[ID := Handle(false, 0, false)]);
            Run(Shape(table, handles, map[1 := Killing(ID)][0 := Producing(ID)], []), LAND) ==
            Shape(table, map[ID := Handle(true, 0, false)], map[0 := Collecting(ID), 1 := Cancelling(ID)], [ID])
  {
    hide Step, JobIdOf;
    var (table, handles) := (map[ID := First("B")], map[ID := Handle(false, 0, false)]);
    var ready := map[ID := Handle(true, 0, false)];
    var tasks: map<nat, Task> := map[1 := Killing(ID)][0 := Producing(ID)];
    var running: map<nat, Task> := map[0 := Collecting(ID), 1 := Killing(ID)];
    assert handles[ID := Handle(true, 0, false)] == ready;
    AdvanceMoves(table, handles, tasks, [], 0, GO, Micro(Some(Collecting(ID)), table, ready, Some(ID), None));
    assert tasks[0 := Collecting(ID)] == running && [] + [ID] == [ID];
    AdvanceMoves(table, ready, running, [ID], 1, GO, Micro(Some(Cancelling(ID)), table, ready, None, None));
    assert running[1 := Cancelling(ID)] == map[0 := Collecting(ID), 1 := Cancelling(ID)];
    assert [ID] + [] == [ID];
    TwoSteps(Shape(table, handles, tasks, []), LAND);
  }

  const RACE: seq<Action> := BOOT + Starting("A") + LOOK + WITHDRAW + Starting("B") + LAND

  /**
    A kill by session A that looked at A's own record is about to cancel the job of session B: A's
    Start failed in between, its number was free again, and B's Start took it.
  */
  lemma KillCanReachAStranger()
    ensures Initial(NEW)
    ensures Holds(Run(NEW, RACE), R, 1, Cancelling(ID))
    ensures var table := Run(NEW, RACE).table; ID in table && table[ID].spec.ownerSession == "B" && ID in Run(NEW, RACE).issued
    ensures LookedAt(NEW, RACE, R, 1, ID, "A", 7) && ID !in Run(NEW, RACE[..7]).issued
  {
    hide Run, Step, JobIdOf;
    Boots();
    var s1 := Shape(map[], map[], map[], []);
    RunInTwo(NEW, BOOT, Starting("A"));
    Starts1("A", map[]);
    var none: map<nat, Task> := map[];
    assert none[0 := Producing(ID)] == map[0 := Producing(ID)];
    RunInTwo(NEW, BOOT + Starting("A"), LOOK);
    Looks();
    RunInTwo(NEW, BOOT + Starting("A") + LOOK, WITHDRAW);
    Withdraws();
    RunInTwo(NEW, BOOT + Starting("A") + LOOK + WITHDRAW, Starting("B"));
    Starts1("B", map[1 := Killing(ID)]);
    RunInTwo(NEW, BOOT + Starting("A") + LOOK + WITHDRAW + Starting("B"), LAND);
    Lands();
    LookHappened();
  }

  lemma LookHappened()
    ensures LookedAt(NEW, RACE, R, 1, ID, "A", 7) && ID !in Run(NEW, RACE[..7]).issued
  {
    hide Run, Step, JobIdOf;
    var (table, handles) := (map[ID := First("A")], map[ID := Handle(false, 0, false)]);
    var before := BOOT + Starting("A");
    assert RACE[..7] == before + [LOOK[0]] && RACE[7] == LOOK[1];
    Boots();
    RunInTwo(NEW, BOOT, Starting("A"));
    Starts1("A", map[]);
    var none: map<nat, Task> := map[];
    assert none[0 := Producing(ID)] == map[0 := Producing(ID)];
    RunOneMore(NEW, before, LOOK[0]);
    CallMoves(table, handles, map[0 := Producing(ID)], [], 1, KillCalled(ID, "A"));
  }
}
