/**
  Teardown of a scope is exactly once, whatever the interleaving: every registered cleanup is in
  exactly one place at any time.
*/
module ScopeTeardownSafety {
  import opened Outcomes
  import opened ScopeTeardown

  ghost predicate Increasing(items: seq<Item>) {
    forall i, j :: 0 <= i < j < |items| ==> items[i] < items[j]
  }

  ghost predicate Decreasing(items: seq<Item>) {
    forall i, j :: 0 <= i < j < |items| ==> items[i] > items[j]
  }

  ghost predicate NoRepeats(items: seq<Item>) {
    forall i, j :: 0 <= i < j < |items| ==> items[i] != items[j]
  }

  /** The task is going to run the cleanup. */
  predicate WillRun(task: Task, item: Item) {
    (task.RunningOne? && task.item == item) || (task.RunningAll? && item in task.pending)
  }

  predicate IsDispose(task: Task) {
    task.TakingAll? || task.RunningAll?
  }

  ghost predicate Somewhere(s: State, item: Item) {
    item in s.order || item in s.ran || exists t :: t in s.tasks && WillRun(s.tasks[t], item)
  }

  ghost predicate ListsInv(s: State) {
    && Increasing(s.order)
    && (forall x <- s.order :: x < s.registered && x !in s.ran)
    && (forall x <- s.ran :: x < s.registered)
    && NoRepeats(s.ran)
    && (s.disposed ==> s.order == [])
    && (forall item: Item :: item < s.registered ==> Somewhere(s, item))
  }

  ghost predicate TaskInv(s: State, task: Task) {
    && (forall item: Item :: WillRun(task, item) ==> item < s.registered && item !in s.order && item !in s.ran)
    && (task.TakingOne? || task.RunningOne? ==> task.item in s.onceItems)
    && (IsDispose(task) ==> s.onceDispose)
    && (task.RunningAll? ==> s.disposed && Decreasing(s.ranByDispose + task.pending))
    && (task.TakingAll? ==> s.ranByDispose == [] && !s.disposed)
  }

  ghost predicate TasksInv(s: State) {
    && (forall t <- s.tasks :: TaskInv(s, s.tasks[t]))
    && (forall t, u, item: Item | t in s.tasks && u in s.tasks && t != u :: !(WillRun(s.tasks[t], item) && WillRun(s.tasks[u], item)))
    && (forall t, u | t in s.tasks && u in s.tasks && t != u :: !(IsDispose(s.tasks[t]) && IsDispose(s.tasks[u])))
    && (s.onceDispose && !s.disposed ==> exists t :: t in s.tasks && s.tasks[t].TakingAll?)
    && (!s.onceDispose ==> !s.disposed && s.ranByDispose == [])
    && Decreasing(s.ranByDispose)
  }

  ghost predicate Inv(s: State) {
    ListsInv(s) && TasksInv(s)
  }

  lemma WithoutIncreasing(items: seq<Item>, item: Item)
    requires Increasing(items)
    ensures Increasing(Without(items, item))
  {
    if items != [] {
      WithoutIncreasing(items[1..], item);
      var rest := Without(items[1..], item);
      forall i | 0 <= i < |rest| ensures rest[i] > items[0] {
        assert rest[i] in rest && rest[i] in items[1..];
      }
    }
  }

  lemma ReversedDecreases(items: seq<Item>)
    requires Increasing(items)
    ensures Decreasing(Reversed(items)) && (forall x :: x in Reversed(items) <==> x in items)
  {
    var r := Reversed(items);
    forall x | x in items ensures x in r {
      var i :| 0 <= i < |items| && items[i] == x;
      assert r[|items| - 1 - i] == x;
    }
  }

  lemma DeferKeeps(s: State)
    requires Inv(s) && !s.disposed
    ensures Inv(DeferOf(s).value)
  {
    hide WillRun, IsDispose;
    var s' := DeferOf(s).value;
    forall x <- s.order ensures x in s'.order {
    }
    assert s.registered in s'.order by {
      assert s'.order[|s.order|] == s.registered;
    }
    forall item: Item | item < s'.registered ensures Somewhere(s', item) {
      if item < s.registered {
        assert Somewhere(s, item);
      }
    }
    forall x <- s'.order ensures x < s'.registered && x !in s'.ran {
      assert x in s.order || x == s.registered;
    }
    forall i, j | 0 <= i < j < |s'.order| ensures s'.order[i] < s'.order[j] {
      assert s'.order[i] == s.order[i] && s.order[i] in s.order;
    }
    forall t <- s.tasks ensures TaskInv(s', s.tasks[t]) {
      assert TaskInv(s, s.tasks[t]);
    }
  }

  lemma CallDisposerKeeps(s: State, t: nat, item: Item)
    requires Inv(s) && t !in s.tasks && item < s.registered && item !in s.onceItems
    ensures Inv(Step(s, CallDisposer(t, item)))
  {
    var s' := Step(s, CallDisposer(t, item));
    AddedTask(s, s', t, TakingOne(item));
    if s.onceDispose && !s.disposed {
      var u :| u in s.tasks && s.tasks[u].TakingAll?;
      assert s'.tasks[u].TakingAll?;
    }
    forall u <- s.tasks ensures TaskInv(s', s.tasks[u]) {
      assert TaskInv(s, s.tasks[u]);
    }
  }

  /** A new task that is not going to run anything leaves every cleanup where it was. */
  lemma AddedTask(s: State, s': State, t: nat, task: Task)
    requires Inv(s) && t !in s.tasks && s'.tasks == s.tasks[t := task] && forall item: Item :: !WillRun(task, item)
    requires s'.order == s.order && s'.ran == s.ran && s'.registered == s.registered && s'.disposed == s.disposed
    ensures ListsInv(s')
  {
    hide WillRun;
    forall item: Item | item < s.registered ensures Somewhere(s', item) {
      assert Somewhere(s, item);
      if u :| u in s.tasks && WillRun(s.tasks[u], item) {
        assert s'.tasks[u] == s.tasks[u];
      }
    }
  }

  lemma CallDisposeKeeps(s: State, t: nat)
    requires Inv(s) && t !in s.tasks && !s.onceDispose
    ensures Inv(Step(s, CallDispose(t)))
  {
    var s' := Step(s, CallDispose(t));
    AddedTask(s, s', t, TakingAll);
    forall u <- s.tasks ensures TaskInv(s', s.tasks[u]) {
      assert TaskInv(s, s.tasks[u]);
    }
    assert s'.tasks[t].TakingAll?;
  }

  /** A finished task that had nothing to run goes away. */
  lemma DroppedTask(s: State, t: nat)
    requires Inv(s) && t in s.tasks && forall item: Item :: !WillRun(s.tasks[t], item)
    requires !s.tasks[t].TakingAll?
    ensures Inv(s.(tasks := s.tasks - {t}))
  {
    hide WillRun;
    var s' := s.(tasks := s.tasks - {t});
    forall item: Item | item < s.registered ensures Somewhere(s', item) {
      assert Somewhere(s, item);
      if u :| u in s.tasks && WillRun(s.tasks[u], item) {
        assert s'.tasks[u] == s.tasks[u];
      }
    }
    forall u <- s'.tasks ensures TaskInv(s', s'.tasks[u]) {
      assert TaskInv(s, s.tasks[u]);
    }
    if s.onceDispose && !s.disposed {
      var u :| u in s.tasks && s.tasks[u].TakingAll?;
      assert s'.tasks[u].TakingAll?;
    }
  }

  lemma TakeOneKeeps(s: State, t: nat)
    requires Inv(s) && t in s.tasks && s.tasks[t].TakingOne? && s.tasks[t].item in s.order
    ensures Inv(AdvanceOf(s, t))
  {
    var s' := AdvanceOf(s, t);
    var item := s.tasks[t].item;
    WithoutIncreasing(s.order, item);
    assert WillRun(s'.tasks[t], item);
    forall x: Item | x < s.registered ensures Somewhere(s', x) {
      assert Somewhere(s, x);
      if u :| u in s.tasks && WillRun(s.tasks[u], x) {
        assert s'.tasks[u] == s.tasks[u];
      }
    }
    forall u <- s'.tasks ensures TaskInv(s', s'.tasks[u]) {
      assert TaskInv(s, s.tasks[u]);
    }
    if s.onceDispose && !s.disposed {
      var u :| u in s.tasks && s.tasks[u].TakingAll?;
      assert s'.tasks[u].TakingAll?;
    }
  }

  lemma RunOneKeeps(s: State, t: nat)
    requires Inv(s) && t in s.tasks && s.tasks[t].RunningOne?
    ensures Inv(AdvanceOf(s, t))
  {
    var s' := AdvanceOf(s, t);
    var item := s.tasks[t].item;
    assert WillRun(s.tasks[t], item) && TaskInv(s, s.tasks[t]);
    forall x: Item | x < s.registered ensures Somewhere(s', x) {
      assert Somewhere(s, x);
      if u :| u in s.tasks && WillRun(s.tasks[u], x) {
        if u != t {
          assert s'.tasks[u] == s.tasks[u];
        }
      }
    }
    forall u <- s'.tasks ensures TaskInv(s', s'.tasks[u]) {
    }
    if s.onceDispose && !s.disposed {
      var u :| u in s.tasks && s.tasks[u].TakingAll?;
      assert s'.tasks[u].TakingAll?;
    }
  }

  lemma TakeAllKeeps(s: State, t: nat)
    requires Inv(s) && t in s.tasks && s.tasks[t].TakingAll?
    ensures Inv(AdvanceOf(s, t))
  {
    var s' := AdvanceOf(s, t);
    assert TaskInv(s, s.tasks[t]);
    ReversedDecreases(s.order);
    assert s'.ranByDispose + s'.tasks[t].pending == Reversed(s.order);
    forall x: Item | x < s.registered ensures Somewhere(s', x) {
      assert Somewhere(s, x);
      if x in s.order {
        assert WillRun(s'.tasks[t], x);
      } else if u :| u in s.tasks && WillRun(s.tasks[u], x) {
        assert s'.tasks[u] == s.tasks[u];
      }
    }
    forall u <- s'.tasks ensures TaskInv(s', s'.tasks[u]) {
      assert TaskInv(s, s.tasks[u]);
    }
  }

  lemma RunNextKeeps(s: State, t: nat)
    requires Inv(s) && t in s.tasks && s.tasks[t].RunningAll? && s.tasks[t].pending != []
    ensures Inv(AdvanceOf(s, t))
  {
    RunNextLists(s, t);
    RunNextTasks(s, t);
  }

  lemma RunNextLists(s: State, t: nat)
    requires Inv(s) && t in s.tasks && s.tasks[t].RunningAll? && s.tasks[t].pending != []
    ensures ListsInv(AdvanceOf(s, t))
  {
    var s' := AdvanceOf(s, t);
    var item := s.tasks[t].pending[0];
    assert WillRun(s.tasks[t], item) && TaskInv(s, s.tasks[t]);
    PendingShrinks(s.ranByDispose, s.tasks[t].pending);
    forall x: Item | x < s.registered ensures Somewhere(s', x) {
      assert Somewhere(s, x);
      if u :| u in s.tasks && WillRun(s.tasks[u], x) {
        if u != t {
          assert s'.tasks[u] == s.tasks[u];
        } else if x != item {
          assert WillRun(s'.tasks[t], x);
        }
      }
    }
  }

  lemma RunNextTasks(s: State, t: nat)
    requires Inv(s) && t in s.tasks && s.tasks[t].RunningAll? && s.tasks[t].pending != []
    ensures TasksInv(AdvanceOf(s, t))
  {
    var s' := AdvanceOf(s, t);
    var item := s.tasks[t].pending[0];
    assert WillRun(s.tasks[t], item) && TaskInv(s, s.tasks[t]);
    PendingShrinks(s.ranByDispose, s.tasks[t].pending);
    forall u <- s'.tasks | u != t ensures TaskInv(s', s'.tasks[u]) {
    }
    NextStillOwed(s, t);
    assert s'.tasks.Keys == s.tasks.Keys;
    forall u <- s.tasks, x: Item | u != t && WillRun(s'.tasks[t], x) ensures !WillRun(s.tasks[u], x) {
      assert WillRun(s.tasks[t], x);
    }
  }

  lemma NextStillOwed(s: State, t: nat)
    requires Inv(s) && t in s.tasks && s.tasks[t].RunningAll? && s.tasks[t].pending != []
    ensures TaskInv(AdvanceOf(s, t), AdvanceOf(s, t).tasks[t])
    ensures Decreasing(AdvanceOf(s, t).ranByDispose)
  {
    var pending := s.tasks[t].pending;
    assert TaskInv(s, s.tasks[t]);
    PendingShrinks(s.ranByDispose, pending);
    forall x: Item | x in pending[1..] ensures WillRun(s.tasks[t], x) && x != pending[0] {
    }
  }

  lemma PendingShrinks(ran: seq<Item>, pending: seq<Item>)
    requires Decreasing(ran + pending) && pending != []
    ensures ran + pending == ran + [pending[0]] + pending[1..]
    ensures Decreasing(ran + [pending[0]]) && pending[0] !in pending[1..]
    ensures forall x :: x in pending <==> x == pending[0] || x in pending[1..]
  {
    var all := ran + pending;
    assert all == ran + [pending[0]] + pending[1..];
    assert forall i :: 0 <= i < |ran| + 1 ==> (ran + [pending[0]])[i] == all[i];
    forall i | 0 <= i < |pending[1..]| ensures pending[1..][i] != pending[0] {
      assert all[|ran| + 1 + i] == pending[1..][i] && all[|ran|] == pending[0];
    }
    assert pending == [pending[0]] + pending[1..];
  }

  lemma StepKeeps(s: State, a: Action)
    requires Inv(s)
    ensures Inv(Step(s, a))
  {
    hide Inv;
    match a {
      case Defer =>
        if !s.disposed {
          DeferKeeps(s);
        }
      case CallDisposer(t, item) =>
        if t !in s.tasks && item < s.registered && item !in s.onceItems {
          CallDisposerKeeps(s, t, item);
        }
      case CallDispose(t) =>
        if t !in s.tasks && !s.onceDispose {
          CallDisposeKeeps(s, t);
        }
      case Advance(t) =>
        if t in s.tasks {
          AdvanceKeeps(s, t);
        }
    }
  }

  lemma AdvanceKeeps(s: State, t: nat)
    requires Inv(s) && t in s.tasks
    ensures Inv(AdvanceOf(s, t))
  {
    hide Inv;
    var task := s.tasks[t];
    if task.TakingOne? {
      if task.item in s.order {
        TakeOneKeeps(s, t);
      } else {
        DroppedTask(s, t);
      }
    } else if task.RunningOne? {
      RunOneKeeps(s, t);
    } else if task.TakingAll? {
      TakeAllKeeps(s, t);
    } else if task.pending == [] {
      DroppedTask(s, t);
    } else {
      RunNextKeeps(s, t);
    }
  }

  // ---------------------------------------------------------------------------------------------
  // Over every interleaving

  lemma {:induction false} RunKeeps(s: State, actions: seq<Action>)
    requires Inv(s)
    ensures Inv(Run(s, actions))
    decreases |actions|
  {
    hide Inv, Step;
    if actions != [] {
      StepKeeps(s, actions[0]);
      RunKeeps(Step(s, actions[0]), actions[1..]);
    }
  }

  /**
    Whatever the interleaving of registrations, single disposers and Dispose: no cleanup runs
    twice; once all calls have finished, every cleanup registered has run if the scope is disposed,
    and otherwise has run or is still listed; and what Dispose itself ran went in reverse order of
    registration.
  */
  lemma TeardownsRunExactlyOnce(actions: seq<Action>)
    ensures var s := Run(START, actions);
            && NoRepeats(s.ran) && (forall x <- s.ran :: x < s.registered)
            && Decreasing(s.ranByDispose)
            && (s.tasks == map[] && s.onceDispose ==> forall item: Item :: item < s.registered ==> item in s.ran)
            && (s.tasks == map[] && !s.onceDispose ==>
                  forall item: Item :: item < s.registered ==> (item in s.ran) != (item in s.order))
  {
    hide Step;
    RunKeeps(START, actions);
    var s := Run(START, actions);
    if s.tasks == map[] {
      forall item: Item | item < s.registered ensures item in s.order || item in s.ran {
        assert Somewhere(s, item);
      }
    }
  }

  /** Once a scope is disposed it stays disposed and refuses every registration. */
  lemma {:induction false} DisposedRefuses(s: State, actions: seq<Action>)
    requires s.disposed
    ensures Run(s, actions).disposed && Run(s, actions).registered == s.registered
    ensures DeferOf(Run(s, actions)).None?
    decreases |actions|
  {
    if actions != [] {
      DisposedRefuses(Step(s, actions[0]), actions[1..]);
    }
  }

  // ---------------------------------------------------------------------------------------------
  // Calls finish

  /** How many sections a call has left, as the list stands now. */
  function SectionsLeft(s: State, t: nat): nat
    requires t in s.tasks
  {
    match s.tasks[t]
    case TakingOne(_) => 2
    case RunningOne(_) => 1
    case TakingAll => |s.order| + 2
    case RunningAll(pending) => |pending| + 1
  }

  /** Each section brings its call nearer to the end and leaves the other calls where they were. */
  lemma SectionsShrink(s: State, t: nat)
    requires t in s.tasks
    ensures var next := Step(s, Advance(t));
            && (t in next.tasks ==> SectionsLeft(next, t) < SectionsLeft(s, t))
            && next.tasks - {t} == s.tasks - {t} && next.registered == s.registered && next.onceDispose == s.onceDispose
  {
    var next := Step(s, Advance(t));
    if t in next.tasks {
      assert s.tasks[t := next.tasks[t]] - {t} == s.tasks - {t};
    }
    assert s.tasks - {t} - {t} == s.tasks - {t};
  }

  /** A call left to itself finishes. */
  lemma {:induction false} OneFinishes(s: State, t: nat) returns (actions: seq<Action>)
    requires t in s.tasks
    ensures Run(s, actions).tasks == s.tasks - {t}
    ensures Run(s, actions).registered == s.registered && Run(s, actions).onceDispose == s.onceDispose
    decreases SectionsLeft(s, t)
  {
    hide Step, SectionsLeft, Run;
    SectionsShrink(s, t);
    var next := Step(s, Advance(t));
    if t in next.tasks {
      var rest := OneFinishes(next, t);
      actions := [Advance(t)] + rest;
      RunFirst(s, Advance(t), rest);
    } else {
      actions := [Advance(t)];
      RunFirst(s, Advance(t), []);
      RunNothing(next);
      assert [Advance(t)] + [] == [Advance(t)];
      assert next.tasks - {t} == next.tasks;
    }
  }

  lemma RunFirst(s: State, a: Action, rest: seq<Action>)
    ensures Run(s, [a] + rest) == Run(Step(s, a), rest)
  {
    hide Step;
    assert ([a] + rest)[1..] == rest;
  }

  lemma RunNothing(s: State)
    ensures Run(s, []) == s
  {
  }

  lemma {:induction false} RunInTwo(s: State, a: seq<Action>, b: seq<Action>)
    ensures Run(s, a + b) == Run(Run(s, a), b)
    decreases |a|
  {
    hide Step;
    if a == [] {
      assert a + b == b;
    } else {
      assert (a + b)[1..] == a[1..] + b && (a + b)[0] == a[0];
      RunInTwo(Step(s, a[0]), a[1..], b);
    }
  }

  /** Whatever calls are in flight, they can all be brought to their end. */
  lemma {:induction false} AllFinish(s: State) returns (actions: seq<Action>)
    ensures Run(s, actions).tasks == map[]
    ensures Run(s, actions).registered == s.registered && Run(s, actions).onceDispose == s.onceDispose
    decreases |s.tasks|
  {
    hide Step, Run;
    if s.tasks.Keys == {} {
      actions := [];
      RunNothing(s);
      assert s.tasks == map[];
    } else {
      var t :| t in s.tasks;
      var first := OneFinishes(s, t);
      var next := Run(s, first);
      FewerTasks(s.tasks, t);
      var rest := AllFinish(next);
      actions := first + rest;
      RunInTwo(s, first, rest);
    }
  }

  lemma FewerTasks(tasks: map<nat, Task>, t: nat)
    requires t in tasks
    ensures |tasks - {t}| < |tasks|
  {
    assert (tasks - {t}).Keys == tasks.Keys - {t};
  }

  /** So after any run that called Dispose, finishing the calls leaves every registered cleanup run exactly once. */
  lemma DisposalCompletes(actions: seq<Action>) returns (more: seq<Action>)
    requires Run(START, actions).onceDispose
    ensures var s := Run(START, actions + more);
            && s.tasks == map[] && s.registered == Run(START, actions).registered && NoRepeats(s.ran)
            && forall item: Item :: item < s.registered <==> item in s.ran
  {
    hide Run, Step;
    more := AllFinish(Run(START, actions));
    RunInTwo(START, actions, more);
    TeardownsRunExactlyOnce(actions + more);
  }

  /** A disposer of a listed cleanup, called first and left to itself, runs it and takes it off the list. */
  lemma DisposerRuns(s: State, t: nat, item: Item)
    requires t !in s.tasks && item < s.registered && item !in s.onceItems && item in s.order
    ensures var end := Step(Step(Step(s, CallDisposer(t, item)), Advance(t)), Advance(t));
            end.tasks == s.tasks && end.ran == s.ran + [item] && end.order == Without(s.order, item)
  {
    assert s.tasks[t := TakingOne(item)][t := RunningOne(item)] - {t} == s.tasks;
  }

  /** Registering takes the next number to the end of the list, unless the scope is disposed; then it changes nothing. */
  lemma DeferRegisters(s: State)
    ensures var next := Step(s, Defer);
            if s.disposed then next == s
            else next.registered == s.registered + 1 && next.order == s.order + [s.registered] && next.tasks == s.tasks && next.ran == s.ran
  {
  }

  /** Whoever calls a disposer or Dispose a second time changes nothing. */
  lemma SecondCallsDoNothing(s: State, t: nat, item: Item)
    ensures item in s.onceItems ==> Step(s, CallDisposer(t, item)) == s
    ensures s.onceDispose ==> Step(s, CallDispose(t)) == s
    ensures t !in s.tasks && !s.onceDispose ==> t in Step(s, CallDispose(t)).tasks && Step(s, CallDispose(t)).onceDispose
  {
  }
}
