/**
  Teardown of a scope (scope/scope.go): cleanups registered with Defer, taken off one by one by
  their own disposers or all at once by Dispose, each call advancing by one locked section at a time.
*/
module ScopeTeardown {
  import opened Outcomes

  /** A cleanup is known by the number it was registered as. */
  type Item = nat

  datatype Task =
    // a single disposer that won its once: before its locked section, then with the cleanup to run
    | TakingOne(item: Item)
    | RunningOne(item: Item)
    // the Dispose that won its once: before its locked section, then with what is left to run
    | TakingAll
    | RunningAll(pending: seq<Item>)

  /**
    order is the list of cleanups not yet taken; onceItems and onceDispose are the sync.Once
    values already entered. ran and ranByDispose record what has been run, by anybody and by Dispose.
  */
  datatype State = State(registered: nat, order: seq<Item>, disposed: bool, onceItems: set<Item>, onceDispose: bool,
                         tasks: map<nat, Task>, ran: seq<Item>, ranByDispose: seq<Item>)

  const START := State(0, [], false, {}, false, map[], [], [])

  datatype Action =
    | Defer
    | CallDisposer(t: nat, item: Item)
    | CallDispose(t: nat)
    | Advance(t: nat)

  function Reversed(items: seq<Item>): (r: seq<Item>)
    ensures |r| == |items|
    ensures forall i :: 0 <= i < |items| ==> r[i] == items[|items| - 1 - i]
  {
    if items == [] then [] else [items[|items| - 1]] + Reversed(items[..|items| - 1])
  }

  function Without(items: seq<Item>, item: Item): (rest: seq<Item>)
    ensures forall x <- rest :: x in items && x != item
    ensures forall x <- items :: x == item || x in rest
  {
    if items == [] then []
    else (if items[0] == item then [] else [items[0]]) + Without(items[1..], item)
  }

  /** Defer: None is ErrScopeDisposed. */
  function DeferOf(s: State): Option<State> {
    if s.disposed then None else Some(s.(registered := s.registered + 1, order := s.order + [s.registered]))
  }

  function AdvanceOf(s: State, t: nat): State
    requires t in s.tasks
  {
    match s.tasks[t]
    case TakingOne(item) =>
      if item in s.order then s.(order := Without(s.order, item), tasks := s.tasks[t := RunningOne(item)])
      else s.(tasks := s.tasks - {t})
    case RunningOne(item) => s.(ran := s.ran + [item], tasks := s.tasks - {t})
    case TakingAll => s.(disposed := true, order := [], tasks := s.tasks[t := RunningAll(Reversed(s.order))])
    case RunningAll(pending) =>
      if pending == [] then s.(tasks := s.tasks - {t})
      else s.(ran := s.ran + [pending[0]], ranByDispose := s.ranByDispose + [pending[0]],
              tasks := s.tasks[t := RunningAll(pending[1..])])
  }

  function Step(s: State, a: Action): State {
    match a
    case Defer => var next := DeferOf(s); if next.None? then s else next.value
    case CallDisposer(t, item) =>
      // A disposer exists once its Defer returned; a second caller only waits for the first.
      if t in s.tasks || item >= s.registered || item in s.onceItems then s
      else s.(onceItems := s.onceItems + {item}, tasks := s.tasks[t := TakingOne(item)])
    case CallDispose(t) =>
      if t in s.tasks || s.onceDispose then s
      else s.(onceDispose := true, tasks := s.tasks[t := TakingAll])
    case Advance(t) => if t in s.tasks then AdvanceOf(s, t) else s
  }

  function Run(s: State, actions: seq<Action>): State
    decreases |actions|
  {
    if actions == [] then s else Run(Step(s, actions[0]), actions[1..])
  }
}
