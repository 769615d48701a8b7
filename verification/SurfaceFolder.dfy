/**
  The mutable side of sessionlog/surface.go: the node slice that is spliced in place, the batch
  loop FoldSurface, and the incremental SurfaceFolder, each proved against Surface.Fold.
*/
module SurfaceFolding {
  import opened Outcomes
  import opened SessionEvents
  import opened Surface

  /** The state shared by the batch fold and the incremental one; nodes live in a growing slice. */
  class SurfaceState {
    var buffer: array<int>
    var length: nat
    var replaceGeneration: nat

    ghost predicate Valid()
      reads this
    {
      length <= buffer.Length
    }

    ghost function Nodes(): seq<int>
      requires Valid()
      reads this, buffer
    {
      buffer[..length]
    }

    constructor ()
      ensures Valid() && fresh(buffer)
      ensures Nodes() == [] && replaceGeneration == 0
    {
      buffer := new int[4];
      length := 0;
      replaceGeneration := 0;
    }

    method Append(x: int)
      requires Valid()
      modifies this`buffer, this`length, buffer
      ensures Valid() && (buffer == old(buffer) || fresh(buffer))
      ensures Nodes() == old(Nodes()) + [x]
    {
      if length == buffer.Length {
        var grown := new int[2 * buffer.Length + 1];
        for i := 0 to length
          modifies grown
          invariant grown[..i] == buffer[..i]
        {
          grown[i] := buffer[i];
        }
        buffer := grown;
      }
      buffer[length] := x;
      length := length + 1;
    }

    /** Overwrites nodes start..end with the single node x, moving the copied tail left in place. */
    method Splice(x: int, start: nat, end: nat)
      requires Valid() && start <= end < length
      modifies this`length, buffer
      ensures Valid()
      ensures Nodes() == old(Nodes())[..start] + [x] + old(Nodes())[end + 1..]
    {
      ghost var was := Nodes();
      var tail := buffer[end + 1..length];
      buffer[start] := x;
      for i := 0 to |tail|
        invariant buffer[..start] == was[..start] && buffer[start] == x
        invariant buffer[start + 1..start + 1 + i] == tail[..i]
      {
        buffer[start + 1 + i] := tail[i];
        assert tail[..i + 1] == tail[..i] + [tail[i]];
      }
      length := start + 1 + |tail|;
      assert tail[..|tail|] == tail == was[end + 1..];
      assert buffer[..length] == buffer[..start] + [buffer[start]] + buffer[start + 1..length];
    }

    method Apply(plan: Plan) returns (replacement: Option<Replacement>)
      requires Valid() && PlanFits(Nodes(), plan)
      modifies this, buffer
      ensures Valid() && (buffer == old(buffer) || fresh(buffer))
      ensures var step := ApplyPlan(Folded(old(Nodes()), []), plan);
              && Nodes() == step.nodes
              && replaceGeneration == old(replaceGeneration) + |step.replacements|
              && step.replacements == if replacement.Some? then [replacement.value] else []
    {
      replacement := None;
      match plan
      case NoPlan =>
      case PlanAppend(s) =>
        Append(s);
      case PlanReplace(s, start, end, startIndex, endIndex, shadowed) =>
        Splice(s, startIndex, endIndex);
        replaceGeneration := replaceGeneration + 1;
        replacement := Some(Replacement(s, start, end, shadowed));
    }
  }

  /** Folding one more event, with only the earlier ones at hand. */
  lemma FoldOneMore(events: seq<Event>, event: Event, baseSeq: int)
    requires Fold(events, baseSeq).Ok?
    ensures var f := Fold(events, baseSeq).value;
            var plan := PlanEvent(f.nodes, event, baseSeq + |events|, events, baseSeq);
            Fold(events + [event], baseSeq) == if plan.Ok? then Ok(ApplyPlan(f, plan.value)) else Err(plan.error)
  {
    hide PlanEvent;
    var log := events + [event];
    BatchEqualsIncremental(log, baseSeq, |events|);
    assert log[..|events|] == events;
    FoldedLog(log, baseSeq, |events|);
    PlanReadsOnlyPast(Fold(events, baseSeq).value.nodes, log, baseSeq, |events|);
  }

  lemma NothingFolded(events: seq<Event>, baseSeq: int)
    ensures FoldPrefix(events, baseSeq, 0) == Ok(Folded([], []))
  {
  }

  lemma FoldStep(events: seq<Event>, baseSeq: int, n: nat, before: Folded)
    requires n < |events| && FoldPrefix(events, baseSeq, n) == Ok(before)
    ensures var plan := PlanEvent(before.nodes, events[n], baseSeq + n, events, baseSeq);
            FoldPrefix(events, baseSeq, n + 1) == if plan.Ok? then Ok(ApplyPlan(before, plan.value)) else Err(plan.error)
  {
    hide PlanEvent, ApplyPlan;
  }

  /** Applying a plan changes the nodes by themselves and adds its replacement to the list. */
  lemma AppliedParts(f: Folded, plan: Plan)
    requires PlanFits(f.nodes, plan)
    ensures var alone := ApplyPlan(Folded(f.nodes, []), plan);
            ApplyPlan(f, plan) == Folded(alone.nodes, f.replacements + alone.replacements)
  {
  }

  method FoldSurface(events: seq<Event>, baseSeq: int) returns (r: Result<Folded, LogError>)
    ensures r == Fold(events, baseSeq)
  {
    hide PlanEvent, ApplyPlan, FoldPrefix;
    var state := new SurfaceState();
    var replacements: seq<Replacement> := [];
    NothingFolded(events, baseSeq);
    for n := 0 to |events|
      invariant state.Valid() && fresh(state) && fresh(state.buffer)
      invariant FoldPrefix(events, baseSeq, n) == Ok(Folded(state.Nodes(), replacements))
    {
      var plan := PlanEvent(state.buffer[..state.length], events[n], baseSeq + n, events, baseSeq);
      ghost var before := Folded(state.Nodes(), replacements);
      FoldStep(events, baseSeq, n, before);
      if plan.Err? {
        FailurePersists(events, baseSeq, n + 1, |events|);
        return Err(plan.error);
      }
      AppliedParts(before, plan.value);
      var replacement := state.Apply(plan.value);
      if replacement.Some? {
        replacements := replacements + [replacement.value];
      }
      assert ApplyPlan(before, plan.value) == Folded(state.Nodes(), replacements);
    }
    return Ok(Folded(state.buffer[..state.length], replacements));
  }

  lemma {:induction false} FailurePersists(events: seq<Event>, baseSeq: int, m: nat, n: nat)
    requires m <= n <= |events| && FoldPrefix(events, baseSeq, m).Err?
    ensures FoldPrefix(events, baseSeq, n) == FoldPrefix(events, baseSeq, m)
  {
    hide PlanEvent;
    if m < n {
      FailurePersists(events, baseSeq, m, n - 1);
    }
  }

  /** The incremental view, which is also the check in front of every append to the log. */
  class SurfaceFolder {
    const state: SurfaceState
    var events: seq<Event>
    const baseSeq: int

    ghost predicate Valid()
      reads this, state, state.buffer
    {
      && state.Valid()
      && Fold(events, baseSeq).Ok?
      && state.Nodes() == Fold(events, baseSeq).value.nodes
      && state.replaceGeneration == |Fold(events, baseSeq).value.replacements|
    }

    constructor (baseSeq: int)
      ensures Valid() && fresh(state) && fresh(state.buffer)
      ensures events == [] && this.baseSeq == baseSeq
    {
      state := new SurfaceState();
      events := [];
      this.baseSeq := baseSeq;
    }

    /** Accepts exactly the events with which the log still folds, and changes nothing. */
    method ValidateNext(event: Event) returns (error: Option<LogError>)
      requires Valid()
      ensures match Fold(events + [event], baseSeq)
              case Ok(_) => error == None
              case Err(e) => error == Some(e)
    {
      hide PlanEvent;
      FoldOneMore(events, event, baseSeq);
      var plan := PlanEvent(state.buffer[..state.length], event, baseSeq + |events|, events, baseSeq);
      return if plan.Err? then Some(plan.error) else None;
    }

    /** Takes an event in exactly when ValidateNext would; a refused event leaves no trace. */
    method Push(event: Event) returns (r: Result<Option<Replacement>, LogError>)
      requires Valid()
      modifies this, state, state.buffer
      ensures Valid() && (state.buffer == old(state.buffer) || fresh(state.buffer))
      ensures match Fold(old(events) + [event], baseSeq)
              case Ok(f) =>
                && events == old(events) + [event] && r.Ok?
                && f.replacements == old(Fold(events, baseSeq)).value.replacements +
                                     (if r.value.Some? then [r.value.value] else [])
              case Err(e) => r == Err(e) && events == old(events) && state.Nodes() == old(state.Nodes())
    {
      hide PlanEvent;
      FoldOneMore(events, event, baseSeq);
      var plan := PlanEvent(state.buffer[..state.length], event, baseSeq + |events|, events, baseSeq);
      if plan.Err? {
        return Err(plan.error);
      }
      var replacement := state.Apply(plan.value);
      events := events + [event];
      return Ok(replacement);
    }
  }

  /** Feeding a log event by event gives the batch fold's surface, or its first failure. */
  method PushAll(events: seq<Event>, baseSeq: int) returns (folder: SurfaceFolder, failure: Option<LogError>)
    ensures folder.Valid() && folder.baseSeq == baseSeq
    ensures match Fold(events, baseSeq)
            case Ok(f) => failure == None && folder.events == events && folder.state.Nodes() == f.nodes
            case Err(e) => failure == Some(e)
  {
    hide PlanEvent;
    folder := new SurfaceFolder(baseSeq);
    for n := 0 to |events|
      invariant folder.Valid() && folder.baseSeq == baseSeq
      invariant fresh(folder) && fresh(folder.state) && fresh(folder.state.buffer)
      invariant folder.events == events[..n] && FoldPrefix(events, baseSeq, n).Ok?
    {
      BatchEqualsIncremental(events, baseSeq, n + 1);
      assert events[..n + 1] == events[..n] + [events[n]];
      var pushed := folder.Push(events[n]);
      if pushed.Err? {
        FailurePersists(events, baseSeq, n + 1, |events|);
        return folder, Some(pushed.error);
      }
    }
    assert events[..|events|] == events;
    return folder, None;
  }
}
