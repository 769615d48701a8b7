/** The scope object of scope/scope.go with its list of cleanups, one caller at a time. */
module ScopeCleanup {
  import opened Outcomes

  /** A registered cleanup; failure is what running it reports. runs counts its executions. */
  class Teardown {
    const name: string
    const failure: Option<string>
    var alive: bool
    var onceDone: bool
    var err: Option<string>
    var runs: nat

    constructor (name: string, failure: Option<string>)
      ensures this.name == name && this.failure == failure
      ensures alive && !onceDone && runs == 0 && err == None
    {
      this.name, this.failure := name, failure;
      alive, onceDone, err, runs := true, false, None, 0;
    }

    method Execute() returns (e: Option<string>)
      modifies this`runs
      ensures runs == old(runs) + 1 && e == failure
    {
      runs := runs + 1;
      e := failure;
    }
  }

  /** The failures of a list of cleanups, in the order they run. */
  function Failures(items: seq<Teardown>): (failures: seq<(string, string)>)
    ensures |failures| <= |items|
    // No failure is dropped and none is made up.
    ensures forall i :: 0 <= i < |items| && items[i].failure.Some? ==> (items[i].name, items[i].failure.value) in failures
    ensures forall f <- failures :: exists i :: 0 <= i < |items| && items[i].name == f.0 && items[i].failure == Some(f.1)
  {
    if items == [] then []
    else
      var last := items[|items| - 1];
      Failures(items[..|items| - 1]) + if last.failure.Some? then [(last.name, last.failure.value)] else []
  }

  class Scope {
    var order: seq<Teardown>
    var disposed: bool
    var onceDone: bool
    var err: seq<(string, string)>

    /** Listed cleanups are alive, distinct and have not run; a disposed scope lists none. */
    ghost predicate Valid()
      reads this, order
    {
      && (forall i :: 0 <= i < |order| ==> order[i].alive && order[i].runs == 0)
      && (forall i, j :: 0 <= i < j < |order| ==> order[i] != order[j])
      && (disposed ==> order == [])
      && (disposed <==> onceDone)
    }

    constructor ()
      ensures Valid() && order == [] && !disposed
    {
      order, disposed, onceDone, err := [], false, false, [];
    }

    /** Defer; null is ErrScopeDisposed. */
    method Defer(name: string, failure: Option<string>) returns (element: Teardown?)
      requires Valid()
      modifies this`order
      ensures Valid()
      ensures element == null <==> disposed
      ensures element == null ==> order == old(order)
      ensures element != null ==> fresh(element) && order == old(order) + [element] && !element.onceDone
    {
      if disposed {
        return null;
      }
      element := new Teardown(name, failure);
      order := order + [element];
    }

    /** The disposer of one cleanup: runs it if it is still listed, at most once however often it is called. */
    method DisposeOne(element: Teardown) returns (e: Option<string>)
      requires Valid() && (element.alive <==> element in order)
      modifies this`order, element
      ensures Valid() && (element.alive <==> element in order)
      ensures element.onceDone && e == element.err
      ensures old(element.onceDone) ==> order == old(order) && element.runs == old(element.runs) && e == old(element.err)
      ensures !old(element.onceDone) && element in old(order) ==>
        element.runs == 1 && e == element.failure && element !in order && multiset(order) == multiset(old(order)) - multiset{element}
      ensures !old(element.onceDone) && element !in old(order) ==>
        element.runs == old(element.runs) && order == old(order)
    {
      if !element.onceDone {
        element.onceDone := true;
        var taken := element.alive;
        if taken {
          var at := Position(order, element);
          RemoveOnce(order, at);
          order := order[..at] + order[at + 1..];
          element.alive := false;
          element.err := element.Execute();
        }
      }
      e := element.err;
    }

    /** Dispose: everything listed runs, last registered first, failures included; a second call changes nothing. */
    method Dispose() returns (failures: seq<(string, string)>)
      requires Valid()
      modifies this, order
      ensures Valid() && disposed && order == [] && failures == err
      ensures old(onceDone) ==> unchanged(this)
      ensures !old(onceDone) ==> forall i :: 0 <= i < |old(order)| ==> old(order)[i].runs == 1 && !old(order)[i].alive
      ensures !old(onceDone) ==> failures == Failures(Backwards(old(order)))
    {
      if !onceDone {
        onceDone := true;
        disposed := true;
        var listed := order;
        BackwardsIsPermutation(listed);
        order := [];
        err := RunEach(Backwards(listed));
      }
      failures := err;
    }
  }

  /** The loop that runs every pending cleanup and collects what failed. */
  method RunEach(pending: seq<Teardown>) returns (failures: seq<(string, string)>)
    requires forall i, j :: 0 <= i < j < |pending| ==> pending[i] != pending[j]
    requires forall i :: 0 <= i < |pending| ==> pending[i].runs == 0
    modifies pending
    ensures failures == Failures(pending)
    ensures forall i :: 0 <= i < |pending| ==> pending[i].runs == 1 && !pending[i].alive
  {
    failures := [];
    for i := 0 to |pending|
      invariant failures == Failures(pending[..i])
      invariant forall k :: 0 <= k < i ==> pending[k].runs == 1 && !pending[k].alive
      invariant forall k :: i <= k < |pending| ==> pending[k].runs == 0
    {
      pending[i].alive := false;
      var e := pending[i].Execute();
      assert pending[..i + 1][..i] == pending[..i];
      if e.Some? {
        failures := failures + [(pending[i].name, e.value)];
      }
    }
    assert pending[..|pending|] == pending;
  }

  function Backwards(items: seq<Teardown>): (r: seq<Teardown>)
    ensures |r| == |items|
    ensures forall i :: 0 <= i < |items| ==> r[i] == items[|items| - 1 - i]
  {
    seq(|items|, i requires 0 <= i < |items| => items[|items| - 1 - i])
  }

  lemma BackwardsIsPermutation(items: seq<Teardown>)
    requires forall i, j :: 0 <= i < j < |items| ==> items[i] != items[j]
    ensures forall i, j :: 0 <= i < j < |items| ==> Backwards(items)[i] != Backwards(items)[j]
    ensures forall i :: 0 <= i < |items| ==> items[i] == Backwards(items)[|items| - 1 - i]
  {
  }

  method Position(items: seq<Teardown>, element: Teardown) returns (at: nat)
    requires element in items
    ensures at < |items| && items[at] == element
  {
    at := 0;
    while items[at] != element
      invariant at < |items| && element in items[at..]
      decreases |items| - at
    {
      assert items[at..] == [items[at]] + items[at + 1..];
      at := at + 1;
    }
  }

  lemma RemoveOnce(items: seq<Teardown>, at: nat)
    requires at < |items| && forall i, j :: 0 <= i < j < |items| ==> items[i] != items[j]
    ensures var rest := items[..at] + items[at + 1..];
            && items[at] !in rest && multiset(rest) == multiset(items) - multiset{items[at]}
            && (forall i, j :: 0 <= i < j < |rest| ==> rest[i] != rest[j])
            && (forall x <- rest :: x in items)
  {
    var front, back := items[..at], items[at + 1..];
    assert items == front + [items[at]] + back;
    CountsWithout(front, items[at], back);
    assert forall i :: 0 <= i < |front| ==> front[i] == items[i];
    assert forall i :: 0 <= i < |back| ==> back[i] == items[at + 1 + i];
  }

  lemma CountsWithout(front: seq<Teardown>, item: Teardown, back: seq<Teardown>)
    ensures multiset(front + back) == multiset(front + [item] + back) - multiset{item}
  {
  }
}
