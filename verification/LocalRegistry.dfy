/**
  The registry object of adapter/localjobs/registry.go: tracked jobs on the heap, the map and the
  list that index them, and one method per locked section, each proved to be that section.
*/
module LocalRegistry {
  import opened Outcomes
  import opened Decimals
  import opened JobTypes
  import opened LocalJobs
  import opened LocalJobsSafety

  class TrackedJob {
    const id: JobId
    const spec: JobSpec
    const startedAt: Time
    var status: JobStatus
    var detail: string
    var output: string
    var finishedAt: Option<Time>
    var reported: bool
    var waiters: int
    var closes: nat

    constructor (id: JobId, spec: JobSpec, now: Time)
      ensures Value() == NewJob(id, spec, now)
      ensures Value() == Job(id, spec, Running, "", "", now, None, false, 0, 0)
    {
      this.id, this.spec, this.startedAt := id, spec, now;
      status, detail, output, finishedAt := Running, "", "", None;
      reported, waiters, closes := false, 0, 0;
    }

    function Value(): Job
      reads this
    {
      Job(id, spec, status, detail, output, startedAt, finishedAt, reported, waiters, closes)
    }

    /** The locked part of settle; the snapshot is what will be announced, None if already settled. */
    method Settle(outcome: Outcome, now: Time) returns (snapshot: Option<Snapshot>)
      modifies this
      ensures Value() == SettledJob(old(Value()), outcome, now)
      // The first outcome is taken whole, once, and a waiter claims its report; later ones leave no trace.
      ensures Value() == if old(status) in ENDED then old(Value()) else
        old(Value()).(status := outcome.status, detail := outcome.detail, output := outcome.output, finishedAt := Some(now),
                      reported := old(reported) || old(waiters) >= 1, closes := old(closes) + 1)
      ensures snapshot == if old(status) in ENDED then None else Some(Snapshot(id, outcome.status, outcome.detail, Some(now), reported))
    {
      if status.IsTerminal() {
        return None;
      }
      status := outcome.status;
      detail := outcome.detail;
      output := outcome.output;
      finishedAt := Some(now);
      if waiters > 0 {
        reported := true;
      }
      closes := closes + 1;
      return Some(SnapshotOf(Value()));
    }

    /** Kill after its cancel went through. */
    method RequestStop()
      modifies this
      ensures Value() == KilledJob(old(Value()))
      ensures Value() == old(Value()).(status := if old(status) in ENDED then old(status) else Stopping, reported := true)
    {
      if !status.IsTerminal() {
        status := Stopping;
      }
      reported := true;
    }

    /** Wait up to its unlock: true when the job is pending and has one waiter more. */
    method BeginWait() returns (pending: bool)
      modifies this
      ensures Value() == EnterWait(old(Value())) && pending == (old(status) !in ENDED)
      ensures Value() == old(Value()).(waiters := old(waiters) + if pending then 1 else 0)
    {
      pending := !status.IsTerminal();
      if pending {
        waiters := waiters + 1;
      }
    }

    /** Wait after the await: false when it ends in the caller's own cancellation. */
    method EndWait(aborted: bool) returns (ok: bool)
      modifies this
      ensures Value() == LeaveWait(old(Value()), aborted) && ok == !(aborted && old(status) !in ENDED)
      ensures Value() == old(Value()).(waiters := old(waiters) - 1, reported := old(reported) || old(status) in ENDED)
    {
      waiters := waiters - 1;
      if aborted && !status.IsTerminal() {
        return false;
      }
      if status.IsTerminal() {
        reported := true;
      }
      return true;
    }

    method MarkReported()
      modifies this
      ensures Value() == MarkIfTerminal(old(Value()))
      ensures Value() == old(Value()).(reported := old(reported) || old(status) in ENDED)
    {
      if status.IsTerminal() {
        reported := true;
      }
    }

    /** cancelForTeardown before and after the producer's cancel. */
    method ClaimForTeardown() returns (live: bool)
      modifies this
      ensures Value() == ClaimedByTeardown(old(Value())) && live == (old(status) !in ENDED)
      ensures Value() == old(Value()).(reported := old(reported) || live)
    {
      live := !status.IsTerminal();
      if live {
        reported := true;
      }
    }

    method StopAfterCancel()
      modifies this
      ensures Value() == StoppedJob(old(Value()))
      ensures Value() == old(Value()).(status := if old(status) in ENDED then old(status) else Stopping)
    {
      if !status.IsTerminal() {
        status := Stopping;
      }
    }
  }

  /** The objects are distinct and hold these values. */
  ghost predicate Values(all: seq<TrackedJob>, jobs: seq<Job>)
    reads all
  {
    && |all| == |jobs|
    && (forall i, j :: 0 <= i < j < |all| ==> all[i] != all[j])
    && (forall i :: 0 <= i < |all| ==> all[i].Value() == jobs[i])
  }

  ghost predicate StoreMatches(store: map<JobId, TrackedJob>, all: seq<TrackedJob>, refs: map<JobId, Ref>) {
    && store.Keys == refs.Keys
    && forall id <- store :: refs[id] < |all| && store[id] == all[refs[id]]
  }

  ghost predicate ListMatches(order: seq<TrackedJob>, all: seq<TrackedJob>, refs: seq<Ref>) {
    && |order| == |refs|
    && forall k :: 0 <= k < |order| ==> refs[k] < |all| && order[k] == all[refs[k]]
  }

  lemma OneMoreMatches(store: map<JobId, TrackedJob>, order: seq<TrackedJob>, all: seq<TrackedJob>, b: Books,
                       id: JobId, job: TrackedJob)
    requires StoreMatches(store, all, b.store) && ListMatches(order, all, b.order)
    ensures StoreMatches(store[id := job], all + [job], b.store[id := |all|])
    ensures ListMatches(order + [job], all + [job], b.order + [|all|])
  {
  }

  class Registry {
    var store: map<JobId, TrackedJob>
    var order: seq<TrackedJob>
    var counters: map<string, nat>
    var listenersClosed: bool

    /** Every job ever allocated, and the books the state stands for. */
    ghost var all: seq<TrackedJob>
    ghost var books: Books

    ghost predicate Valid()
      reads this, all
    {
      && Values(all, books.jobs)
      && StoreMatches(store, all, books.store)
      && ListMatches(order, all, books.order)
      && counters == books.counters
      && listenersClosed == books.listenersClosed
    }

    constructor ()
      ensures Valid() && books == INITIAL.books
    {
      store := map[];
      order := [];
      counters := map[];
      listenersClosed := false;
      all := [];
      books := INITIAL.books;
    }

    /** The locked section of Start. */
    method Register(spec: JobSpec, now: Time) returns (job: TrackedJob)
      requires Valid()
      modifies this
      ensures Valid() && fresh(job)
      ensures books == RegisterSection(old(books), spec, now) && all == old(all) + [job]
      ensures job.Value() == books.jobs[|old(all)|]
    {
      hide JobIdOf, StoreMatches, ListMatches;
      var n := (if spec.kind in counters then counters[spec.kind] else 0) + 1;
      var id := JobIdOf(spec.kind, n);
      job := new TrackedJob(id, spec, now);
      OneMoreMatches(store, order, all, books, id, job);
      counters := counters[spec.kind := n];
      store := store[id := job];
      order := order + [job];
      all := all + [job];
      books := RegisterSection(books, spec, now);
    }

    /** reachLocked. */
    method ReachLocked(id: JobId, session: string) returns (job: TrackedJob?)
      requires Valid()
      ensures job == null <==> Reach(books, id, session).None?
      ensures job != null ==> job == all[Reach(books, id, session).value]
    {
      if id !in store {
        return null;
      }
      job := store[id];
      assert job.Value() == books.jobs[books.store[id]];
      if job.spec.owner.None? || job.spec.owner.value == session {
        return job;
      }
      return null;
    }

    /** settle on one tracked job; announce is what listeners hear once the lock is released. */
    method Settle(ghost ref: Ref, job: TrackedJob, outcome: Outcome, now: Time) returns (announce: Option<Snapshot>)
      requires Valid() && ref < |all| && all[ref] == job
      modifies this, job
      ensures Valid() && all == old(all)
      ensures books == WithJob(old(books), ref, SettledJob(old(books).jobs[ref], outcome, now))
      ensures announce == if old(books).jobs[ref].status in ENDED || listenersClosed then None
                          else Some(SnapshotOf(books.jobs[ref]))
    {
      var snapshot := job.Settle(outcome, now);
      books := WithJob(books, ref, SettledJob(books.jobs[ref], outcome, now));
      announce := if snapshot.None? || listenersClosed then None else snapshot;
    }

    /** The part of admit that counts the owner's live jobs. */
    method CountActive(owner: Option<string>) returns (active: nat)
      requires Valid()
      ensures active == ActiveOf(books, books.order, owner)
    {
      active := 0;
      for i := 0 to |order|
        invariant active == ActiveOf(books, books.order[..i], owner)
      {
        var job := order[i];
        assert job.Value() == books.jobs[books.order[i]];
        assert books.order[..i + 1][..i] == books.order[..i];
        if job.spec.owner == owner && (job.status.Running? || job.status.Stopping?) {
          active := active + 1;
        }
      }
      assert books.order[..|order|] == books.order;
    }

    /** The first locked section of disposeOwned: the owner's jobs in registration order. */
    method Owned(owner: Option<string>) returns (owned: seq<TrackedJob>)
      requires Valid()
      ensures |owned| == |OwnedBy(books, books.order, owner)|
      ensures forall k :: 0 <= k < |owned| ==>
        OwnedBy(books, books.order, owner)[k] < |all| && owned[k] == all[OwnedBy(books, books.order, owner)[k]]
    {
      owned := [];
      for i := 0 to |order|
        invariant |owned| == |OwnedBy(books, books.order[..i], owner)|
        invariant forall k :: 0 <= k < |owned| ==>
          OwnedBy(books, books.order[..i], owner)[k] < |all|
          && owned[k] == all[OwnedBy(books, books.order[..i], owner)[k]]
      {
        assert order[i].Value() == books.jobs[books.order[i]];
        OwnedByOneMore(books, books.order, i, owner);
        if order[i].spec.owner == owner {
          owned := owned + [order[i]];
        }
      }
      assert books.order[..|order|] == books.order;
    }

    /** The listed jobs that a map which lost the dropped ones still has. */
    method Kept(left: map<JobId, TrackedJob>, ghost refs: seq<Ref>) returns (kept: seq<TrackedJob>)
      requires Valid() && IndexInv(books) && left.Keys == KeysLeft(books.store, refs)
      ensures ListMatches(kept, all, Without(books.order, refs))
    {
      hide IndexInv, Without;
      kept := [];
      WithoutNothing(books.order, refs);
      for i := 0 to |order|
        invariant ListMatches(kept, all, Without(books.order[..i], refs))
      {
        assert order[i].Value() == books.jobs[books.order[i]];
        KeptIffStored(books, i, refs);
        WithoutOneMore(books.order, i, refs);
        if order[i].id in left {
          kept := kept + [order[i]];
        }
      }
      assert books.order[..|order|] == books.order;
    }

    /** dropLocked: the jobs leave the map by id, then the list keeps what the map still has. */
    method DropLocked(ghost refs: seq<Ref>, list: seq<TrackedJob>)
      requires Valid() && IdsInv(books) && IndexInv(books) && ListMatches(list, all, refs)
      modifies this
      ensures Valid() && books == DropSection(old(books), refs) && all == old(all)
    {
      hide IdsInv, IndexInv, JobIdOf, Without;
      var left := store;
      for i := 0 to |list|
        modifies {}
        invariant left.Keys == KeysLeft(books.store, refs[..i])
        invariant left.Keys <= store.Keys && forall id <- left :: left[id] == store[id]
      {
        assert list[i].Value() == books.jobs[refs[i]];
        OneMoreDropped(books, refs, i);
        left := left - {list[i].id};
      }
      assert refs[..|refs|] == refs;
      var kept := Kept(left, refs);
      store, order := left, kept;
      books := DropSection(books, refs);
    }

    /** Dispose's two locked sections. */
    method CloseListeners()
      requires Valid()
      modifies this
      ensures Valid() && books == old(books).(listenersClosed := true) && all == old(all)
    {
      listenersClosed := true;
      books := books.(listenersClosed := true);
    }

    method Clear()
      requires Valid()
      modifies this
      ensures Valid() && books == ClearSection(old(books)) && all == old(all)
    {
      store := map[];
      order := [];
      books := ClearSection(books);
    }
  }

  function ActiveOf(b: Books, order: seq<Ref>, owner: Option<string>): nat {
    if order == [] then 0
    else
      var last := order[|order| - 1];
      ActiveOf(b, order[..|order| - 1], owner)
      + if last < |b.jobs| && b.jobs[last].spec.owner == owner && b.jobs[last].IsActive() then 1 else 0
  }

  lemma {:induction false} OwnedByConcat(b: Books, first: seq<Ref>, second: seq<Ref>, owner: Option<string>)
    ensures OwnedBy(b, first + second, owner) == OwnedBy(b, first, owner) + OwnedBy(b, second, owner)
  {
    if first == [] {
      assert first + second == second;
    } else {
      assert (first + second)[1..] == first[1..] + second;
      OwnedByConcat(b, first[1..], second, owner);
    }
  }

  lemma OwnedByOneMore(b: Books, order: seq<Ref>, i: nat, owner: Option<string>)
    requires i < |order| && order[i] < |b.jobs|
    ensures OwnedBy(b, order[..i + 1], owner)
         == OwnedBy(b, order[..i], owner) + if b.jobs[order[i]].spec.owner == owner then [order[i]] else []
  {
    assert order[..i + 1] == order[..i] + [order[i]];
    OwnedByConcat(b, order[..i], [order[i]], owner);
  }

  ghost function KeysLeft(store: map<JobId, Ref>, dropped: seq<Ref>): set<JobId> {
    set id | id in store && store[id] !in dropped
  }

  lemma OneMoreDropped(b: Books, refs: seq<Ref>, i: nat)
    requires IdsInv(b) && IndexInv(b) && i < |refs| && refs[i] < |b.jobs|
    ensures KeysLeft(b.store, refs[..i + 1]) == KeysLeft(b.store, refs[..i]) - {b.jobs[refs[i]].id}
  {
    assert refs[..i + 1] == refs[..i] + [refs[i]];
  }

  lemma KeptIffStored(b: Books, i: nat, refs: seq<Ref>)
    requires IndexInv(b) && i < |b.order| && b.order[i] < |b.jobs|
    ensures b.jobs[b.order[i]].id in KeysLeft(b.store, refs) <==> b.order[i] !in refs
  {
    assert b.order[i] in b.order;
  }

  lemma {:induction false} WithoutConcat(first: seq<Ref>, second: seq<Ref>, dropped: seq<Ref>)
    ensures Without(first + second, dropped) == Without(first, dropped) + Without(second, dropped)
  {
    if first == [] {
      assert first + second == second;
    } else {
      assert (first + second)[1..] == first[1..] + second;
      WithoutConcat(first[1..], second, dropped);
    }
  }

  lemma WithoutNothing(order: seq<Ref>, dropped: seq<Ref>)
    ensures Without(order[..0], dropped) == []
  {
  }

  lemma WithoutOneMore(order: seq<Ref>, i: nat, dropped: seq<Ref>)
    requires i < |order|
    ensures Without(order[..i + 1], dropped)
         == Without(order[..i], dropped) + if order[i] in dropped then [] else [order[i]]
  {
    assert order[..i + 1] == order[..i] + [order[i]];
    WithoutConcat(order[..i], [order[i]], dropped);
  }
}
