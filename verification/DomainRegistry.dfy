/**
  The registry object of adapter/domainjobs/registry.go: its loops over the shared table and its
  map of execution handles, each method proved against the record transitions of DomainJobs.
*/
module DomainRegistry {
  import opened Outcomes
  import opened Decimals
  import opened JobTypes
  import opened DomainJobs
  import opened DomainJobsSafety
  import opened DomainJobsTheorems

  /** The domain table: each operation atomic on its key. */
  class Ledger {
    var records: Table

    constructor ()
      ensures records == map[]
    {
      records := map[];
    }

    ghost predicate Keyed()
      reads this
    {
      forall id <- records :: records[id].id == id
    }

    method Create(record: Record) returns (created: bool)
      modifies this
      ensures created <==> record.id !in old(records)
      ensures records == if created then old(records)[record.id := record] else old(records)
    {
      created := record.id !in records;
      if created {
        records := records[record.id := record];
      }
    }

    method Update(id: JobId, f: Record -> Record) returns (updated: Option<Record>)
      modifies this
      ensures updated == if id in old(records) then Some(f(old(records)[id])) else None
      ensures records == if id in old(records) then old(records)[id := f(old(records)[id])] else old(records)
    {
      if id !in records {
        return None;
      }
      var next := f(records[id]);
      records := records[id := next];
      return Some(next);
    }

    method Delete(id: JobId)
      modifies this
      ensures records == old(records) - {id}
    {
      records := records - {id};
    }

    method Entries() returns (entries: seq<Record>)
      requires Keyed()
      ensures Lists(records, entries)
    {
      entries := [];
      var left := records.Keys;
      while left != {}
        invariant left <= records.Keys
        invariant forall id <- records :: id in left || records[id] in entries
        invariant forall i :: 0 <= i < |entries| ==>
          entries[i].id in records && entries[i].id !in left && records[entries[i].id] == entries[i]
        invariant forall i, j :: 0 <= i < j < |entries| ==> entries[i].id != entries[j].id
      {
        var id :| id in left;
        entries := entries + [records[id]];
        left := left - {id};
      }
    }
  }

  datatype StartError = LimitReached | Contended | ProducerFailed

  datatype KillError = Unreachable | NotHere | CancelFailed | NotRecorded

  datatype KillResult = KillAccepted | KillAlreadyFinished

  ghost function ActiveIds(table: Table, ownerSession: string): set<JobId> {
    set id | id in table && table[id].spec.ownerSession == ownerSession && table[id].status in LIVE
  }

  ghost function ActiveIn(entries: seq<Record>, ownerSession: string): set<JobId> {
    set i | 0 <= i < |entries| && entries[i].spec.ownerSession == ownerSession && entries[i].status in LIVE :: entries[i].id
  }

  /** Counting a listing counts the owner's live records, each once. */
  lemma {:induction false} CountIsCardinality(entries: seq<Record>, ownerSession: string)
    requires forall i, j :: 0 <= i < j < |entries| ==> entries[i].id != entries[j].id
    ensures ActiveCount(entries, ownerSession) == |ActiveIn(entries, ownerSession)|
  {
    hide ActiveIn;
    if entries == [] {
      NoneActive(ownerSession);
    } else {
      var last := entries[|entries| - 1];
      var before := entries[..|entries| - 1];
      CountIsCardinality(before, ownerSession);
      OneMoreActive(before, last, ownerSession);
      assert entries == before + [last];
    }
  }

  lemma NoneActive(ownerSession: string)
    ensures ActiveIn([], ownerSession) == {}
  {
  }

  lemma OneMoreActive(before: seq<Record>, last: Record, ownerSession: string)
    requires forall i :: 0 <= i < |before| ==> before[i].id != last.id
    ensures ActiveIn(before + [last], ownerSession) == ActiveIn(before, ownerSession)
              + if last.spec.ownerSession == ownerSession && last.status in LIVE then {last.id} else {}
    ensures last.id !in ActiveIn(before, ownerSession)
  {
    var entries := before + [last];
    assert forall i :: 0 <= i < |before| ==> entries[i] == before[i];
    assert entries[|before|] == last;
  }

  lemma ListingCountsTable(table: Table, entries: seq<Record>, ownerSession: string)
    requires Lists(table, entries) && forall id <- table :: table[id].id == id
    ensures ActiveCount(entries, ownerSession) == |ActiveIds(table, ownerSession)|
  {
    CountIsCardinality(entries, ownerSession);
    forall id <- ActiveIds(table, ownerSession) ensures id in ActiveIn(entries, ownerSession) {
      var i :| 0 <= i < |entries| && entries[i] == table[id];
    }
    assert ActiveIn(entries, ownerSession) == ActiveIds(table, ownerSession);
  }

  /** The scan inside claim: live records of the owner, and the highest number of the kind. */
  method ScanLedger(entries: seq<Record>, spec: JobSpec) returns (active: nat, highest: nat)
    ensures active == ActiveCount(entries, spec.ownerSession)
    ensures highest == Highest(entries, spec.kind)
  {
    active, highest := 0, 0;
    for i := 0 to |entries|
      invariant active == ActiveCount(entries[..i], spec.ownerSession)
      invariant highest == Highest(entries[..i], spec.kind)
    {
      var current := entries[i];
      assert entries[..i + 1][..i] == entries[..i] && entries[..i + 1][i] == current;
      if current.spec.ownerSession == spec.ownerSession && current.IsActive() {
        active := active + 1;
      }
      var ordinal := OrdinalOf(current.id, spec.kind);
      if ordinal.Some? && ordinal.value > highest {
        highest := ordinal.value;
      }
    }
    assert entries[..|entries|] == entries;
  }

  function AfterTakeover(record: Record, runner: Runner, now: Time): Record {
    if record.runner == runner && record.status in LIVE then
      record.(status := Failed, detail := "runner restarted; job was lost with the previous process", finishedAt := Some(now))
    else record
  }

  /** The runner's live records were failed, and nothing else changed. */
  ghost predicate TakenOverAll(was: Table, table: Table, runner: Runner, now: Time) {
    table.Keys == was.Keys && forall id <- was :: table[id] == AfterTakeover(was[id], runner, now)
  }

  ghost predicate TakenOverUpTo(was: Table, table: Table, entries: seq<Record>, n: nat, runner: Runner, now: Time)
    requires n <= |entries|
  {
    && table.Keys == was.Keys
    && (forall k :: 0 <= k < n ==> entries[k].id in table && table[entries[k].id] == AfterTakeover(entries[k], runner, now))
    && (forall k :: n <= k < |entries| ==> entries[k].id in table && table[entries[k].id] == entries[k])
  }

  lemma TakenOverOneMore(was: Table, table: Table, entries: seq<Record>, n: nat, runner: Runner, now: Time)
    requires n < |entries| && Lists(was, entries) && TakenOverUpTo(was, table, entries, n, runner, now)
    ensures entries[n].id in table && table[entries[n].id] == entries[n]
    ensures TakenOverUpTo(was, table[entries[n].id := AfterTakeover(entries[n], runner, now)], entries, n + 1, runner, now)
    ensures AfterTakeover(entries[n], runner, now) == entries[n] ==> TakenOverUpTo(was, table, entries, n + 1, runner, now)
  {
    hide AfterTakeover, Lists, TakenOverUpTo;
    ListsOnce(was, entries, n);
    UpToNext(was, table, entries, n, runner, now);
    var next := table[entries[n].id := AfterTakeover(entries[n], runner, now)];
    OneRecordOver(was, table, next, entries, n, runner, now);
    if AfterTakeover(entries[n], runner, now) == entries[n] {
      assert next == table;
    }
  }

  lemma ListsOnce(table: Table, entries: seq<Record>, n: nat)
    requires n < |entries| && Lists(table, entries)
    ensures forall k :: 0 <= k < |entries| && k != n ==> entries[k].id != entries[n].id
  {
  }

  lemma UpToNext(was: Table, table: Table, entries: seq<Record>, n: nat, runner: Runner, now: Time)
    requires n < |entries| && TakenOverUpTo(was, table, entries, n, runner, now)
    ensures entries[n].id in table && table[entries[n].id] == entries[n]
  {
    hide AfterTakeover;
  }

  lemma OneRecordOver(was: Table, table: Table, next: Table, entries: seq<Record>, n: nat, runner: Runner, now: Time)
    requires n < |entries| && TakenOverUpTo(was, table, entries, n, runner, now) && entries[n].id in table
    requires forall k :: 0 <= k < |entries| && k != n ==> entries[k].id != entries[n].id
    requires next == table[entries[n].id := AfterTakeover(entries[n], runner, now)]
    ensures TakenOverUpTo(was, next, entries, n + 1, runner, now)
  {
    hide AfterTakeover;
    assert next.Keys == table.Keys;
  }

  lemma TakenOverThroughout(was: Table, table: Table, entries: seq<Record>, runner: Runner, now: Time)
    requires Lists(was, entries) && forall id <- was :: was[id].id == id
    requires TakenOverUpTo(was, table, entries, |entries|, runner, now)
    ensures TakenOverAll(was, table, runner, now)
  {
    forall id <- was ensures table[id] == AfterTakeover(was[id], runner, now) {
      var k :| 0 <= k < |entries| && entries[k] == was[id];
    }
  }

  /** takeover: every live record stamped with this runner is a job the previous process lost. */
  method TakeOver(ledger: Ledger, runner: Runner, now: Time)
    requires ledger.Keyed()
    modifies ledger
    ensures ledger.Keyed() && TakenOverAll(old(ledger.records), ledger.records, runner, now)
  {
    hide TakenOverUpTo, Lists, TakenOver;
    var entries := ledger.Entries();
    ghost var was := ledger.records;
    StartTakeover(was, entries, runner, now);
    for i := 0 to |entries|
      invariant TakenOverUpTo(was, ledger.records, entries, i, runner, now)
    {
      TakenOverOneMore(was, ledger.records, entries, i, runner, now);
      TakeoverIs(entries[i], runner, now);
      if entries[i].runner == runner && entries[i].IsActive() {
        var _ := ledger.Update(entries[i].id, current => TakenOver(current, now));
      }
    }
    TakenOverThroughout(was, ledger.records, entries, runner, now);
    StillKeyed(was, ledger.records, runner, now);
  }

  lemma TakeoverIs(record: Record, runner: Runner, now: Time)
    ensures AfterTakeover(record, runner, now) == if record.runner == runner && record.IsActive() then TakenOver(record, now) else record
  {
  }

  lemma StartTakeover(was: Table, entries: seq<Record>, runner: Runner, now: Time)
    requires Lists(was, entries)
    ensures TakenOverUpTo(was, was, entries, 0, runner, now)
  {
  }

  lemma StillKeyed(was: Table, table: Table, runner: Runner, now: Time)
    requires TakenOverAll(was, table, runner, now) && forall id <- was :: was[id].id == id
    ensures forall id <- table :: table[id].id == id
  {
  }

  class Registry {
    const runner: Runner
    const limit: nat
    const ledger: Ledger
    var handles: map<JobId, Handle>
    var listenersClosed: bool

    /** Handles are for jobs of this runner that are in the ledger. */
    ghost predicate Valid()
      reads this, ledger
    {
      && ledger.Keyed()
      && forall id <- handles :: Owned(ledger.records, runner, id)
    }

    /** New: open the ledger and fail every live record the previous process left behind. */
    constructor (runner: Runner, limit: nat, ledger: Ledger, now: Time)
      requires ledger.Keyed()
      modifies ledger
      ensures Valid() && this.runner == runner && this.limit == limit && this.ledger == ledger
      ensures handles == map[] && !listenersClosed
      ensures TakenOverAll(old(ledger.records), ledger.records, runner, now)
      ensures forall id <- ledger.records :: ledger.records[id].runner == runner ==> ledger.records[id].status !in LIVE
    {
      this.runner := runner;
      this.limit := limit;
      this.ledger := ledger;
      handles := map[];
      listenersClosed := false;
      new;
      TakeOver(ledger, runner, now);
    }

    /**
      One attempt of claim: read the ledger, then write conditionally. rival is a record another
      replica manages to create in between. Ok(None) means the number was taken.
    */
    method Attempt(spec: JobSpec, now: Time, rival: Option<Record>) returns (r: Result<Option<Record>, StartError>)
      requires Valid()
      modifies ledger
      ensures Valid()
      ensures r.Err? <==> |ActiveIds(old(ledger.records), spec.ownerSession)| >= limit
      ensures r.Err? ==> r.error == LimitReached && ledger.records == old(ledger.records)
      ensures r.Ok? && r.value.Some? ==> ClaimedFrom(old(ledger.records), spec, r.value.value)
      ensures r.Ok? ==> ledger.records == WithRecord(WithRecord(old(ledger.records), rival), r.value)
      ensures r.Ok? && r.value.Some? ==> r.value.value.id !in WithRecord(old(ledger.records), rival)
      ensures r == Ok(None) ==> rival.Some?
      ensures r.Ok? && r.value.Some? ==>
        r.value.value == DomainJobs.Claim(spec, runner, Ordinal(r.value.value, spec.kind), now)
    {
      hide OrdinalOf, JobIdOf, Lists, ClaimedFrom, ActiveIds, Highest, ActiveCount, Ordinal;
      ghost var was := ledger.records;
      var entries := ledger.Entries();
      var active, highest := ScanLedger(entries, spec);
      ListingCountsTable(was, entries, spec.ownerSession);
      if active >= limit {
        return Err(LimitReached);
      }
      var record := DomainJobs.Claim(spec, runner, highest + 1, now);
      CandidateFits(was, entries, spec, runner, now);
      if rival.Some? {
        var _ := ledger.Create(rival.value);
      }
      var created := ledger.Create(record);
      return Ok(if created then Some(record) else None);
    }

    /** claim: rivals are the records other replicas slip in, one per attempt. */
    method Claim(spec: JobSpec, now: Time, rivals: seq<Record>) returns (r: Result<Record, StartError>)
      requires Valid()
      modifies ledger
      ensures Valid() && Grown(old(ledger.records), ledger.records)
      ensures r.Ok? ==>
        && ClaimedFrom(old(ledger.records), spec, r.value)
        && r.value.id in ledger.records && ledger.records[r.value.id] == r.value
        && r.value.runner == runner && r.value.spec == spec && r.value.status.Running?
      ensures forall id <- ledger.records :: id in old(ledger.records) || ledger.records[id] in rivals || r == Ok(ledger.records[id])
      // Only rivals can make it give up for contention, and the limit is checked on the first read.
      ensures |ActiveIds(old(ledger.records), spec.ownerSession)| >= limit ==> r == Err(LimitReached)
      ensures r == Err(Contended) ==> |rivals| >= START_ATTEMPTS
      ensures rivals == [] ==> (r.Ok? <==> |ActiveIds(old(ledger.records), spec.ownerSession)| < limit)
      ensures rivals == [] && r.Err? ==> ledger.records == old(ledger.records)
    {
      hide ActiveIds, OrdinalOf, JobIdOf;
      ghost var was := ledger.records;
      for attempt := 0 to START_ATTEMPTS
        invariant attempt <= |rivals| && Valid() && Grown(was, ledger.records)
        invariant forall id <- ledger.records :: id in was || ledger.records[id] in rivals
        invariant attempt == 0 ==> ledger.records == was
        invariant |ActiveIds(was, spec.ownerSession)| >= limit ==> attempt == 0
      {
        ghost var seen := ledger.records;
        var record :- Attempt(spec, now, if attempt < |rivals| then Some(rivals[attempt]) else None);
        if record.Some? {
          return Ok(record.value);
        }
      }
      return Err(Contended);
    }

    method Register(id: JobId)
      requires Valid() && Owned(ledger.records, runner, id)
      modifies this
      ensures Valid() && handles == old(handles)[id := Handle(false, 0, false)] && listenersClosed == old(listenersClosed)
    {
      handles := handles[id := Handle(false, 0, false)];
    }

    /** abandon: withdraw a record whose work never came up; a delete that fails is only logged. */
    method Abandon(id: JobId, deleteWorks: bool)
      requires Valid()
      modifies this, ledger
      ensures Valid() && handles == old(handles) - {id}
      ensures ledger.records == if deleteWorks then old(ledger.records) - {id} else old(ledger.records)
      ensures listenersClosed == old(listenersClosed)
    {
      handles := handles - {id};
      if deleteWorks {
        ledger.Delete(id);
      }
    }

    /** The rest of Start, once the record is claimed: the producer comes up or it does not. */
    method Launch(id: JobId, producerStarts: bool, deleteWorks: bool)
      requires Valid() && Owned(ledger.records, runner, id)
      modifies this, ledger
      ensures Valid() && listenersClosed == old(listenersClosed)
      ensures ledger.records == if producerStarts || !deleteWorks then old(ledger.records) else old(ledger.records) - {id}
      ensures handles == if producerStarts then old(handles)[id := Handle(true, 0, false)] else old(handles) - {id}
    {
      Register(id);
      if producerStarts {
        handles := handles[id := handles[id].(ready := true)];
      } else {
        Abandon(id, deleteWorks);
      }
    }

    /** Exactly one new record, live and stamped with this runner. */
    ghost predicate OneMore(was: Table, table: Table, id: JobId) {
      && Grown(was, table) && table.Keys == was.Keys + {id} && id !in was
      && Owned(table, runner, id) && table[id].status.Running?
    }

    /**
      Start with nobody else writing. A refused Start leaves no handle, and no trace in the ledger
      but for one case: a record whose producer failed and whose deletion failed too. That record is
      a lost one, left to the next takeover.
    */
    method Start(spec: JobSpec, now: Time, producerStarts: bool, deleteWorks: bool)
      returns (r: Result<JobId, StartError>, ghost left: Option<JobId>)
      requires Valid()
      modifies this, ledger
      ensures Valid() && listenersClosed == old(listenersClosed)
      ensures left.None? ==> r.Err? && ledger.records == old(ledger.records)
      ensures left.Some? ==> OneMore(old(ledger.records), ledger.records, left.value)
      ensures r.Err? ==> handles == old(handles)
      ensures left.Some? && r.Err? <==>
        !producerStarts && !deleteWorks && |ActiveIds(old(ledger.records), spec.ownerSession)| < limit
      ensures r.Ok? ==> left == Some(r.value) && handles == old(handles)[r.value := Handle(true, 0, false)]
      ensures r.Ok? <==> producerStarts && |ActiveIds(old(ledger.records), spec.ownerSession)| < limit
    {
      hide ActiveIds, OrdinalOf, JobIdOf, Ordinal;
      left := None;
      ghost var was, held := ledger.records, handles;
      var claimed := Claim(spec, now, []);
      if claimed.Err? {
        return Err(claimed.error), None;
      }
      var record := claimed.value;
      assert OneMore(was, ledger.records, record.id);
      Launch(record.id, producerStarts, deleteWorks);
      if !producerStarts {
        assert handles == held;
        return Err(ProducerFailed), if deleteWorks then None else Some(record.id);
      }
      return Ok(record.id), Some(record.id);
    }

    /** settle: commit first, release the waiters, announce last and only a settlement that was the first. */
    method Settle(id: JobId, outcome: Outcome, now: Time) returns (announced: bool)
      requires Valid() && id in handles
      modifies this, ledger
      ensures Valid() && listenersClosed == old(listenersClosed)
      ensures ledger.records ==
        old(ledger.records)[id := Settled(old(ledger.records)[id], outcome, old(handles)[id].waiters, now)]
      ensures var was := old(ledger.records)[id];
              ledger.records[id] == if was.status in ENDED then was else
                was.(status := outcome.status, detail := outcome.detail, output := outcome.output, finishedAt := Some(now),
                     reported := was.reported || old(handles)[id].waiters >= 1)
      ensures handles == old(handles)[id := old(handles)[id].(settled := true)]
      ensures announced <==> old(ledger.records)[id].status !in ENDED && !old(listenersClosed)
    {
      var waiters := handles[id].waiters;
      var closed := listenersClosed;
      var already := ledger.records[id].status.IsTerminal();
      var _ := ledger.Update(id, current => Settled(current, outcome, waiters, now));
      handles := handles[id := handles[id].(settled := true)];
      return !already && !closed;
    }

    /** markReported. */
    method MarkReported(id: JobId) returns (updated: Option<Record>)
      requires Valid()
      modifies ledger
      ensures Valid() && (updated.Some? <==> id in old(ledger.records))
      ensures updated.Some? ==> updated.value == old(ledger.records)[id].(reported := true)
      ensures ledger.records == if updated.Some? then old(ledger.records)[id := updated.value] else old(ledger.records)
    {
      updated := ledger.Update(id, (current: Record) => current.(reported := true));
    }

    /** Kill goes as far as calling the producer's cancel. */
    predicate Cancels(id: JobId, session: string)
      reads this, ledger
    {
      && id in ledger.records && ledger.records[id].spec.ownerSession in ["", session]
      && ledger.records[id].status !in ENDED
      && id in handles && handles[id].ready
    }

    /**
      Kill. The cancel runs outside every lock: during and held are the ledger and the handles as
      anybody may have left them when it returns. writeWorks is whether the store takes the request.
    */
    method Kill(id: JobId, session: string, cancelWorks: bool, during: Table, held: map<JobId, Handle>, writeWorks: bool)
      returns (r: Result<KillResult, KillError>)
      requires Valid() && (forall key <- during :: during[key].id == key) && (forall key <- held :: Owned(during, runner, key))
      modifies this, ledger
      ensures Valid() && listenersClosed == old(listenersClosed)
      // A job with an owner is out of reach for everybody else, and a missing one for all.
      ensures r == Err(Unreachable) <==>
        id !in old(ledger.records) ||
        (old(ledger.records)[id].spec.ownerSession != "" && old(ledger.records)[id].spec.ownerSession != session)
      ensures r == Ok(KillAlreadyFinished) <==>
        id in old(ledger.records) && old(ledger.records)[id].spec.ownerSession in ["", session]
        && old(ledger.records)[id].status in ENDED
      ensures r == Ok(KillAlreadyFinished) ==>
        ledger.records == old(ledger.records)[id := old(ledger.records)[id].(reported := true)] && handles == old(handles)
      ensures r == Err(Unreachable) || r == Err(NotHere) ==> ledger.records == old(ledger.records) && handles == old(handles)
      // Only the replica that holds the execution can stop a live job.
      ensures r == Err(CancelFailed) <==> old(Cancels(id, session)) && !cancelWorks
      ensures r == Ok(KillAccepted) <==> old(Cancels(id, session)) && cancelWorks && writeWorks && id in during
      ensures r == Err(CancelFailed) || r == Err(NotRecorded) ==> ledger.records == during && handles == held
      // What settled during the cancel keeps its outcome; anything else is stopping.
      ensures r == Ok(KillAccepted) ==>
        && handles == held
        && ledger.records == during[id := during[id].(status := if during[id].status in ENDED then during[id].status else Stopping,
                                                      reported := true)]
    {
      if id !in ledger.records || !Reaches(ledger.records[id], session) {
        return Err(Unreachable);
      }
      if ledger.records[id].status.IsTerminal() {
        var _ := MarkReported(id);
        return Ok(KillAlreadyFinished);
      }
      if id !in handles || !handles[id].ready {
        return Err(NotHere);
      }
      ledger.records, handles := during, held;
      if !cancelWorks {
        return Err(CancelFailed);
      }
      if !writeWorks || id !in ledger.records {
        return Err(NotRecorded);
      }
      var _ := ledger.Update(id, KillRequested);
      return Ok(KillAccepted);
    }

    /** cancelForTeardown for one handle: record the request, then cancel; a failing cancel settles it. */
    method CancelOne(id: JobId, cancelFails: bool, now: Time)
      requires Valid() && id in handles
      modifies this, ledger
      ensures Valid() && handles.Keys == old(handles).Keys && listenersClosed == old(listenersClosed)
      ensures forall other <- handles :: handles[other].waiters == old(handles)[other].waiters
      ensures ledger.records ==
        old(ledger.records)[id := AfterTeardown(old(ledger.records)[id], old(handles)[id].waiters, cancelFails, now)]
    {
      var stopped := ledger.Update(id, TornDown);
      if !stopped.value.status.IsTerminal() && cancelFails {
        var _ := Settle(id, Outcome(Failed, ORPHANED_DETAIL, ""), now);
      }
    }

    /** cancelForTeardown over a batch of handles; failing holds the ids whose cancel fails. */
    method CancelForTeardown(ids: seq<JobId>, failing: set<JobId>, now: Time)
      requires Valid() && forall i :: 0 <= i < |ids| ==> ids[i] in handles
      requires forall i, j :: 0 <= i < j < |ids| ==> ids[i] != ids[j]
      modifies this, ledger
      ensures Valid() && TornDownAll(old(ledger.records), ledger.records, old(handles), ids, failing, now)
    {
      hide AfterTeardown;
      ghost var was, held := ledger.records, handles;
      for i := 0 to |ids|
        invariant Valid() && handles.Keys == held.Keys
        invariant forall id <- held :: handles[id].waiters == held[id].waiters
        invariant TornDownAll(was, ledger.records, held, ids[..i], failing, now)
      {
        TearDownOneMore(was, ledger.records, held, ids, i, failing, now);
        CancelOne(ids[i], ids[i] in failing, now);
      }
      assert ids[..|ids|] == ids;
    }
  }

  /** Exactly the listed jobs were torn down. */
  ghost predicate TornDownAll(was: Table, table: Table, held: map<JobId, Handle>, ids: seq<JobId>, failing: set<JobId>, now: Time)
  {
    && table.Keys == was.Keys
    && (forall id <- was :: id !in ids ==> table[id] == was[id])
    && (forall k :: 0 <= k < |ids| ==>
          ids[k] in was && ids[k] in held
          && table[ids[k]] == AfterTeardown(was[ids[k]], held[ids[k]].waiters, ids[k] in failing, now))
  }

  lemma TearDownOneMore(was: Table, table: Table, held: map<JobId, Handle>, ids: seq<JobId>, i: nat,
                        failing: set<JobId>, now: Time)
    requires i < |ids| && ids[i] in held && ids[i] in table
    requires forall j, k :: 0 <= j < k < |ids| ==> ids[j] != ids[k]
    requires TornDownAll(was, table, held, ids[..i], failing, now)
    ensures var id := ids[i];
            table[id] == was[id] &&
            TornDownAll(was, table[id := AfterTeardown(table[id], held[id].waiters, id in failing, now)],
                        held, ids[..i + 1], failing, now)
  {
    hide AfterTeardown;
    assert ids[..i + 1] == ids[..i] + [ids[i]];
    assert ids[i] !in ids[..i];
  }

  ghost predicate Grown(table: Table, table': Table) {
    forall id <- table :: id in table' && table'[id] == table[id]
  }

  ghost function WithRecord(table: Table, record: Option<Record>): Table {
    if record.Some? && record.value.id !in table then table[record.value.id := record.value] else table
  }

  /** The record is new to the table and numbered past everything of its kind in it. */
  ghost predicate ClaimedFrom(table: Table, spec: JobSpec, record: Record) {
    && record.id !in table
    && record.id == JobIdOf(spec.kind, Ordinal(record, spec.kind))
    && forall id <- table :: Ordinal(table[id], spec.kind) < Ordinal(record, spec.kind)
  }

  lemma CandidateFits(table: Table, entries: seq<Record>, spec: JobSpec, runner: Runner, now: Time)
    requires Lists(table, entries) && forall id <- table :: table[id].id == id
    ensures var record := DomainJobs.Claim(spec, runner, Highest(entries, spec.kind) + 1, now);
            record.id !in table && ClaimedFrom(table, spec, record) && Ordinal(record, spec.kind) == Highest(entries, spec.kind) + 1
  {
    hide OrdinalOf, JobIdOf, Highest, Lists;
    ClaimIsFreshInItsListing(table, entries, spec, runner, now);
    OrdinalOfJobId(spec.kind, Highest(entries, spec.kind) + 1, spec.kind);
    BelowHighest(table, entries, spec.kind);
  }

  lemma BelowHighest(table: Table, entries: seq<Record>, kind: string)
    requires Lists(table, entries)
    ensures forall id <- table :: Ordinal(table[id], kind) <= Highest(entries, kind)
  {
    hide Ordinal, Highest;
    forall id <- table ensures Ordinal(table[id], kind) <= Highest(entries, kind) {
      var i :| 0 <= i < |entries| && entries[i] == table[id];
      HighestIsABound(entries, kind, i);
    }
  }

  /** A job after teardown: stopping and reported, or failed when its cancel failed; finished jobs stay. */
  function AfterTeardown(record: Record, waiters: nat, cancelFails: bool, now: Time): (after: Record)
    ensures Later(record, after)
    ensures !after.status.Running?
    ensures record.status in ENDED ==> after == record
    ensures record.status !in ENDED ==> after.reported && after.runner == record.runner && after.spec == record.spec
    ensures record.status !in ENDED && !cancelFails ==> after == record.(status := Stopping, reported := true)
    ensures record.status !in ENDED && cancelFails ==>
      after == record.(status := Failed, detail := "cancel threw during teardown; work may be orphaned", output := "",
                       finishedAt := Some(now), reported := true)
  {
    if record.status.IsTerminal() then record
    else if cancelFails then
      Settled(TornDown(record), Outcome(Failed, ORPHANED_DETAIL, ""), waiters, now)
    else TornDown(record)
  }
}
