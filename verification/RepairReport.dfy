/**
  Everything repair writes, told from the log alone: the sentence the model reads about each
  unanswered call, the numbers every event carries, and the boundaries that follow (sessionlog/repair.go).
*/
module RepairReport {
  import opened Outcomes
  import opened LlmContent
  import opened Decimals
  import opened SessionEvents
  import opened Repair
  import opened RepairCalls

  // ---- What stands open at the end of the log ----

  predicate OpenTurnAt(events: seq<Event>, k: nat) {
    && k < |events| && events[k].kind == TurnStart && events[k].data.TurnStartData?
    && forall m :: k < m < |events| ==> events[m].kind != TurnStart && events[m].kind != TurnEnd
  }

  predicate OpenStepAt(events: seq<Event>, k: nat) {
    && k < |events| && events[k].kind == StepStart && events[k].data.StepData?
    && forall m :: k < m < |events| ==>
         events[m].kind != StepStart && events[m].kind != StepEnd && events[m].kind != TurnStart && events[m].kind != TurnEnd
  }

  /** The last message to declare the call, which is still unanswered. */
  predicate LastDeclared(events: seq<Event>, id: CallId, d: nat) {
    OutstandingSince(events, id, d) && forall m :: d < m < |events| ==> !Declares(events[m], id)
  }

  // ---- What repair has to write ----

  /** The closing result of one call, down to every field. */
  ghost predicate ClosesCall(events: seq<Event>, e: Event, id: CallId, seqNo: int, time: int) {
    && e.kind == ToolResult && e.seqNo == seqNo && e.time == time && !e.ignorable && e.surfaceOp == Some(AppendOp)
    && e.data.ToolResultData? && e.data.meta == None
    && (exists k: nat :: OpenTurnAt(events, k) && e.data.turn == events[k].data.turn)
    && (exists d: nat :: LastDeclared(events, id, d) && e.data.step == events[d].data.step)
    && e.data.message.id == "interrupted-tool-result-" + id + "-" + Decimal(seqNo)
    && e.data.message.role == UserRole && Reports(events, e, id)
  }

  /** The end of the step that stands open. */
  ghost predicate ClosesStep(events: seq<Event>, e: Event, seqNo: int, time: int) {
    && e.kind == StepEnd && e.seqNo == seqNo && e.time == time && !e.ignorable && e.surfaceOp == None && e.sources == None
    && exists k: nat, s: nat :: OpenTurnAt(events, k) && OpenStepAt(events, s) && e.data == StepData(events[k].data.turn, events[s].data.step)
  }

  ghost predicate ClosesTurn(events: seq<Event>, e: Event, seqNo: int, time: int) {
    && e.kind == TurnEnd && e.seqNo == seqNo && e.time == time && !e.ignorable && e.surfaceOp == None && e.sources == None
    && exists k: nat :: OpenTurnAt(events, k) && e.data == TurnEndData(events[k].data.turn, InterruptedTurnEnd)
  }

  // ---- The scan reads exactly that ----

  ghost predicate TailExact(events: seq<Event>, r: Tail) {
    && (r.turnIsOpen <==> exists k: nat :: OpenTurnAt(events, k))
    && (r.turnIsOpen ==> forall k: nat :: OpenTurnAt(events, k) ==> events[k].data.turn == r.openTurn)
    && (r.stepIsOpen <==> exists s: nat :: OpenStepAt(events, s))
    && (r.stepIsOpen ==> forall s: nat :: OpenStepAt(events, s) ==> events[s].data.step == r.openStep)
  }

  lemma OpenTurnStep(before: seq<Event>, e: Event, k: nat)
    ensures OpenTurnAt(before + [e], k) <==>
            if k == |before| then e.kind == TurnStart && e.data.TurnStartData?
            else OpenTurnAt(before, k) && e.kind != TurnStart && e.kind != TurnEnd
    ensures OpenTurnAt(before, k) ==> k < |before| && (before + [e])[k] == before[k]
  {
    var events := before + [e];
    assert events[|before|] == e && forall m :: 0 <= m < |before| ==> events[m] == before[m];
  }

  lemma OpenStepStep(before: seq<Event>, e: Event, k: nat)
    ensures OpenStepAt(before + [e], k) <==>
            if k == |before| then e.kind == StepStart && e.data.StepData?
            else OpenStepAt(before, k) && e.kind != StepStart && e.kind != StepEnd && e.kind != TurnStart && e.kind != TurnEnd
    ensures OpenStepAt(before, k) ==> k < |before| && (before + [e])[k] == before[k]
  {
    var events := before + [e];
    assert events[|before|] == e && forall m :: 0 <= m < |before| ==> events[m] == before[m];
  }

  lemma {:induction false} DeclareAllKeepsBounds(r: Tail, content: seq<Block>, step: int)
    ensures var after := DeclareAll(r, content, step);
            after.turnIsOpen == r.turnIsOpen && after.openTurn == r.openTurn
            && after.stepIsOpen == r.stepIsOpen && after.openStep == r.openStep
  {
    if content != [] {
      DeclareAllKeepsBounds(r, content[..|content| - 1], step);
    }
  }

  lemma TailStep(before: seq<Event>, e: Event, r: Tail)
    requires TailExact(before, r) && ScanEvent(r, e).Ok?
    ensures TailExact(before + [e], ScanEvent(r, e).value)
  {
    hide OpenTurnAt, OpenStepAt, DeclareAll;
    var events := before + [e];
    assert events[|before|] == e;
    if e.kind == AssistantMessage {
      DeclareAllKeepsBounds(r, e.data.message.content, e.data.step);
    }
    forall k: nat
      ensures OpenTurnAt(events, k) <==>
              if k == |before| then e.kind == TurnStart && e.data.TurnStartData?
              else OpenTurnAt(before, k) && e.kind != TurnStart && e.kind != TurnEnd
      ensures OpenTurnAt(before, k) ==> k < |before| && events[k] == before[k]
    {
      OpenTurnStep(before, e, k);
    }
    forall k: nat
      ensures OpenStepAt(events, k) <==>
              if k == |before| then e.kind == StepStart && e.data.StepData?
              else OpenStepAt(before, k) && e.kind != StepStart && e.kind != StepEnd && e.kind != TurnStart && e.kind != TurnEnd
      ensures OpenStepAt(before, k) ==> k < |before| && events[k] == before[k]
    {
      OpenStepStep(before, e, k);
    }
    assert OpenTurnAt(events, |before|) <==> e.kind == TurnStart && e.data.TurnStartData?;
    assert OpenStepAt(events, |before|) <==> e.kind == StepStart && e.data.StepData?;
  }

  lemma NothingOpen()
    ensures TailExact([], NO_TAIL)
  {
  }

  lemma {:induction false} ScanTail(events: seq<Event>)
    requires Scan(events).Ok?
    ensures TailExact(events, Scan(events).value)
  {
    hide ScanEvent, TailExact;
    if events == [] {
      NothingOpen();
    } else {
      var (before, e) := (events[..|events| - 1], events[|events| - 1]);
      assert events == before + [e];
      ScanTail(before);
      TailStep(before, e, Scan(before).value);
    }
  }

  // ---- The step of a pending call ----

  ghost predicate StepExact(events: seq<Event>, r: Tail, id: CallId) {
    id in r.pending ==> exists d: nat :: LastDeclared(events, id, d) && events[d].data.step == r.pending[id].step
  }

  lemma LastDeclaredStep(before: seq<Event>, e: Event, id: CallId, d: nat)
    requires LastDeclared(before, id, d) && !Declares(e, id) && !Settles(e, id)
    ensures LastDeclared(before + [e], id, d) && (before + [e])[d] == before[d]
  {
    hide Declares, Settles;
    var events := before + [e];
    assert events[|before|] == e && forall m :: 0 <= m < |before| ==> events[m] == before[m];
  }

  lemma DeclaredNow(before: seq<Event>, e: Event, id: CallId)
    requires Declares(e, id)
    ensures LastDeclared(before + [e], id, |before|)
  {
    assert (before + [e])[|before|] == e;
  }

  lemma {:induction false} DeclareAllSteps(r: Tail, content: seq<Block>, step: int, id: CallId)
    ensures var after := DeclareAll(r, content, step);
            id in after.pending ==>
              if DeclaresIn(content, id) then after.pending[id].step == step
              else id in r.pending && after.pending[id].step == r.pending[id].step
  {
    if content != [] {
      var (front, last) := (content[..|content| - 1], content[|content| - 1]);
      DeclareAllSteps(r, front, step, id);
      DeclareAllOnCall(r, front, step, id);
      assert content == front + [last];
      DeclaresSplits(front, last, id);
      hide DeclaresIn;
    }
  }

  lemma DeclaresSplits(front: seq<Block>, last: Block, id: CallId)
    ensures DeclaresIn(front + [last], id) <==> DeclaresIn(front, id) || (last.ToolCallBlock? && last.id == id)
  {
    var content := front + [last];
    assert content[|front|] == last && forall b :: 0 <= b < |front| ==> content[b] == front[b];
  }

  lemma ScanEventSteps(r: Tail, e: Event, id: CallId)
    requires ScanEvent(r, e).Ok? && id in ScanEvent(r, e).value.pending
    ensures !Declares(e, id) ==> id in r.pending && !Settles(e, id)
    ensures ScanEvent(r, e).value.pending[id].step == if Declares(e, id) then e.data.step else r.pending[id].step
  {
    hide Without, DeclareAll, DeclaresIn;
    ScanEventOnCall(r, e, id);
    if e.kind == AssistantMessage {
      DeclareAllSteps(r, e.data.message.content, e.data.step, id);
    }
  }

  lemma {:induction false} ScanSteps(events: seq<Event>, id: CallId)
    requires Scan(events).Ok?
    ensures StepExact(events, Scan(events).value, id)
  {
    hide ScanEvent, LastDeclared, Declares, Settles;
    if events != [] {
      var (before, e) := (events[..|events| - 1], events[|events| - 1]);
      assert events == before + [e] && events[|before|] == e;
      ScanSteps(before, id);
      var r := Scan(before).value;
      if id in Scan(events).value.pending {
        ScanEventSteps(r, e, id);
        if Declares(e, id) {
          DeclaredNow(before, e, id);
        } else {
          LastDeclaredInside(before, id);
          var d: nat :| LastDeclared(before, id, d) && before[d].data.step == r.pending[id].step;
          LastDeclaredStep(before, e, id, d);
        }
      }
    }
  }

  // ---- What repair writes ----

  lemma LastDeclaredInside(events: seq<Event>, id: CallId)
    ensures forall d: nat :: LastDeclared(events, id, d) ==> d < |events| && events[d].data.AssistantData?
  {
  }

  lemma ClosingResultClosesCall(events: seq<Event>, r: Tail, id: CallId, seqNo: int, time: int)
    requires id in r.pending && r.turnIsOpen && TailExact(events, r) && CallExact(events, r, id) && StepExact(events, r, id)
    ensures ClosesCall(events, ClosingResult(r.openTurn, id, r.pending[id], seqNo, time), id, seqNo, time)
  {
    hide Decimal, OpenTurnAt, OpenStepAt, LastDeclared, RecordedAt, Outstanding, SaysUnknown, SaysNotStarted, Reports;
    var e := ClosingResult(r.openTurn, id, r.pending[id], seqNo, time);
    ClosingResultReports(events, r, id, seqNo, time);
    LastDeclaredInside(events, id);
    OpenTurnInside(events);
    var k: nat :| OpenTurnAt(events, k);
    assert e.data.turn == events[k].data.turn;
    var d: nat :| LastDeclared(events, id, d) && events[d].data.step == r.pending[id].step;
    assert e.data.step == events[d].data.step;
  }

  /**
    Everything repair writes. Nothing unless a turn stands open; otherwise one result for each unanswered
    call, in the order the log declared them, then the end of the open step if there is one, then the
    end of the turn, with consecutive seqs after the last event and its time.
  */
  lemma ClosingBatchExactly(events: seq<Event>) returns (ids: seq<CallId>, marks: seq<Mark>)
    requires Interrupted(events).Ok?
    ensures (forall k: nat :: !OpenTurnAt(events, k)) ==> Interrupted(events) == Ok([]) && ids == []
    ensures (exists k: nat :: OpenTurnAt(events, k)) ==>
              var closers := Interrupted(events).value;
              var stepOpen := exists s: nat :: OpenStepAt(events, s);
              && (forall id :: id in ids <==> Outstanding(events, id))
              && MarksOrder(events, ids, marks)
              && |closers| == |ids| + (if stepOpen then 2 else 1) && events != []
              && var (from, time) := (events[|events| - 1].seqNo + 1, events[|events| - 1].time);
              && (forall i :: 0 <= i < |ids| ==> ClosesCall(events, closers[i], ids[i], from + i, time))
              && (stepOpen ==> ClosesStep(events, closers[|ids|], from + |ids|, time))
              && ClosesTurn(events, closers[|closers| - 1], from + |closers| - 1, time)
  {
    hide Scan, OpenTurnAt, OpenStepAt, Outstanding, ClosesCall, ClosingResult, MarksOrder, Closers, ClosesStep, ClosesTurn, CallExact, StepExact;
    ScanTail(events);
    ScanTracked(events);
    var r := Scan(events).value;
    if !r.turnIsOpen {
      ids, marks := [], [];
    } else {
      ids := r.order;
      marks := OrderFollowsTheRecord(events);
      forall id ensures id in ids <==> Outstanding(events, id) {
        PendsExactly(events, id);
      }
      OpenTurnInside(events);
      var (from, time) := (events[|events| - 1].seqNo + 1, events[|events| - 1].time);
      BoundariesClose(events, r, from, time);
      forall i | 0 <= i < |ids| ensures ClosesCall(events, Interrupted(events).value[i], ids[i], from + i, time) {
        assert ids[i] in ids;
        ScanExact(events, ids[i]);
        ScanSteps(events, ids[i]);
        ClosingResultClosesCall(events, r, ids[i], from + i, time);
      }
    }
  }

  lemma OpenTurnInside(events: seq<Event>)
    ensures forall k: nat :: OpenTurnAt(events, k) ==> k < |events| && events[k].data.TurnStartData?
  {
  }

  lemma PendsExactly(events: seq<Event>, id: CallId)
    requires Scan(events).Ok?
    ensures id in Scan(events).value.pending <==> Outstanding(events, id)
  {
    hide Scan, Outstanding, RecordedAt;
    ScanExact(events, id);
  }

  lemma BoundariesClose(events: seq<Event>, r: Tail, from: int, time: int)
    requires OrderPends(r) && TailExact(events, r) && r.turnIsOpen
    ensures var closers := Closers(r, from, time);
            var n := |r.order|;
            && |closers| == n + (if r.stepIsOpen then 2 else 1)
            && (forall i :: 0 <= i < n ==> closers[i] == ClosingResult(r.openTurn, r.order[i], r.pending[r.order[i]], from + i, time))
            && (r.stepIsOpen ==> ClosesStep(events, closers[n], from + n, time))
            && ClosesTurn(events, closers[|closers| - 1], from + |closers| - 1, time)
  {
    hide OpenTurnAt, OpenStepAt, ClosingResult;
  }

  // ---- When repair refuses ----

  /** An event whose contents the scan needs and cannot read. */
  predicate Unreadable(e: Event) {
    match e.kind
    case TurnStart => !e.data.TurnStartData?
    case StepStart => !e.data.StepData?
    case AssistantMessage => !e.data.AssistantData?
    case ToolCall => !e.data.ToolCallData?
    case ToolResult => !e.data.ToolResultData? || !e.data.message.source.ToolSource?
    case _ => false
  }

  /** Repair refuses exactly the logs with an unreadable event, and calls them malformed. */
  lemma {:induction false} RefusesExactly(events: seq<Event>)
    ensures Interrupted(events).Err? <==> exists i :: 0 <= i < |events| && Unreadable(events[i])
    ensures Interrupted(events).Err? ==> Interrupted(events).error == MalformedValue
    ensures Interrupted(events).Err? <==> Scan(events).Err?
  {
    hide Closers, DeclareAll, Answer;
    if events != [] {
      var (before, e) := (events[..|events| - 1], events[|events| - 1]);
      RefusesExactly(before);
      assert events == before + [e] && events[|before|] == e;
      assert forall i :: 0 <= i < |before| ==> events[i] == before[i];
    }
  }
}
