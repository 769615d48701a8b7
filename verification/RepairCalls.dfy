/**
  What repair tells the model about each unanswered call, read off the log itself: which calls
  are outstanding, and which of those were recorded as started before the crash.
*/
module RepairCalls {
  import opened Outcomes
  import opened LlmContent
  import opened Decimals
  import opened SessionEvents
  import opened TurnTrace
  import opened Repair
  import opened RepairTheorems

  predicate DeclaresIn(content: seq<Block>, id: CallId) {
    exists b :: 0 <= b < |content| && content[b].ToolCallBlock? && content[b].id == id
  }

  predicate Declares(e: Event, id: CallId) {
    e.kind == AssistantMessage && e.data.AssistantData? && DeclaresIn(e.data.message.content, id)
  }

  predicate Records(e: Event, id: CallId) {
    e.kind == ToolCall && e.data.ToolCallData? && e.data.callId == id
  }

  predicate Answers(e: Event, id: CallId) {
    e.kind == ToolResult && e.data.ToolResultData? && e.data.message.source == ToolSource(id)
  }

  predicate Boundary(e: Event) {
    e.kind == TurnStart || e.kind == TurnEnd || e.kind == StepEnd
  }

  /** The event ends the standing of a declared call: its result, or the end of its step. */
  predicate Settles(e: Event, id: CallId) {
    Boundary(e) || Answers(e, id)
  }

  /** Declared at d and neither answered nor closed off since. */
  predicate OutstandingSince(events: seq<Event>, id: CallId, d: nat) {
    d < |events| && Declares(events[d], id) && forall m :: d < m < |events| ==> !Settles(events[m], id)
  }

  predicate Outstanding(events: seq<Event>, id: CallId) {
    exists d :: 0 <= d < |events| && OutstandingSince(events, id, d)
  }

  /** Recorded as started at c while outstanding, with no later word about the call. */
  predicate RecordedAt(events: seq<Event>, id: CallId, c: nat) {
    && c < |events| && Records(events[c], id) && Outstanding(events[..c], id)
    && forall m :: c < m < |events| ==> !Settles(events[m], id) && !Declares(events[m], id) && !Records(events[m], id)
  }

  // ---- The scan computes exactly that ----

  lemma OutstandingStep(before: seq<Event>, last: Event, id: CallId)
    ensures Outstanding(before + [last], id) <==>
            Declares(last, id) || (Outstanding(before, id) && !Settles(last, id))
  {
    hide Declares, Settles;
    var events := before + [last];
    if Outstanding(events, id) {
      var d :| 0 <= d < |events| && OutstandingSince(events, id, d);
      if d < |before| {
        assert events[|before|] == last;
        assert forall m :: d < m < |before| ==> events[m] == before[m];
        assert OutstandingSince(before, id, d);
      }
    }
    if Outstanding(before, id) && !Settles(last, id) {
      var d :| 0 <= d < |before| && OutstandingSince(before, id, d);
      assert forall m :: d < m < |before| ==> events[m] == before[m];
      assert OutstandingSince(events, id, d);
    }
    if Declares(last, id) {
      assert OutstandingSince(events, id, |before|);
    }
  }

  lemma RecordedStep(before: seq<Event>, last: Event, id: CallId, c: nat)
    ensures RecordedAt(before + [last], id, c) <==>
            if c == |before| then Records(last, id) && Outstanding(before, id)
            else RecordedAt(before, id, c) && !Settles(last, id) && !Declares(last, id) && !Records(last, id)
  {
    hide Declares, Settles, Records, Outstanding;
    var events := before + [last];
    assert events[..|before|] == before && events[|before|] == last;
    if c < |before| {
      assert events[..c] == before[..c];
      assert forall m :: 0 <= m < |before| ==> events[m] == before[m];
    }
  }

  /** The scan's record of one call is what the log says of it. */
  ghost predicate CallExact(events: seq<Event>, r: Tail, id: CallId) {
    && (id in r.pending <==> Outstanding(events, id))
    && (id in r.pending ==>
          match r.pending[id].startedAt
          case Some(s) => exists c :: 0 <= c < |events| && RecordedAt(events, id, c) && events[c].seqNo == s
          case None => forall c :: 0 <= c < |events| ==> !RecordedAt(events, id, c))
  }

  /** The effect of one event on the record of one call. */
  lemma ScanEventOnCall(r: Tail, event: Event, id: CallId)
    requires ScanEvent(r, event).Ok?
    ensures var after := ScanEvent(r, event).value;
            && (id in after.pending <==> Declares(event, id) || (id in r.pending && !Settles(event, id)))
            && (id in after.pending ==>
                  after.pending[id].startedAt ==
                  if Declares(event, id) then None
                  else if Records(event, id) then Some(event.seqNo)
                  else r.pending[id].startedAt)
  {
    hide Without;
    if event.kind == AssistantMessage {
      DeclareAllOnCall(r, event.data.message.content, event.data.step, id);
    }
  }

  lemma {:induction false} DeclareAllOnCall(r: Tail, content: seq<Block>, step: int, id: CallId)
    ensures var after := DeclareAll(r, content, step);
            && (id in after.pending <==> DeclaresIn(content, id) || id in r.pending)
            && (id in after.pending ==>
                  after.pending[id].startedAt == if DeclaresIn(content, id) then None else r.pending[id].startedAt)
  {
    if content != [] {
      var (front, last) := (content[..|content| - 1], content[|content| - 1]);
      DeclareAllOnCall(r, front, step, id);
      assert content == front + [last];
      assert DeclaresIn(content, id) <==> DeclaresIn(front, id) || (last.ToolCallBlock? && last.id == id) by {
        if DeclaresIn(front, id) {
          var b :| 0 <= b < |front| && front[b].ToolCallBlock? && front[b].id == id;
          assert content[b] == front[b];
        }
        if last.ToolCallBlock? && last.id == id {
          assert content[|content| - 1] == last;
        }
      }
      hide DeclaresIn;
    }
  }

  lemma {:induction false} ScanExact(events: seq<Event>, id: CallId)
    requires Scan(events).Ok?
    ensures CallExact(events, Scan(events).value, id)
  {
    hide ScanEvent, Outstanding, RecordedAt, Declares, Settles, Records;
    if events == [] {
      assert !Outstanding([], id) by { NothingOutstanding(id); }
    } else {
      var (before, last) := (events[..|events| - 1], events[|events| - 1]);
      assert events == before + [last];
      ScanExact(before, id);
      var (r, after) := (Scan(before).value, Scan(events).value);
      ScanEventOnCall(r, last, id);
      OutstandingStep(before, last, id);
      forall c | 0 <= c < |events|
        ensures RecordedAt(events, id, c) <==>
                if c == |before| then Records(last, id) && Outstanding(before, id)
                else RecordedAt(before, id, c) && !Settles(last, id) && !Declares(last, id) && !Records(last, id)
      {
        RecordedStep(before, last, id, c);
      }
      OneKind(last, id);
      CallExactStep(before, last, r, after, id);
    }
  }

  lemma CallExactStep(before: seq<Event>, last: Event, r: Tail, after: Tail, id: CallId)
    requires CallExact(before, r, id)
    requires var events := before + [last];
             && (Outstanding(events, id) <==> Declares(last, id) || (Outstanding(before, id) && !Settles(last, id)))
             && forall c :: 0 <= c < |events| ==>
                  (RecordedAt(events, id, c) <==>
                   if c == |before| then Records(last, id) && Outstanding(before, id)
                   else RecordedAt(before, id, c) && !Settles(last, id) && !Declares(last, id) && !Records(last, id))
    requires id in after.pending <==> Declares(last, id) || (id in r.pending && !Settles(last, id))
    requires id in after.pending ==>
               after.pending[id].startedAt ==
               if Declares(last, id) then None else if Records(last, id) then Some(last.seqNo) else r.pending[id].startedAt
    requires !(Declares(last, id) && Records(last, id)) && !(Records(last, id) && Settles(last, id))
    ensures CallExact(before + [last], after, id)
  {
    hide Outstanding, RecordedAt, Declares, Settles, Records;
    var events := before + [last];
    if id in after.pending && after.pending[id].startedAt.Some? {
      if Records(last, id) {
        assert RecordedAt(events, id, |before|) && events[|before|] == last;
      } else {
        var c :| 0 <= c < |before| && RecordedAt(before, id, c) && before[c].seqNo == r.pending[id].startedAt.value;
        assert RecordedAt(events, id, c) && events[c] == before[c];
      }
    }
  }

  lemma NothingOutstanding(id: CallId)
    ensures !Outstanding([], id)
  {
  }

  lemma OneKind(e: Event, id: CallId)
    ensures !(Declares(e, id) && Records(e, id)) && !(Declares(e, id) && Settles(e, id)) && !(Records(e, id) && Settles(e, id))
  {
  }

  // ---- What the closing events say ----

  /** Every call declared in the tail's open step is answered later, by the log or by repair. */
  lemma EveryDeclaredCallAnswered(events: seq<Event>, d: nat, id: CallId)
    requires Replay(events).Ok? && Interrupted(events).Ok?
    requires d < |events| && Declares(events[d], id) && forall m :: d < m < |events| ==> !Boundary(events[m])
    ensures var closed := events + Interrupted(events).value;
            exists m :: d < m < |closed| && Answers(closed[m], id)
  {
    hide Scan, Replay, Closers, Declares, Boundary;
    var closed := events + Interrupted(events).value;
    if m :| d < m < |events| && Answers(events[m], id) {
      assert closed[m] == events[m];
    } else {
      assert OutstandingSince(events, id, d);
      var i := CloserFor(events, id);
      assert closed[|events| + i] == Interrupted(events).value[i];
    }
  }

  lemma CloserFor(events: seq<Event>, id: CallId) returns (i: nat)
    requires Replay(events).Ok? && Interrupted(events).Ok? && Outstanding(events, id)
    ensures i < |Interrupted(events).value| && Answers(Interrupted(events).value[i], id)
  {
    hide Replay, Scan, Outstanding, ClosingResult;
    ScanExact(events, id);
    ScanTracked(events);
    ScanAgrees(events);
    ReplayWellNested(events);
    var r := Scan(events).value;
    assert CallAgrees(Replay(events).value, id, r.pending[id]);
    assert events != [] by { if events == [] { assert false by { NothingOutstanding(id); } } }
    i :| 0 <= i < |r.order| && r.order[i] == id;
    var last := events[|events| - 1];
    assert Interrupted(events).value[i] ==
           ClosingResult(r.openTurn, id, r.pending[id], last.seqNo + 1 + i, last.time);
    ClosingResultAnswers(r.openTurn, id, r.pending[id], last.seqNo + 1 + i, last.time);
  }

  lemma ClosingResultAnswers(openTurn: int, id: CallId, call: PendingCall, seqNo: int, time: int)
    ensures Answers(ClosingResult(openTurn, id, call, seqNo, time), id)
  {
    hide Decimal;
  }

  /** The call ran for all the log knows: the warning not to repeat it blindly, and where it was recorded. */
  ghost predicate SaysUnknown(events: seq<Event>, e: Event, id: CallId)
    requires e.data.ToolResultData?
  {
    && e.data.error == Some(ToolError("ToolOutcomeUnknownError", "TOOL_OUTCOME_UNKNOWN"))
    && (exists c: nat :: RecordedAt(events, id, c) && e.sources == Some([events[c].seqNo]))
    && e.data.message.content == [ToolResultBlock(id, [TextBlock("The tool call was interrupted after it was recorded, but no result was durably recorded. Its outcome is unknown. Decide whether to retry from the tool semantics: retry only if the operation is read-only or idempotent; if it may have side effects, first verify external state or ask the user. Do not retry blindly.")], true)]
  }

  /** The call never ran: it may simply be made again. */
  predicate SaysNotStarted(e: Event, id: CallId)
    requires e.data.ToolResultData?
  {
    && e.data.error == Some(ToolError("ToolNotStartedError", "TOOL_NOT_STARTED"))
    && e.sources == None
    && e.data.message.content == [ToolResultBlock(id, [TextBlock("The tool call was interrupted before the Harness recorded it as started. Retry it if it is still needed.")], true)]
  }

  /** The closing result for a call: outcome unknown, citing its record, or never started. */
  ghost predicate Reports(events: seq<Event>, closer: Event, id: CallId) {
    && Answers(closer, id)
    && if exists c: nat :: RecordedAt(events, id, c) then SaysUnknown(events, closer, id) else SaysNotStarted(closer, id)
  }

  /**
    The results repair writes are one per outstanding call, and each says truthfully whether the
    call was recorded as started: a call that may have had effects is never reported as not started.
  */
  lemma ClosersReportTheRecord(events: seq<Event>) returns (ids: seq<CallId>)
    requires Interrupted(events).Ok? && Scan(events).Ok? && Scan(events).value.turnIsOpen && events != []
    ensures |ids| <= |Interrupted(events).value|
    ensures forall i, j :: 0 <= i < j < |ids| ==> ids[i] != ids[j]
    ensures forall id :: id in ids <==> Outstanding(events, id)
    ensures forall i :: 0 <= i < |ids| ==> Reports(events, Interrupted(events).value[i], ids[i])
    ensures forall i :: |ids| <= i < |Interrupted(events).value| ==> !Interrupted(events).value[i].kind.ToolResult?
  {
    hide Scan, Outstanding, RecordedAt, ClosingResult, Reports;
    ScanTracked(events);
    var r := Scan(events).value;
    ids := r.order;
    var last := events[|events| - 1];
    forall id ensures id in ids <==> Outstanding(events, id) {
      ScanExact(events, id);
    }
    forall i | 0 <= i < |ids| ensures Reports(events, Interrupted(events).value[i], ids[i]) {
      assert ids[i] in ids;
      ScanExact(events, ids[i]);
      ClosingResultReports(events, r, ids[i], last.seqNo + 1 + i, last.time);
    }
  }

  lemma ClosingResultReports(events: seq<Event>, r: Tail, id: CallId, seqNo: int, time: int)
    requires id in r.pending && CallExact(events, r, id)
    ensures Reports(events, ClosingResult(r.openTurn, id, r.pending[id], seqNo, time), id)
  {
    hide Decimal, Outstanding, RecordedAt;
    RecordedInside(events, id);
  }

  lemma RecordedInside(events: seq<Event>, id: CallId)
    ensures forall c: nat :: RecordedAt(events, id, c) ==> c < |events|
  {
  }

  // ---- The closing results come in the order of the record ----

  /** Where a declaration stands: event index, then block index. */
  datatype Mark = Mark(event: nat, block: nat) {
    predicate Before(other: Mark) {
      event < other.event || (event == other.event && block < other.block)
    }
  }

  ghost predicate MarksCall(events: seq<Event>, id: CallId, mark: Mark) {
    && OutstandingSince(events, id, mark.event)
    && var content := events[mark.event].data.message.content;
       mark.block < |content| && content[mark.block].ToolCallBlock? && content[mark.block].id == id
  }

  ghost predicate MarksOrder(events: seq<Event>, order: seq<CallId>, marks: seq<Mark>) {
    && |marks| == |order|
    && (forall i :: 0 <= i < |order| ==> MarksCall(events, order[i], marks[i]))
    && Increasing(marks)
  }

  ghost predicate Increasing(marks: seq<Mark>) {
    forall i, j :: 0 <= i < j < |marks| ==> marks[i].Before(marks[j])
  }

  ghost predicate Paired(order: seq<CallId>, marks: seq<Mark>, id: CallId, mark: Mark)
    requires |marks| == |order|
  {
    exists k :: 0 <= k < |order| && order[k] == id && marks[k] == mark
  }

  lemma {:induction false} WithoutMarks(order: seq<CallId>, marks: seq<Mark>, id: CallId) returns (kept: seq<Mark>)
    requires |marks| == |order| && Increasing(marks)
    ensures |kept| == |Without(order, id)| && Increasing(kept)
    ensures forall i :: 0 <= i < |kept| ==> Paired(order, marks, Without(order, id)[i], kept[i])
  {
    if order == [] {
      kept := [];
    } else {
      var rest := WithoutMarks(order[1..], marks[1..], id);
      forall i | 0 <= i < |rest|
        ensures Paired(order, marks, Without(order[1..], id)[i], rest[i]) && marks[0].Before(rest[i])
      {
      }
      assert Paired(order, marks, order[0], marks[0]);
      kept := if order[0] == id then rest else [marks[0]] + rest;
      hide Paired;
    }
  }

  lemma MarksCallKept(before: seq<Event>, last: Event, id: CallId, mark: Mark)
    requires MarksCall(before, id, mark) && !Settles(last, id)
    ensures MarksCall(before + [last], id, mark)
  {
    hide Declares, Settles;
    var events := before + [last];
    assert forall m :: 0 <= m < |before| ==> events[m] == before[m];
  }

  /** The calls an assistant message declares follow those declared before it, block by block. */
  lemma {:induction false} DeclareAllMarks(before: seq<Event>, last: Event, r: Tail, n: nat, marks: seq<Mark>) returns (more: seq<Mark>)
    requires last.kind == AssistantMessage && last.data.AssistantData? && n <= |last.data.message.content|
    requires MarksOrder(before, r.order, marks)
    ensures MarksOrder(before + [last], DeclareAll(r, last.data.message.content[..n], last.data.step).order, more)
    ensures forall i :: 0 <= i < |more| ==> more[i].Before(Mark(|before|, n))
  {
    hide OutstandingSince, Settles;
    var content := last.data.message.content;
    if n == 0 {
      more := marks;
      forall i | 0 <= i < |marks| ensures MarksCall(before + [last], r.order[i], marks[i]) && marks[i].Before(Mark(|before|, 0)) {
        NotSettled(last, r.order[i]);
        MarkInside(before, r.order[i], marks[i]);
        MarksCallKept(before, last, r.order[i], marks[i]);
      }
    } else {
      more := DeclareAllMarks(before, last, r, n - 1, marks);
      assert content[..n][..n - 1] == content[..n - 1];
      var so_far := DeclareAll(r, content[..n - 1], last.data.step);
      if content[n - 1].ToolCallBlock? && content[n - 1].id !in so_far.pending {
        more := more + [Mark(|before|, n - 1)];
        NewMark(before, last, n - 1);
      }
    }
  }

  lemma NotSettled(e: Event, id: CallId)
    requires e.kind == AssistantMessage
    ensures !Settles(e, id)
  {
  }

  lemma MarkInside(events: seq<Event>, id: CallId, mark: Mark)
    requires MarksCall(events, id, mark)
    ensures mark.event < |events|
  {
  }

  lemma NewMark(before: seq<Event>, last: Event, b: nat)
    requires last.kind == AssistantMessage && last.data.AssistantData?
    requires b < |last.data.message.content| && last.data.message.content[b].ToolCallBlock?
    ensures MarksCall(before + [last], last.data.message.content[b].id, Mark(|before|, b))
  {
  }

  lemma EventMarks(before: seq<Event>, last: Event, r: Tail, marks: seq<Mark>) returns (kept: seq<Mark>)
    requires MarksOrder(before, r.order, marks) && Tracked(r) && ScanEvent(r, last).Ok?
    ensures MarksOrder(before + [last], ScanEvent(r, last).value.order, kept)
  {
    hide DeclareAll, MarksCall, Without, Settles, Answer, Increasing;
    if last.kind == AssistantMessage {
      kept := DeclareAllMarks(before, last, r, |last.data.message.content|, marks);
      assert last.data.message.content[..|last.data.message.content|] == last.data.message.content;
    } else if last.kind == ToolResult {
      kept := AnswerMarks(before, last, r, marks);
    } else if Boundary(last) {
      kept := [];
      assert Increasing([]) by { NothingToOrder(); }
    } else {
      kept := marks;
      forall i | 0 <= i < |marks| ensures MarksCall(before + [last], r.order[i], marks[i]) {
        NoAnswer(last, r.order[i]);
        MarksCallKept(before, last, r.order[i], marks[i]);
      }
    }
  }

  lemma NothingToOrder()
    ensures Increasing([])
  {
  }

  /** The pending calls are listed in the order in which the log declared them. */
  lemma {:induction false} OrderFollowsTheRecord(events: seq<Event>) returns (marks: seq<Mark>)
    requires Scan(events).Ok?
    ensures MarksOrder(events, Scan(events).value.order, marks)
  {
    hide ScanEvent;
    if events == [] {
      marks := [];
    } else {
      var (before, last) := (events[..|events| - 1], events[|events| - 1]);
      assert events == before + [last];
      marks := OrderFollowsTheRecord(before);
      ScanTracked(before);
      marks := EventMarks(before, last, Scan(before).value, marks);
    }
  }

  lemma NoAnswer(e: Event, id: CallId)
    requires e.kind != ToolResult && !Boundary(e)
    ensures !Settles(e, id)
  {
  }

  lemma AnswerMarks(before: seq<Event>, last: Event, r: Tail, marks: seq<Mark>) returns (kept: seq<Mark>)
    requires MarksOrder(before, r.order, marks) && Tracked(r)
    requires last.kind == ToolResult && last.data.ToolResultData? && last.data.message.source.ToolSource?
    ensures MarksOrder(before + [last], Answer(r, last.data.message.source.callId).order, kept)
  {
    hide MarksCall, Without;
    var id := last.data.message.source.callId;
    WithoutIs(r.order, id);
    var left := Answer(r, id).order;
    if id in r.pending {
      kept := WithoutMarks(r.order, marks, id);
    } else {
      kept := marks;
    }
    forall i | 0 <= i < |kept| ensures MarksCall(before + [last], left[i], kept[i]) {
      assert left[i] in left;
      MarksCallKept(before, last, left[i], kept[i]);
    }
  }
}
