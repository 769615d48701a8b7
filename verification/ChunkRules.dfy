/**
  Which records a batch of events is packed into, told without the packer: by which neighbours join
  into a stretch and what a row says of its stretch (sessionlog/chunkrow.go).
*/
module ChunkRules {
  import opened Outcomes
  import opened LlmContent
  import opened SessionEvents
  import opened ChunkRows

  /** A delta chunk with nothing on its envelope that a row could lose. */
  predicate PlainDelta(e: Event) {
    && e.kind == AssistantChunk && 0 <= e.seqNo
    && !e.ignorable && e.surfaceOp == None && e.sources == None
    && e.data.ChunkData? && (e.data.chunk.TextDelta? || e.data.chunk.ReasoningDelta? || e.data.chunk.ToolCallDelta?)
  }

  /** Two deltas of one kind, and for tool calls of one call. */
  predicate SameKind(a: Chunk, b: Chunk) {
    || (a.TextDelta? && b.TextDelta?)
    || (a.ReasoningDelta? && b.ReasoningDelta?)
    || (a.ToolCallDelta? && b.ToolCallDelta? && a.id == b.id && a.name == b.name)
  }

  /** b goes on where a stopped: the next seq, a gap of 64 bits, the same block. */
  predicate Joins(a: Event, b: Event) {
    && PlainDelta(a) && PlainDelta(b)
    && b.seqNo == a.seqNo + 1
    && -0x8000_0000_0000_0000 <= b.time - a.time <= 0x7FFF_FFFF_FFFF_FFFF
    && a.data.turn == b.data.turn && a.data.step == b.data.step && a.data.chunk.index == b.data.chunk.index
    && SameKind(a.data.chunk, b.data.chunk)
  }

  /** The texts of a row, one for each event of the stretch. */
  predicate TextsOf(texts: seq<string>, stretch: seq<Event>) {
    && |texts| == |stretch|
    && forall i :: 0 <= i < |stretch| ==>
         stretch[i].data.ChunkData? &&
         match stretch[i].data.chunk
         case TextDelta(_, text) => texts[i] == text
         case ReasoningDelta(_, text) => texts[i] == text
         case ToolCallDelta(_, _, _, arguments) => texts[i] == arguments
         case OtherChunk(_) => false
  }

  /** The row says of the stretch where it starts, its gaps, its block and its texts. */
  predicate RowFor(record: Record, stretch: seq<Event>) {
    && record.Row? && |stretch| >= 3 && stretch[0].data.ChunkData? && !stretch[0].data.chunk.OtherChunk?
    && var first := stretch[0].data;
    && record.seq0 == stretch[0].seqNo && record.time0 == stretch[0].time
    && record.data.header == RowHeader(first.turn, first.step, first.chunk.index)
    && |record.data.dt| == |stretch| - 1
    && (forall i :: 0 <= i < |stretch| - 1 ==> record.data.dt[i] == stretch[i + 1].time - stretch[i].time)
    && match first.chunk
       case TextDelta(_, _) => record.tag == TextChunks && record.data.TextRun? && TextsOf(record.data.texts, stretch)
       case ReasoningDelta(_, _) => record.tag == ReasoningChunks && record.data.TextRun? && TextsOf(record.data.texts, stretch)
       case ToolCallDelta(_, id, name, _) =>
         record.tag == ToolCallChunks && record.data.ToolCallRun? && record.data.id == id && record.data.name == name
         && TextsOf(record.data.args, stretch)
       case OtherChunk(_) => false
  }

  predicate JoinedAt(events: seq<Event>, i: nat) {
    0 < i < |events| && Joins(events[i - 1], events[i])
  }

  predicate Trio(events: seq<Event>, j: nat) {
    JoinedAt(events, j + 1) && JoinedAt(events, j + 2)
  }

  /** No three joined events include the one at i. */
  ghost predicate Alone(events: seq<Event>, i: nat) {
    forall j: nat :: j <= i <= j + 2 ==> !Trio(events, j)
  }

  /** A row stands for a whole stretch of at least three; a line for an event that is in none. */
  ghost predicate Stands(record: Record, events: seq<Event>, from: nat, to: nat) {
    && from < to <= |events|
    && if record.Row? then
         && RowFor(record, events[from..to])
         && (forall i :: from < i < to ==> JoinedAt(events, i)) && !JoinedAt(events, from) && !JoinedAt(events, to)
       else
         to == from + 1 && record == Line(events[from]) && Alone(events, from)
  }

  ghost predicate Covers(records: seq<Record>, events: seq<Event>, cuts: seq<nat>, from: nat) {
    && |cuts| == |records| + 1 && cuts[0] == from && cuts[|records|] == |events|
    && forall k :: 0 <= k < |records| ==> Stands(records[k], events, cuts[k], cuts[k + 1])
  }

  // ---- The packer does exactly that ----

  lemma PlainIsPackable(e: Event)
    ensures PlainDelta(e) <==> Packable(e)
  {
  }

  lemma JoinsIsContinues(a: Event, b: Event)
    requires Packable(a) && Packable(b) && Wide(a) && Wide(b)
    ensures Joins(a, b) <==> Continues(a, b)
  {
    ContinuesExactly(a, b);
    PlainIsPackable(a);
    PlainIsPackable(b);
    hide Continues;
  }

  lemma StretchIsRun(events: seq<Event>, from: nat, n: nat)
    requires AllWide(events) && from + n <= |events| && n > 0
    ensures RunsTo(events[from..], n) <==> PlainDelta(events[from]) && forall i :: from < i < from + n ==> JoinedAt(events, i)
  {
    hide Packable, Continues, Joins, PlainDelta, Wide;
    var rest := events[from..];
    forall i | 0 <= i < |events| ensures PlainDelta(events[i]) <==> Packable(events[i]) {
      PlainIsPackable(events[i]);
    }
    forall i | 0 < i < |events| ensures JoinedAt(events, i) <==> Packable(events[i - 1]) && Packable(events[i]) && Continues(events[i - 1], events[i])
    {
      JoinedIs(events, i);
    }
    assert forall i :: 0 <= i < |rest| ==> rest[i] == events[from + i];
    if RunsTo(rest, n) {
      forall i | from < i < from + n ensures JoinedAt(events, i) {
        assert Continues(rest[i - from - 1], rest[i - from]);
      }
    }
    if PlainDelta(events[from]) && forall i :: from < i < from + n ==> JoinedAt(events, i) {
      forall i | 0 <= i < n ensures Packable(rest[i]) && (i > 0 ==> Packable(rest[i - 1]) && Continues(rest[i - 1], rest[i])) {
        assert i > 0 ==> JoinedAt(events, from + i);
      }
    }
  }

  lemma JoinedIs(events: seq<Event>, i: nat)
    requires AllWide(events) && 0 < i < |events|
    ensures JoinedAt(events, i) <==> Packable(events[i - 1]) && Packable(events[i]) && Continues(events[i - 1], events[i])
  {
    hide Continues;
    PlainIsPackable(events[i - 1]);
    PlainIsPackable(events[i]);
    if Packable(events[i - 1]) && Packable(events[i]) {
      JoinsIsContinues(events[i - 1], events[i]);
    }
  }

  lemma JoinedArePlain(events: seq<Event>, i: nat)
    requires JoinedAt(events, i)
    ensures PlainDelta(events[i - 1]) && PlainDelta(events[i])
  {
  }

  lemma TextsSay(run: seq<Event>)
    requires forall i :: 0 <= i < |run| ==> Packable(run[i])
    ensures TextsOf(Texts(run), run)
  {
    forall i | 0 <= i < |run| ensures Packable(run[i]) && Texts(run)[i] == TextOf(run[i].data.chunk) {
    }
  }

  lemma GapsSay(run: seq<Event>)
    requires run != [] && IsRun(run) && AllWide(run)
    ensures forall i :: 0 <= i < |run| - 1 ==> Gaps(run)[i] == run[i + 1].time - run[i].time
  {
    hide Wrap, Packable;
    forall i | 0 <= i < |run| - 1 ensures Gaps(run)[i] == run[i + 1].time - run[i].time {
      assert Packable(run[i]) && Packable(run[i + 1]) && Continues(run[i], run[i + 1]);
      ContinuesExactly(run[i], run[i + 1]);
      WrapFits(run[i + 1].time - run[i].time);
    }
  }

  lemma WrapFits(x: int)
    requires Fits(x)
    ensures Wrap(x) == x
  {
  }

  lemma BuiltRowSays(run: seq<Event>)
    requires |run| >= 3 && IsRun(run) && AllWide(run)
    ensures RowFor(BuildRow(run), run)
  {
    hide Gaps, Texts, TextsOf, Continues;
    assert Packable(run[0]);
    TextsSay(run);
    GapsSay(run);
  }

  /** The n events from here on form a stretch that ends here, both ends being ends. */
  ghost predicate Whole(events: seq<Event>, from: nat, n: nat) {
    && 0 < n && from + n <= |events|
    && (forall i :: from < i < from + n ==> JoinedAt(events, i)) && !JoinedAt(events, from) && !JoinedAt(events, from + n)
  }

  lemma NextStretch(events: seq<Event>, from: nat)
    requires AllWide(events) && from < |events| && !JoinedAt(events, from)
    ensures var n := RunLength(events[from..]);
            if n == 0 then !PlainDelta(events[from]) && Whole(events, from, 1) else Whole(events, from, n) && PlainDelta(events[from])
  {
    hide Packable, Continues, Joins, PlainDelta, Wide;
    var n := RunLength(events[from..]);
    RunInside(events[from..], n);
    if n == 0 {
      RunsToOne(events, from);
      if JoinedAt(events, from + 1) {
        JoinedArePlain(events, from + 1);
      }
    } else {
      StretchIsRun(events, from, n);
      if JoinedAt(events, from + n) {
        StretchIsRun(events, from, n + 1);
      }
    }
  }

  lemma RunInside(events: seq<Event>, n: nat)
    requires n == RunLength(events)
    ensures n <= |events| && RunsTo(events, n) && !RunsTo(events, n + 1)
  {
  }

  lemma RunsToOne(events: seq<Event>, from: nat)
    requires AllWide(events) && from < |events| && !RunsTo(events[from..], 1)
    ensures !PlainDelta(events[from])
  {
    StretchIsRun(events, from, 1);
  }

  /** The events of a short stretch are in no stretch of three. */
  lemma ShortIsAlone(events: seq<Event>, from: nat, n: nat, i: nat)
    requires Whole(events, from, n) && n < 3 && from <= i < from + n
    ensures Alone(events, i)
  {
    forall j: nat | j <= i <= j + 2 ensures !Trio(events, j) {
      assert !JoinedAt(events, from) && !JoinedAt(events, from + n);
      if j + 1 <= from && from <= j + 2 {
        assert from == j + 1 || from == j + 2;
      } else {
        assert from + n == j + 1 || from + n == j + 2;
      }
    }
  }

  lemma RowStands(events: seq<Event>, from: nat, n: nat)
    requires AllWide(events) && Whole(events, from, n) && IsRun(events[from..from + n]) && n >= 3
    ensures var records := Flushed(events[from..from + n]);
            |records| == 1 && Stands(records[0], events, from, from + n)
  {
    hide Packable, Continues, Wide, BuildRow, RowFor, JoinedAt;
    var run := events[from..from + n];
    WideInside(events, from, n);
    BuiltRowSays(run);
    assert RowFor(BuildRow(run), run);
    RowIsRow(BuildRow(run), run);
  }

  lemma WideInside(events: seq<Event>, from: nat, n: nat)
    requires AllWide(events) && from + n <= |events|
    ensures AllWide(events[from..from + n])
  {
  }

  lemma RowIsRow(record: Record, stretch: seq<Event>)
    requires RowFor(record, stretch)
    ensures record.Row?
  {
  }

  function NextCut(cuts: seq<nat>, k: nat, to: nat): nat {
    if k + 1 < |cuts| then cuts[k + 1] else to
  }

  lemma FlushedStands(events: seq<Event>, from: nat, n: nat) returns (cuts: seq<nat>)
    requires AllWide(events) && Whole(events, from, n) && IsRun(events[from..from + n])
    ensures var records := Flushed(events[from..from + n]);
            && |cuts| == |records| && |records| > 0 && cuts[0] == from
            && forall k :: 0 <= k < |records| ==> Stands(records[k], events, cuts[k], NextCut(cuts, k, from + n))
  {
    hide Packable, Continues, Joins, PlainDelta, Wide, BuildRow, Alone, RowFor, JoinedAt, IsRun;
    var run := events[from..from + n];
    if n >= 3 {
      RowStands(events, from, n);
      cuts := [from];
    } else {
      cuts := seq(n, k requires 0 <= k < n => from + k);
      hide Stands;
      forall k | 0 <= k < n ensures Stands(Lines(run)[k], events, cuts[k], NextCut(cuts, k, from + n)) {
        ShortIsAlone(events, from, n, from + k);
        LineStands(events, from + k);
        assert Lines(run)[k] == Line(events[from + k]);
      }
    }
  }

  /**
    The packing, record by record: each row stands for a whole stretch of three or more joined events,
    each line for an event that is in no such stretch, and nothing is left over.
  */
  lemma {:induction false} PackedCovers(events: seq<Event>, from: nat) returns (cuts: seq<nat>)
    requires AllWide(events) && from <= |events| && !JoinedAt(events, from)
    ensures Covers(Packed(events[from..]), events, cuts, from)
    decreases |events| - from
  {
    hide Packable, Continues, Joins, PlainDelta, Wide, BuildRow, Alone, RowFor, JoinedAt, IsRun, Packed, Flushed, Stands, RunLength, Whole;
    if from == |events| {
      cuts := [from];
      assert events[from..] == [];
      NothingPacked();
    } else {
      var rest := events[from..];
      var n := RunLength(rest);
      PackedStep(rest);
      NextStretch(events, from);
      if n == 0 {
        WholeEnds(events, from, 1);
        ShortIsAlone(events, from, 1, from);
        LineStands(events, from);
        var more := PackedCovers(events, from + 1);
        cuts := [from] + more;
        assert rest[1..] == events[from + 1..] && rest[0] == events[from];
        CoversFront([Line(rest[0])], [from], Packed(events[from + 1..]), events, more, from, from + 1);
      } else {
        WholeEnds(events, from, n);
        assert rest[..n] == events[from..from + n] && rest[n..] == events[from + n..];
        var front := FlushedStands(events, from, n);
        var more := PackedCovers(events, from + n);
        cuts := front + more;
        CoversFront(Flushed(rest[..n]), front, Packed(events[from + n..]), events, more, from, from + n);
      }
    }
  }

  lemma WholeEnds(events: seq<Event>, from: nat, n: nat)
    requires Whole(events, from, n)
    ensures from + n <= |events| && n > 0 && !JoinedAt(events, from + n)
  {
  }

  lemma LineStands(events: seq<Event>, i: nat)
    requires i < |events| && Alone(events, i)
    ensures Stands(Line(events[i]), events, i, i + 1)
  {
  }

  lemma CoversFront(front: seq<Record>, cuts: seq<nat>, records: seq<Record>, events: seq<Event>, more: seq<nat>, from: nat, to: nat)
    requires Covers(records, events, more, to)
    requires |cuts| == |front| > 0 && cuts[0] == from
    requires forall k :: 0 <= k < |front| ==> Stands(front[k], events, cuts[k], NextCut(cuts, k, to))
    ensures Covers(front + records, events, cuts + more, from)
  {
    hide Stands;
    var (all, records') := (cuts + more, front + records);
    forall k | 0 <= k < |records'| ensures Stands(records'[k], events, all[k], all[k + 1]) {
      if k < |front| {
        assert records'[k] == front[k] && all[k] == cuts[k] && all[k + 1] == NextCut(cuts, k, to);
      } else {
        assert records'[k] == records[k - |front|] && all[k] == more[k - |front|] && all[k + 1] == more[k + 1 - |front|];
      }
    }
  }
}
