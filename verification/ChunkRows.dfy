/**
  The chunk-row codec (sessionlog/chunkrow.go): runs of consecutive delta events stored as one
  row, and rows expanded back, over 64-bit integers that wrap around.
*/
module ChunkRows {
  import opened Outcomes
  import opened LlmContent
  import opened SessionEvents

  // ---------------------------------------------------------------------------------------------
  // 64-bit arithmetic

  const MIN64: int := -0x8000_0000_0000_0000
  const MAX64: int := 0x7FFF_FFFF_FFFF_FFFF
  const SPAN64: int := 0x1_0000_0000_0000_0000

  predicate Fits(x: int) {
    MIN64 <= x <= MAX64
  }

  /** Two's complement wrap-around. */
  function Wrap(x: int): (r: int)
    ensures Fits(r) && (Fits(x) ==> r == x)
  {
    (x - MIN64) % SPAN64 + MIN64
  }

  predicate SubOverflows(a: int, b: int) {
    var difference := Wrap(a - b);
    (a >= 0) != (b >= 0) && (difference >= 0) != (a >= 0)
  }

  predicate AddOverflows(a: int, b: int) {
    var sum := Wrap(a + b);
    (a >= 0) == (b >= 0) && (sum >= 0) != (a >= 0)
  }

  lemma WrapOnce(x: int)
    requires MIN64 + MIN64 <= x <= MAX64 + MAX64 + 1
    ensures Wrap(x) == if x > MAX64 then x - SPAN64 else if x < MIN64 then x + SPAN64 else x
  {
  }

  /** The sign tests fire exactly when the true difference or sum leaves the 64-bit range. */
  lemma OverflowTestsAreExact(a: int, b: int)
    requires Fits(a) && Fits(b)
    ensures SubOverflows(a, b) <==> !Fits(a - b)
    ensures AddOverflows(a, b) <==> !Fits(a + b)
  {
    WrapOnce(a - b);
    WrapOnce(a + b);
  }

  // ---------------------------------------------------------------------------------------------
  // Storage records

  const MIN_RUN: nat := 3

  datatype RowTag = TextChunks | ReasoningChunks | ToolCallChunks

  /** What every member of a row has in common. */
  datatype RowHeader = RowHeader(turn: int, step: int, index: int)

  datatype RowData =
    | TextRun(header: RowHeader, dt: seq<int>, texts: seq<string>)
    | ToolCallRun(header: RowHeader, dt: seq<int>, id: CallId, name: Option<string>, args: seq<string>)

  /** One decoded line: an event, or a row; a row's payload may be the wrong one for its tag. */
  datatype Record =
    | Line(event: Event)
    | Row(tag: RowTag, seq0: int, time0: int, data: RowData)

  /** Event types that collide with a row's tag. */
  predicate IsRowTag(kind: EventType) {
    kind == Extension("text-chunks") || kind == Extension("reasoning-chunks") || kind == Extension("tool-call-chunks")
  }

  // ---------------------------------------------------------------------------------------------
  // Packing

  /** classify: the whole shape is known and nothing else is on the envelope. */
  predicate Packable(event: Event) {
    && event.kind.AssistantChunk? && event.seqNo >= 0
    && !event.ignorable && event.surfaceOp.None? && event.sources.None?
    && event.data.ChunkData? && !event.data.chunk.OtherChunk?
  }

  function TagOf(chunk: Chunk): RowTag
    requires !chunk.OtherChunk?
  {
    match chunk
    case TextDelta(_, _) => TextChunks
    case ReasoningDelta(_, _) => ReasoningChunks
    case ToolCallDelta(_, _, _, _) => ToolCallChunks
  }

  function HeaderOf(data: Payload): RowHeader
    requires data.ChunkData? && !data.chunk.OtherChunk?
  {
    RowHeader(data.turn, data.step, data.chunk.index)
  }

  function TextOf(chunk: Chunk): string
    requires !chunk.OtherChunk?
  {
    match chunk
    case TextDelta(_, text) => text
    case ReasoningDelta(_, text) => text
    case ToolCallDelta(_, _, _, argumentsDelta) => argumentsDelta
  }

  /** Same block: same kind, same header, and for tool calls the same identity. */
  predicate SameBlock(a: Payload, b: Payload)
    requires a.ChunkData? && !a.chunk.OtherChunk? && b.ChunkData? && !b.chunk.OtherChunk?
  {
    && TagOf(a.chunk) == TagOf(b.chunk) && HeaderOf(a) == HeaderOf(b)
    && (a.chunk.ToolCallDelta? ==> a.chunk.id == b.chunk.id && a.chunk.name == b.chunk.name)
  }

  predicate Continues(prev: Event, next: Event)
    requires Packable(prev) && Packable(next)
  {
    && next.seqNo == Wrap(prev.seqNo + 1)
    && !SubOverflows(next.time, prev.time)
    && SameBlock(prev.data, next.data)
  }

  /** The first n events are packable and each continues the one before. */
  predicate RunsTo(events: seq<Event>, n: nat) {
    && n <= |events|
    && (forall i :: 0 <= i < n ==> Packable(events[i]))
    && (forall i :: 0 < i < n ==> Continues(events[i - 1], events[i]))
  }

  predicate IsRun(run: seq<Event>) {
    RunsTo(run, |run|)
  }

  /** The length of the longest run the events begin with. */
  function RunLength(events: seq<Event>): (n: nat)
    ensures RunsTo(events, n) && !RunsTo(events, n + 1)
  {
    if events == [] || !Packable(events[0]) then 0
    else if |events| == 1 then 1
    else if Packable(events[1]) && Continues(events[0], events[1]) then
      RunExtends(events, RunLength(events[1..]));
      1 + RunLength(events[1..])
    else 1
  }

  lemma RunExtends(events: seq<Event>, n: nat)
    requires |events| >= 2 && Packable(events[0]) && Packable(events[1]) && Continues(events[0], events[1])
    requires n > 0
    ensures RunsTo(events, n + 1) <==> RunsTo(events[1..], n)
    ensures RunsTo(events, n + 2) <==> RunsTo(events[1..], n + 1)
  {
    RunShifts(events, n);
    RunShifts(events, n + 1);
  }

  lemma RunShifts(events: seq<Event>, n: nat)
    requires |events| >= 2 && Packable(events[0]) && Packable(events[1]) && Continues(events[0], events[1]) && n > 0
    ensures RunsTo(events, n + 1) <==> RunsTo(events[1..], n)
  {
    hide Packable, Continues;
    var rest := events[1..];
    if RunsTo(rest, n) {
      forall i | 0 < i < n + 1 ensures Packable(events[i]) && Continues(events[i - 1], events[i]) {
        assert events[i] == rest[i - 1];
        assert i > 1 ==> events[i - 1] == rest[i - 2];
      }
    }
    if RunsTo(events, n + 1) {
      forall i | 0 <= i < n ensures Packable(rest[i]) && (i > 0 ==> Continues(rest[i - 1], rest[i])) {
        assert rest[i] == events[i + 1];
      }
    }
  }

  lemma LongestRun(events: seq<Event>, n: nat)
    requires RunsTo(events, n)
    ensures n <= RunLength(events)
    ensures !RunsTo(events, n + 1) ==> n == RunLength(events)
  {
    hide Packable, Continues;
    forall k: nat | k <= n ensures RunsTo(events, k) {
    }
    forall k: nat | n < k && RunsTo(events, k) ensures RunsTo(events, n + 1) {
    }
  }

  lemma RunPrefix(events: seq<Event>, n: nat)
    requires RunsTo(events, n)
    ensures IsRun(events[..n])
  {
    hide Packable, Continues;
    assert forall i :: 0 <= i < n ==> events[..n][i] == events[i];
  }

  function Gaps(run: seq<Event>): (gaps: seq<int>)
    requires run != []
    ensures |gaps| == |run| - 1
  {
    seq(|run| - 1, i requires 0 <= i < |run| - 1 => Wrap(run[i + 1].time - run[i].time))
  }

  function Texts(run: seq<Event>): (texts: seq<string>)
    requires forall i :: 0 <= i < |run| ==> Packable(run[i])
    ensures |texts| == |run| && forall i :: 0 <= i < |run| ==> Packable(run[i]) && texts[i] == TextOf(run[i].data.chunk)
  {
    seq(|run|, i requires 0 <= i < |run| && Packable(run[i]) => TextOf(run[i].data.chunk))
  }

  function BuildRow(run: seq<Event>): Record
    requires run != [] && forall i :: 0 <= i < |run| ==> Packable(run[i])
  {
    assert Packable(run[0]);
    var first := run[0].data;
    var data :=
      if first.chunk.ToolCallDelta? then
        ToolCallRun(HeaderOf(first), Gaps(run), first.chunk.id, first.chunk.name, Texts(run))
      else TextRun(HeaderOf(first), Gaps(run), Texts(run));
    Row(TagOf(first.chunk), run[0].seqNo, run[0].time, data)
  }

  function Lines(events: seq<Event>): (lines: seq<Record>)
    ensures |lines| == |events| && forall i :: 0 <= i < |events| ==> lines[i] == Line(events[i])
  {
    if events == [] then [] else [Line(events[0])] + Lines(events[1..])
  }

  /** A finished run: one row when it is long enough, its own lines otherwise. */
  function Flushed(run: seq<Event>): seq<Record>
    requires IsRun(run)
  {
    if |run| >= MIN_RUN then [BuildRow(run)] else Lines(run)
  }

  /** The packing of a batch: longest runs from the left, everything else line by line. */
  function Packed(events: seq<Event>): seq<Record>
    decreases |events|
  {
    if events == [] then []
    else
      var n := RunLength(events);
      if n == 0 then [Line(events[0])] + Packed(events[1..])
      else
        RunPrefix(events, n);
        Flushed(events[..n]) + Packed(events[n..])
  }

  // ---------------------------------------------------------------------------------------------
  // Expanding

  function DataTexts(data: RowData): seq<string> {
    match data
    case TextRun(_, _, texts) => texts
    case ToolCallRun(_, _, _, _, args) => args
  }

  /** The chunk a member of this row stands for. */
  function MemberChunk(tag: RowTag, data: RowData, text: string): Chunk {
    if data.ToolCallRun? then ToolCallDelta(data.header.index, data.id, data.name, text)
    else if tag == ReasoningChunks then ReasoningDelta(data.header.index, text)
    else TextDelta(data.header.index, text)
  }

  function MemberEvent(row: Record, position: nat, time: int): Event
    requires row.Row? && position < |DataTexts(row.data)|
  {
    Event(AssistantChunk, row.seq0 + position, time,
          ChunkData(row.data.header.turn, row.data.header.step,
                    MemberChunk(row.tag, row.data, DataTexts(row.data)[position])),
          false, None, None)
  }

  /** The members from a position on, the running timestamp checked before every gap. */
  function MembersFrom(row: Record, position: nat, time: int): Result<seq<Event>, LogError>
    requires row.Row? && position < |DataTexts(row.data)| && |row.data.dt| == |DataTexts(row.data)| - 1
    decreases |DataTexts(row.data)| - position
  {
    if position + 1 == |DataTexts(row.data)| then Ok([MemberEvent(row, position, time)])
    else if AddOverflows(time, row.data.dt[position]) then Err(MalformedValue)
    else
      var rest :- MembersFrom(row, position + 1, Wrap(time + row.data.dt[position]));
      Ok([MemberEvent(row, position, time)] + rest)
  }

  /** The checks expandRow makes before it reconstructs anything. */
  predicate RowIsSound(row: Record)
    requires row.Row?
  {
    && (row.tag.ToolCallChunks? <==> row.data.ToolCallRun?)
    && row.seq0 >= 0
    && DataTexts(row.data) != []
    && |row.data.dt| == |DataTexts(row.data)| - 1
    && |DataTexts(row.data)| - 1 <= MAX64 - row.seq0
  }

  function ExpandRow(row: Record): Result<seq<Event>, LogError>
    requires row.Row?
  {
    if !RowIsSound(row) then Err(MalformedValue) else MembersFrom(row, 0, row.time0)
  }

  /** DecodeStorageRecord: a line whose type is a row tag is taken for a broken row. */
  function Decode(record: Record): Result<seq<Event>, LogError> {
    if record.Row? then ExpandRow(record)
    else if IsRowTag(record.event.kind) then Err(MalformedValue)
    else Ok([record.event])
  }

  /** The records of a file, decoded in order. */
  function DecodeAll(records: seq<Record>): Result<seq<Event>, LogError> {
    if records == [] then Ok([])
    else
      var first :- Decode(records[0]);
      var rest :- DecodeAll(records[1..]);
      Ok(first + rest)
  }

  // ---------------------------------------------------------------------------------------------
  // Expanding undoes packing

  /** Sequence numbers and times are 64-bit integers. */
  predicate Wide(event: Event) {
    Fits(event.seqNo) && Fits(event.time)
  }

  ghost predicate AllWide(events: seq<Event>) {
    forall i :: 0 <= i < |events| ==> Wide(events[i])
  }

  lemma ContinuesExactly(prev: Event, next: Event)
    requires Packable(prev) && Packable(next) && Wide(prev) && Wide(next)
    ensures Continues(prev, next) <==>
      next.seqNo == prev.seqNo + 1 && Fits(next.time - prev.time) && SameBlock(prev.data, next.data)
  {
    OverflowTestsAreExact(next.time, prev.time);
    WrapOnce(prev.seqNo + 1);
  }

  /** Along a run the block stays the same and the numbers count up. */
  lemma {:induction false} RunCounts(run: seq<Event>, i: nat)
    requires IsRun(run) && AllWide(run) && i < |run|
    ensures run[i].seqNo == run[0].seqNo + i && SameBlock(run[0].data, run[i].data)
  {
    if i > 0 {
      RunCounts(run, i - 1);
      ContinuesExactly(run[i - 1], run[i]);
    }
  }

  lemma MemberIsEvent(run: seq<Event>, i: nat)
    requires IsRun(run) && AllWide(run) && i < |run|
    ensures MemberEvent(BuildRow(run), i, run[i].time) == run[i]
  {
    hide IsRun;
    MembersArePackable(run);
    RunCounts(run, i);
  }

  lemma MembersArePackable(run: seq<Event>)
    requires IsRun(run)
    ensures forall i :: 0 <= i < |run| ==> Packable(run[i])
  {
  }

  lemma {:induction false} MembersRebuild(run: seq<Event>, position: nat)
    requires IsRun(run) && AllWide(run) && position < |run|
    ensures MembersFrom(BuildRow(run), position, run[position].time) == Ok(run[position..])
    decreases |run| - position
  {
    hide IsRun, MemberEvent, Wrap, AddOverflows, AllWide, BuildRow;
    MembersArePackable(run);
    MemberIsEvent(run, position);
    RowShape(run);
    assert run[position..] == [run[position]] + run[position + 1..];
    assert position + 1 == |run| ==> run[position + 1..] == [] && run[position..] == [run[position]];
    if position + 1 < |run| {
      GapRestores(run, position);
      MembersRebuild(run, position + 1);
    }
  }

  lemma RowShape(run: seq<Event>)
    requires IsRun(run) && run != []
    ensures BuildRow(run).Row? && BuildRow(run).data.dt == Gaps(run) && |DataTexts(BuildRow(run).data)| == |run|
  {
    hide Gaps;
  }

  lemma GapRestores(run: seq<Event>, position: nat)
    requires IsRun(run) && AllWide(run) && position + 1 < |run|
    ensures var gap := Gaps(run)[position];
            !AddOverflows(run[position].time, gap) && Wrap(run[position].time + gap) == run[position + 1].time
  {
    ContinuesExactly(run[position], run[position + 1]);
    OverflowTestsAreExact(run[position].time, Gaps(run)[position]);
  }

  lemma RowRebuilds(run: seq<Event>)
    requires IsRun(run) && AllWide(run) && run != []
    ensures Decode(BuildRow(run)) == Ok(run)
  {
    MembersRebuild(run, 0);
    RunCounts(run, |run| - 1);
    assert run[0..] == run;
  }

  lemma {:induction false} DecodeConcat(a: seq<Record>, b: seq<Record>)
    ensures DecodeAll(a + b) ==
      if DecodeAll(a).Err? then DecodeAll(a)
      else if DecodeAll(b).Err? then DecodeAll(b)
      else Ok(DecodeAll(a).value + DecodeAll(b).value)
  {
    if a == [] {
      assert a + b == b;
      if DecodeAll(b).Ok? {
        assert [] + DecodeAll(b).value == DecodeAll(b).value;
      }
    } else {
      assert (a + b)[1..] == a[1..] + b;
      DecodeConcat(a[1..], b);
      hide Decode;
      if DecodeAll(a + b).Ok? {
        var first, middle, last := Decode(a[0]).value, DecodeAll(a[1..]).value, DecodeAll(b).value;
        assert first + (middle + last) == first + middle + last;
      }
    }
  }

  lemma {:induction false} LinesDecode(events: seq<Event>)
    ensures DecodeAll(Lines(events)) == if NoRowTags(events) then Ok(events) else Err(MalformedValue)
  {
    hide NoRowTags;
    if events == [] {
      NothingPacked();
    } else {
      LinesDecode(events[1..]);
      assert Lines(events)[1..] == Lines(events[1..]) && Lines(events)[0] == Line(events[0]);
      assert events == [events[0]] + events[1..];
      TagsSplit(events, 1);
      OneTag(events[0]);
      assert events[..1] == [events[0]];
    }
  }

  lemma OneTag(event: Event)
    ensures NoRowTags([event]) <==> !IsRowTag(event.kind)
  {
    assert [event][0] == event;
  }

  lemma DecodeOne(record: Record)
    ensures DecodeAll([record]) == Decode(record)
  {
    assert DecodeAll([]) == Ok([]);
    if Decode(record).Ok? {
      assert Decode(record).value + [] == Decode(record).value;
    }
  }

  lemma FlushedDecodes(run: seq<Event>)
    requires IsRun(run) && AllWide(run)
    ensures DecodeAll(Flushed(run)) == Ok(run)
  {
    if |run| >= MIN_RUN {
      hide Decode, IsRun, BuildRow;
      RowRebuilds(run);
      DecodeOne(BuildRow(run));
    } else {
      LinesDecode(run);
      RunsHaveNoTags(run);
    }
  }

  ghost predicate NoRowTags(events: seq<Event>) {
    forall i :: 0 <= i < |events| ==>
      events[i].kind !in [Extension("text-chunks"), Extension("reasoning-chunks"), Extension("tool-call-chunks")]
  }

  /**
    Packing is lossless exactly when no event's type is a row tag: reading back the records gives
    the same events, 64-bit numbers included; otherwise reading fails, and never goes wrong silently.
  */
  lemma {:induction false} PackingIsLossless(events: seq<Event>)
    requires AllWide(events)
    ensures DecodeAll(Packed(events)) == if NoRowTags(events) then Ok(events) else Err(MalformedValue)
    decreases |events|
  {
    hide Packed, RunLength, NoRowTags, AllWide, DecodeAll;
    if events == [] {
      NothingPacked();
    } else {
      var front, k := FrontDecodes(events);
      WideSplits(events, k);
      PackingIsLossless(events[k..]);
      DecodeConcat(front, Packed(events[k..]));
      assert events == events[..k] + events[k..];
      TagsSplit(events, k);
    }
  }

  lemma NothingPacked()
    ensures Packed([]) == [] && DecodeAll([]) == Ok([]) && NoRowTags([])
  {
  }

  lemma WideSplits(events: seq<Event>, k: nat)
    requires AllWide(events) && k <= |events|
    ensures AllWide(events[..k]) && AllWide(events[k..])
  {
  }

  lemma PackedStep(events: seq<Event>)
    requires events != []
    ensures var n := RunLength(events);
            && IsRun(events[..n])
            && Packed(events) == if n == 0 then [Line(events[0])] + Packed(events[1..])
                                 else Flushed(events[..n]) + Packed(events[n..])
  {
  }

  /** The first records of a packing and the events they stand for. */
  lemma FrontDecodes(events: seq<Event>) returns (front: seq<Record>, k: nat)
    requires AllWide(events) && events != []
    ensures 0 < k <= |events| && Packed(events) == front + Packed(events[k..])
    ensures DecodeAll(front) == if NoRowTags(events[..k]) then Ok(events[..k]) else Err(MalformedValue)
  {
    hide DecodeAll, Packed, Flushed, Packable, Continues, AllWide;
    PackedStep(events);
    var n := RunLength(events);
    k := if n == 0 then 1 else n;
    WideSplits(events, k);
    if n == 0 {
      front := [Line(events[0])];
      LinesDecode(events[..1]);
      assert Lines(events[..1]) == [Line(events[0])];
    } else {
      front := Flushed(events[..n]);
      FlushedDecodes(events[..n]);
      RunsHaveNoTags(events[..n]);
    }
  }

  lemma RunsHaveNoTags(run: seq<Event>)
    requires IsRun(run)
    ensures NoRowTags(run)
  {
  }

  lemma TagsSplit(events: seq<Event>, k: nat)
    requires k <= |events|
    ensures NoRowTags(events) <==> NoRowTags(events[..k]) && NoRowTags(events[k..])
  {
    assert events == events[..k] + events[k..];
    if NoRowTags(events[..k]) && NoRowTags(events[k..]) {
      assert forall i :: 0 <= i < |events| ==> events[i] == if i < k then events[..k][i] else events[k..][i - k];
    }
  }

  function PackedBatches(batches: seq<seq<Event>>): seq<Record> {
    if batches == [] then [] else Packed(batches[0]) + PackedBatches(batches[1..])
  }

  function Joined(batches: seq<seq<Event>>): seq<Event> {
    if batches == [] then [] else batches[0] + Joined(batches[1..])
  }

  /** However a log is cut into batches before packing, reading the records gives the log. */
  lemma {:induction false} BatchesDoNotMatter(batches: seq<seq<Event>>)
    requires AllWide(Joined(batches)) && NoRowTags(Joined(batches))
    ensures DecodeAll(PackedBatches(batches)) == Ok(Joined(batches))
  {
    if batches != [] {
      var events := Joined(batches);
      var k := |batches[0]|;
      assert events[..k] == batches[0] && events[k..] == Joined(batches[1..]);
      TagsSplit(events, k);
      PackingIsLossless(batches[0]);
      BatchesDoNotMatter(batches[1..]);
      DecodeConcat(Packed(batches[0]), PackedBatches(batches[1..]));
    }
  }

  // ---------------------------------------------------------------------------------------------
  // Packing undoes expanding

  ghost predicate RowIsWide(row: Record)
    requires row.Row?
  {
    Fits(row.time0) && forall i :: 0 <= i < |row.data.dt| ==> Fits(row.data.dt[i])
  }

  /** What an accepted row expands to: gaps respected exactly, nothing wrapped. */
  lemma {:induction false} MembersAreExact(row: Record, position: nat, time: int)
    requires row.Row? && RowIsSound(row) && RowIsWide(row) && position < |DataTexts(row.data)| && Fits(time)
    requires MembersFrom(row, position, time).Ok?
    ensures var members := MembersFrom(row, position, time).value;
            && |members| == |DataTexts(row.data)| - position && members[0].time == time
            && (forall i :: 0 <= i < |members| ==>
                  Fits(members[i].time) && members[i] == MemberEvent(row, position + i, members[i].time))
            && (forall i :: 0 < i < |members| ==>
                  members[i].time == members[i - 1].time + row.data.dt[position + i - 1])
    decreases |DataTexts(row.data)| - position
  {
    hide MemberEvent, DataTexts, Wrap, AddOverflows;
    MemberTime(row, position, time);
    if position + 1 < |DataTexts(row.data)| {
      OverflowTestsAreExact(time, row.data.dt[position]);
      var next := time + row.data.dt[position];
      assert AddOverflows(time, row.data.dt[position]) || Wrap(next) == next;
      MembersAreExact(row, position + 1, next);
      OneMoreMember(row, position, time, MembersFrom(row, position + 1, next).value);
    }
  }

  lemma MemberTime(row: Record, position: nat, time: int)
    requires row.Row? && position < |DataTexts(row.data)|
    ensures MemberEvent(row, position, time).time == time
  {
  }

  lemma OneMoreMember(row: Record, position: nat, time: int, rest: seq<Event>)
    requires row.Row? && RowIsSound(row) && position + 1 < |DataTexts(row.data)| && Fits(time)
    requires |rest| == |DataTexts(row.data)| - position - 1 && rest[0].time == time + row.data.dt[position]
    requires forall i :: 0 <= i < |rest| ==> Fits(rest[i].time) && rest[i] == MemberEvent(row, position + 1 + i, rest[i].time)
    requires forall i :: 0 < i < |rest| ==> rest[i].time == rest[i - 1].time + row.data.dt[position + i]
    ensures var members := [MemberEvent(row, position, time)] + rest;
            && members[0].time == time
            && (forall i :: 0 <= i < |members| ==>
                  Fits(members[i].time) && members[i] == MemberEvent(row, position + i, members[i].time))
            && (forall i :: 0 < i < |members| ==>
                  members[i].time == members[i - 1].time + row.data.dt[position + i - 1])
  {
    hide DataTexts;
    var members := [MemberEvent(row, position, time)] + rest;
    forall i | 0 < i < |members|
      ensures Fits(members[i].time) && members[i] == MemberEvent(row, position + i, members[i].time)
      ensures members[i].time == members[i - 1].time + row.data.dt[position + i - 1]
    {
      assert members[i] == rest[i - 1];
      assert i > 1 ==> members[i - 1] == rest[i - 2];
    }
  }

  /** A row that is accepted is the row its own events pack to, whenever they are enough for one. */
  lemma ExpandedRowPacksBack(row: Record)
    requires row.Row? && RowIsWide(row) && Decode(row).Ok?
    ensures var events := Decode(row).value;
            && |events| == |DataTexts(row.data)| && AllWide(events) && IsRun(events)
            && (|events| >= MIN_RUN ==> Packed(events) == [row])
  {
    hide IsRun, AllWide, Packed, ExpandsTo, BuildRow;
    var events := Decode(row).value;
    ExpansionIsExact(row);
    ExpandedIsRun(row, events);
    if |events| >= MIN_RUN {
      RebuiltRow(row, events);
      LongRunPacks(events);
    }
  }

  lemma ExpansionIsExact(row: Record)
    requires row.Row? && RowIsWide(row) && Decode(row).Ok?
    ensures RowIsSound(row) && ExpandsTo(row, Decode(row).value) && |Decode(row).value| == |DataTexts(row.data)|
  {
    MembersAreExact(row, 0, row.time0);
  }

  lemma LongRunPacks(events: seq<Event>)
    requires IsRun(events) && |events| >= MIN_RUN
    ensures Packed(events) == [BuildRow(events)]
  {
    hide BuildRow, Packable, Continues;
    LongestRun(events, |events|);
    assert events[..|events|] == events && events[|events|..] == [];
    assert Packed(events) == Flushed(events) + Packed([]);
  }

  ghost predicate ExpandsTo(row: Record, events: seq<Event>)
    requires row.Row? && RowIsSound(row)
  {
    && |events| == |DataTexts(row.data)| && events[0].time == row.time0
    && (forall i :: 0 <= i < |events| ==> Fits(events[i].time) && events[i] == MemberEvent(row, i, events[i].time))
    && (forall i :: 0 < i < |events| ==> events[i].time == events[i - 1].time + row.data.dt[i - 1])
  }

  lemma ExpandedIsRun(row: Record, events: seq<Event>)
    requires row.Row? && RowIsSound(row) && RowIsWide(row) && ExpandsTo(row, events)
    ensures AllWide(events) && IsRun(events)
  {
    hide Wrap, SubOverflows;
    forall i | 0 < i < |events| ensures Continues(events[i - 1], events[i]) {
      assert events[i] == MemberEvent(row, i, events[i].time);
      assert events[i - 1] == MemberEvent(row, i - 1, events[i - 1].time);
      ContinuesExactly(events[i - 1], events[i]);
    }
  }

  lemma RebuiltRow(row: Record, events: seq<Event>)
    requires row.Row? && RowIsSound(row) && RowIsWide(row) && ExpandsTo(row, events) && IsRun(events)
    ensures BuildRow(events) == row
  {
    hide IsRun, Wrap, MemberEvent, Packable;
    MembersArePackable(events);
    GapsRestored(row, events);
    TextsRestored(row, events);
    HeadRestored(row, events);
  }

  lemma TextCount(row: Record, events: seq<Event>)
    requires row.Row? && RowIsSound(row) && ExpandsTo(row, events)
    ensures |events| == |row.data.dt| + 1
  {
  }

  lemma GapsRestored(row: Record, events: seq<Event>)
    requires row.Row? && RowIsSound(row) && RowIsWide(row) && ExpandsTo(row, events)
    ensures Gaps(events) == row.data.dt
  {
    hide Wrap, DataTexts, RowIsSound, MemberEvent;
    assert |events| == |row.data.dt| + 1 by { TextCount(row, events); }
    forall i | 0 <= i < |row.data.dt| ensures Gaps(events)[i] == row.data.dt[i] {
      var j := i + 1;
      assert events[j].time == events[j - 1].time + row.data.dt[j - 1];
    }
  }

  lemma TextsRestored(row: Record, events: seq<Event>)
    requires row.Row? && RowIsSound(row) && ExpandsTo(row, events)
    requires forall i :: 0 <= i < |events| ==> Packable(events[i])
    ensures Texts(events) == DataTexts(row.data)
  {
    forall i | 0 <= i < |events| ensures Texts(events)[i] == DataTexts(row.data)[i] {
      assert events[i] == MemberEvent(row, i, events[i].time);
    }
  }

  lemma HeadRestored(row: Record, events: seq<Event>)
    requires row.Row? && RowIsSound(row) && ExpandsTo(row, events)
    ensures Packable(events[0]) && events[0].seqNo == row.seq0 && events[0].time == row.time0
    ensures TagOf(events[0].data.chunk) == row.tag && HeaderOf(events[0].data) == row.data.header
    ensures row.data.ToolCallRun? <==> events[0].data.chunk.ToolCallDelta?
    ensures row.data.ToolCallRun? ==> events[0].data.chunk.id == row.data.id && events[0].data.chunk.name == row.data.name
  {
    assert events[0] == MemberEvent(row, 0, events[0].time);
  }

  /** Packing never needs more records than there are events. */
  lemma {:induction false} PackingNeverGrows(events: seq<Event>)
    ensures |Packed(events)| <= |events|
    decreases |events|
  {
    if events != [] {
      hide Packed, RunLength, IsRun, BuildRow;
      PackedStep(events);
      var n := RunLength(events);
      PackingNeverGrows(events[if n == 0 then 1 else n..]);
    }
  }

  // ---------------------------------------------------------------------------------------------
  // The code's loops

  /** buildRow: the gaps between neighbours and the text of every member. */
  method BuildStorageRow(run: seq<Event>) returns (row: Record)
    requires run != [] && forall i :: 0 <= i < |run| ==> Packable(run[i])
    ensures row == BuildRow(run)
  {
    assert Packable(run[0]);
    var gaps: seq<int> := [];
    for i := 1 to |run|
      invariant |gaps| == i - 1 && forall k :: 0 <= k < |gaps| ==> gaps[k] == Gaps(run)[k]
    {
      gaps := gaps + [Wrap(run[i].time - run[i - 1].time)];
    }
    var texts: seq<string> := [];
    for i := 0 to |run|
      invariant |texts| == i && forall k :: 0 <= k < i ==> texts[k] == Texts(run)[k]
    {
      texts := texts + [TextOf(run[i].data.chunk)];
    }
    assert gaps == Gaps(run) && texts == Texts(run);
    var first := run[0].data;
    var data := if first.chunk.ToolCallDelta? then ToolCallRun(HeaderOf(first), gaps, first.chunk.id, first.chunk.name, texts)
                else TextRun(HeaderOf(first), gaps, texts);
    return Row(TagOf(first.chunk), run[0].seqNo, run[0].time, data);
  }

  /** expandRow: check first, then rebuild member by member along a running timestamp. */
  method ExpandStorageRow(row: Record) returns (r: Result<seq<Event>, LogError>)
    requires row.Row?
    ensures r == Decode(row)
  {
    if !RowIsSound(row) {
      return Err(MalformedValue);
    }
    hide MemberEvent, Wrap, AddOverflows;
    var count := |DataTexts(row.data)|;
    var events := [MemberEvent(row, 0, row.time0)];
    var timestamp := row.time0;
    StartsRebuilt(row);
    for position := 1 to count
      invariant Rebuilt(row, position, timestamp, events)
    {
      var gap := row.data.dt[position - 1];
      NextMember(row, position, timestamp, events);
      if AddOverflows(timestamp, gap) {
        return Err(MalformedValue);
      }
      timestamp := Wrap(timestamp + gap);
      events := events + [MemberEvent(row, position, timestamp)];
    }
    FullyRebuilt(row, timestamp, events);
    return Ok(events);
  }

  /** The first members are rebuilt, the last of them at this time, and the rest follows from there. */
  ghost predicate Rebuilt(row: Record, position: nat, time: int, events: seq<Event>)
    requires row.Row? && RowIsSound(row) && 0 < position <= |DataTexts(row.data)|
  {
    && |events| == position && events[position - 1] == MemberEvent(row, position - 1, time)
    && var rest := MembersFrom(row, position - 1, time);
       MembersFrom(row, 0, row.time0) == if rest.Err? then rest else Ok(events[..position - 1] + rest.value)
  }

  lemma StartsRebuilt(row: Record)
    requires row.Row? && RowIsSound(row)
    ensures Rebuilt(row, 1, row.time0, [MemberEvent(row, 0, row.time0)])
  {
    hide MemberEvent, Wrap, AddOverflows;
    var rest := MembersFrom(row, 0, row.time0);
    if rest.Ok? {
      assert [] + rest.value == rest.value;
    }
  }

  lemma NextMember(row: Record, position: nat, time: int, events: seq<Event>)
    requires row.Row? && RowIsSound(row) && 0 < position < |DataTexts(row.data)| && Rebuilt(row, position, time, events)
    ensures var gap := row.data.dt[position - 1];
            if AddOverflows(time, gap) then MembersFrom(row, 0, row.time0) == Err(MalformedValue)
            else
              var next := Wrap(time + gap);
              Rebuilt(row, position + 1, next, events + [MemberEvent(row, position, next)])
  {
    hide MemberEvent, Wrap, AddOverflows, DataTexts;
    var gap := row.data.dt[position - 1];
    var front := events[..position - 1];
    if !AddOverflows(time, gap) {
      var rest := MembersFrom(row, position, Wrap(time + gap));
      assert events == front + [MemberEvent(row, position - 1, time)];
      if rest.Ok? {
        assert front + ([MemberEvent(row, position - 1, time)] + rest.value) == events + rest.value;
      }
    }
  }

  lemma FullyRebuilt(row: Record, time: int, events: seq<Event>)
    requires row.Row? && RowIsSound(row) && Rebuilt(row, |DataTexts(row.data)|, time, events)
    ensures MembersFrom(row, 0, row.time0) == Ok(events)
  {
    hide MemberEvent;
    assert events == events[..|events| - 1] + [events[|events| - 1]];
  }

  method PackChunkRuns(events: seq<Event>) returns (out: seq<Record>)
    ensures out == Packed(events)
  {
    hide Packed, IsRun, Flush, Packable, Continues, RunGoesOn;
    out := [];
    var run: seq<Event> := [];
    NoRun();
    assert [] + events[0..] == events;
    for i := 0 to |events|
      invariant IsRun(run)
      invariant Packed(events) == out + Packed(run + events[i..])
    {
      var event := events[i];
      assert events[i..][0] == event && events[i..][1..] == events[i + 1..];
      Consumes(out, run, events[i..]);
      if !Packable(event) {
        out := out + Flush(run) + [Line(event)];
        run := [];
      } else if RunGoesOn(run, event) {
        run := run + [event];
      } else {
        out := out + Flush(run);
        run := [event];
      }
    }
    assert run + events[|events|..] == run + [];
    RunEndsHere(run, []);
    assert out + (Flush(run) + Packed([])) == out + Flush(run) + Packed([]);
    assert Packed([]) == [] by { NoRun(); }
    out := out + Flush(run);
  }

  lemma NoRun()
    ensures IsRun([]) && Packed([]) == []
  {
  }

  /** One turn of the loop keeps what has been written plus what is still to come. */
  lemma Consumes(out: seq<Record>, run: seq<Event>, rest: seq<Event>)
    requires IsRun(run) && rest != []
    ensures !Packable(rest[0]) ==>
      out + Packed(run + rest) == out + Flush(run) + [Line(rest[0])] + Packed([] + rest[1..])
    ensures Packable(rest[0]) && RunGoesOn(run, rest[0]) ==>
      IsRun(run + [rest[0]]) && run + rest == run + [rest[0]] + rest[1..]
    ensures Packable(rest[0]) && !RunGoesOn(run, rest[0]) ==>
      IsRun([rest[0]]) && out + Packed(run + rest) == out + Flush(run) + Packed([rest[0]] + rest[1..])
  {
    hide Packed, IsRun, Flush, Packable, Continues, RunGoesOn;
    assert rest == [rest[0]] + rest[1..];
    if Packable(rest[0]) {
      SingleRun(rest[0]);
      if RunGoesOn(run, rest[0]) {
        RunGrows(run, rest[0]);
      } else {
        RunEndsHere(run, rest);
      }
    } else {
      RunEndsHere(run, rest);
      assert [] + rest[1..] == rest[1..];
    }
  }

  /** The flush closure. */
  function Flush(run: seq<Event>): seq<Record>
    requires IsRun(run)
  {
    if run == [] then [] else Flushed(run)
  }

  predicate RunGoesOn(run: seq<Event>, event: Event)
    requires IsRun(run) && Packable(event)
  {
    |run| > 0 && Continues(run[|run| - 1], event)
  }

  lemma RunGrows(run: seq<Event>, event: Event)
    requires IsRun(run) && Packable(event) && RunGoesOn(run, event)
    ensures IsRun(run + [event])
  {
  }

  lemma SingleRun(event: Event)
    requires Packable(event)
    ensures IsRun([event])
  {
  }

  /** A run nothing continues is flushed by itself, before an unpackable event goes out as its own line. */
  lemma RunEndsHere(run: seq<Event>, rest: seq<Event>)
    requires IsRun(run)
    requires rest != [] && Packable(rest[0]) ==> !RunGoesOn(run, rest[0])
    ensures Packed(run + rest) == Flush(run) + Packed(rest)
    ensures rest != [] && !Packable(rest[0]) ==> Packed(rest) == [Line(rest[0])] + Packed(rest[1..])
  {
    if run == [] {
      assert run + rest == rest;
    } else {
      var n := RunLength(run + rest);
      RunLengthIs(run, rest);
      assert (run + rest)[..n] == run && (run + rest)[n..] == rest;
    }
  }

  lemma RunLengthIs(run: seq<Event>, rest: seq<Event>)
    requires IsRun(run) && run != []
    requires rest != [] && Packable(rest[0]) ==> !RunGoesOn(run, rest[0])
    ensures RunLength(run + rest) == |run|
  {
    hide Packable, Continues;
    var events := run + rest;
    assert forall i :: 0 <= i < |run| ==> events[i] == run[i];
    assert rest != [] ==> events[|run|] == rest[0];
    assert RunsTo(events, |run|);
    LongestRun(events, |run|);
  }
}
