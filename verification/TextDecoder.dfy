/**
  Streaming text reads (adapter/objectstore/read.go): a decoder that is fed arbitrary byte
  chunks, keeps back what it cannot give out yet, and must agree with reading the whole object.
*/
module TextDecoding {
  import opened Outcomes
  import opened Utf8

  const CR: Byte := 0x0D
  const LF: Byte := 0x0A

  datatype ReadError = NotText | TooLarge | NotFound | StoreFault(fault: Fault)

  /** What translate makes of an error of the store or of a cancelled call. */
  datatype Fault = Aborted | IOFailure | PermissionDenied | KeyGone

  /** How the reads of an object end: at its end, or with an error after the bytes read so far. */
  datatype Ending = EndOfFile | Broken(fault: Fault)

  /** runeLengthAt: what the first byte alone announces; 0 when it cannot start a rune. */
  function RuneLengthAt(first: Byte): (n: nat)
    ensures n <= 4
    ensures IsTail(first) ==> n == 0
    ensures first <= 0x7F <==> n == 1
  {
    if first & 0x80 == 0x00 then 1
    else if first & 0xE0 == 0xC0 then 2
    else if first & 0xF0 == 0xE0 then 3
    else if first & 0xF8 == 0xF0 then 4
    else 0
  }

  /** The announced length is the real one on every well-formed rune. */
  lemma AnnouncedLength(s: seq<Byte>)
    requires RuneSize(s) > 0
    ensures RuneLengthAt(s[0]) == RuneSize(s)
  {
    var b := s[0];
    assert b <= 0x7F ==> b & 0x80 == 0x00;
    assert 0xC2 <= b <= 0xDF ==> b & 0x80 != 0x00 && b & 0xE0 == 0xC0;
    assert 0xE0 <= b <= 0xEF ==> b & 0x80 != 0x00 && b & 0xE0 != 0xC0 && b & 0xF0 == 0xE0;
    assert 0xF0 <= b <= 0xF4 ==> b & 0x80 != 0x00 && b & 0xE0 != 0xC0 && b & 0xF0 != 0xE0 && b & 0xF8 == 0xF0;
  }

  /** CRLF becomes LF; a lone CR stays. */
  function NormalizeLF(text: seq<Byte>): seq<Byte> {
    if text == [] then []
    else if |text| >= 2 && text[0] == CR && text[1] == LF then [LF] + NormalizeLF(text[2..])
    else [text[0]] + NormalizeLF(text[1..])
  }

  predicate ContainsCRLF(text: seq<Byte>) {
    exists i :: 0 <= i < |text| - 1 && text[i] == CR && text[i + 1] == LF
  }

  /** The shortcut normalizeLF takes is exact: text is left alone iff it holds no CRLF. */
  lemma {:induction false} NormalizeIsIdentityExactly(text: seq<Byte>)
    ensures |NormalizeLF(text)| <= |text|
    ensures ContainsCRLF(text) <==> NormalizeLF(text) != text
  {
    if |text| >= 2 && text[0] == CR && text[1] == LF {
      NormalizeIsIdentityExactly(text[2..]);
    } else if text != [] {
      NormalizeIsIdentityExactly(text[1..]);
      NormalizeStep(text);
      assert text == [text[0]] + text[1..];
      assert NormalizeLF(text)[1..] == NormalizeLF(text[1..]);
    }
  }

  lemma NormalizeStep(text: seq<Byte>)
    requires text != [] && !(|text| >= 2 && text[0] == CR && text[1] == LF)
    ensures NormalizeLF(text) == [text[0]] + NormalizeLF(text[1..])
  {
  }

  /** Normalising piecewise is normalising the whole, as long as no cut separates CR from LF. */
  lemma {:induction false} NormalizeConcat(a: seq<Byte>, b: seq<Byte>)
    requires !(a != [] && b != [] && a[|a| - 1] == CR && b[0] == LF)
    ensures NormalizeLF(a + b) == NormalizeLF(a) + NormalizeLF(b)
    decreases |a|
  {
    if a == [] {
      assert a + b == b;
    } else if |a| >= 2 && a[0] == CR && a[1] == LF {
      hide NormalizeLF;
      assert (a + b)[2..] == a[2..] + b;
      NormalizeConcat(a[2..], b);
      Regroup([LF], NormalizeLF(a[2..]), NormalizeLF(b));
    } else {
      hide NormalizeLF;
      assert (a + b)[1..] == a[1..] + b;
      NormalizeConcat(a[1..], b);
      NormalizeStep(a);
      NormalizeStep(a + b);
      Regroup([a[0]], NormalizeLF(a[1..]), NormalizeLF(b));
    }
  }

  /** Runes pass through normalisation whole, so valid text stays valid. */
  lemma {:induction false} NormalizeKeepsValid(text: seq<Byte>)
    requires Valid(text)
    ensures Valid(NormalizeLF(text))
    decreases |text|
  {
    if text != [] {
      var n := RuneSize(text);
      if |text| >= 2 && text[0] == CR && text[1] == LF {
        assert text[1..][1..] == text[2..];
        assert RuneSize(text[1..]) == 1;
        NormalizeKeepsValid(text[2..]);
        RuneIsValid([LF]);
        assert [LF][..1] == [LF];
        ValidConcat([LF], NormalizeLF(text[2..]));
      } else {
        NormalizeRune(text);
        NormalizeKeepsValid(text[n..]);
        RuneIsValid(text);
        ValidConcat(text[..n], NormalizeLF(text[n..]));
      }
    }
  }

  lemma NormalizeRune(text: seq<Byte>)
    requires RuneSize(text) > 0 && !(|text| >= 2 && text[0] == CR && text[1] == LF)
    ensures NormalizeLF(text) == text[..RuneSize(text)] + NormalizeLF(text[RuneSize(text)..])
  {
    hide NormalizeLF, Valid;
    var n := RuneSize(text);
    if n == 1 {
      NormalizeStep(text);
      assert text[..1] == [text[0]];
    } else {
      PrefixPassesThrough(text, n);
    }
  }

  lemma NoCRNoCRLF(text: seq<Byte>)
    requires forall i :: 0 <= i < |text| ==> text[i] != CR
    ensures !ContainsCRLF(text)
  {
  }

  lemma {:induction false} PrefixPassesThrough(text: seq<Byte>, n: nat)
    requires 0 < n <= |text| && forall i :: 0 <= i < n ==> text[i] != CR
    ensures NormalizeLF(text) == text[..n] + NormalizeLF(text[n..])
  {
    hide NormalizeLF, ContainsCRLF;
    var a, b := text[..n], text[n..];
    assert text == a + b;
    assert a[|a| - 1] == text[n - 1] && text[n - 1] != CR;
    NormalizeConcat(a, b);
    NoCRNoCRLF(a);
    NormalizeIsIdentityExactly(a);
  }

  // ---------------------------------------------------------------------------------------------
  // Cutting a buffer at a rune boundary

  /** Where the incomplete last rune begins, looking back from the end; |buffer| when none does. */
  function SplitPoint(buffer: seq<Byte>, back: nat): (at: nat)
    requires 1 <= back
    ensures at <= |buffer|
    decreases 5 - back
  {
    if back > 4 || back > |buffer| then |buffer| else
      var at := |buffer| - back;
      var size := RuneLengthAt(buffer[at]);
      if size == 0 then SplitPoint(buffer, back + 1)
      else if at + size <= |buffer| then |buffer|
      else at
  }

  /** The held-back tail is short and begins with a byte that announces more than is there. */
  lemma {:induction false} SplitPointHolds(buffer: seq<Byte>, back: nat)
    requires 1 <= back
    ensures var at := SplitPoint(buffer, back);
            at == |buffer| || (|buffer| - at < RuneLengthAt(buffer[at]) <= 4)
    decreases 5 - back
  {
    if back <= 4 && back <= |buffer| && RuneLengthAt(buffer[|buffer| - back]) == 0 {
      SplitPointHolds(buffer, back + 1);
    }
  }

  /** Looking back finds the start of the rune that the end of the buffer cuts. */
  lemma {:induction false} SplitPointFinds(s: seq<Byte>, q: nat, at: nat, back: nat)
    requires RuneReaches(s, q, at)
    requires 1 <= back <= at - q
    ensures SplitPoint(s[..at], back) == (if q + RuneSize(s[q..]) == at then at else q)
    decreases 5 - back
  {
    AnnouncedLength(s[q..]);
    assert s[q..][0] == s[q] == s[..at][q];
    if back < at - q {
      var i := at - back;
      assert s[q..][i - q] == s[i] == s[..at][i];
      SplitPointFinds(s, q, at, back + 1);
    }
  }

  lemma WholeRunesBefore(s: seq<Byte>, q: nat, at: nat)
    requires RuneReaches(s, q, at)
    ensures Valid(s[..if q + RuneSize(s[q..]) == at then at else q])
  {
    if q + RuneSize(s[q..]) == at {
      RuneIsValid(s[q..]);
      ValidConcat(s[..q], s[q..][..at - q]);
      assert s[..at] == s[..q] + s[q..][..at - q];
    }
  }

  /** If any continuation makes a buffer valid text, what the split lets through is valid text. */
  lemma SplitIsSound(buffer: seq<Byte>, rest: seq<Byte>)
    requires Valid(buffer + rest)
    ensures Valid(buffer[..SplitPoint(buffer, 1)])
  {
    if buffer != [] {
      var s := buffer + rest;
      var q := RuneAtCut(s, |buffer|);
      assert s[..|buffer|] == buffer;
      SplitPointFinds(s, q, |buffer|, 1);
      WholeRunesBefore(s, q, |buffer|);
      var at := SplitPoint(buffer, 1);
      assert s[..at] == buffer[..at];
    }
  }

  // ---------------------------------------------------------------------------------------------
  // One push, and the stream of pushes

  datatype Pushed = Pushed(text: seq<Byte>, carry: seq<Byte>)

  predicate EndsInCR(s: seq<Byte>) {
    s != [] && s[|s| - 1] == CR
  }

  function HoldCR(complete: seq<Byte>, tail: seq<Byte>): Pushed {
    if EndsInCR(complete) then Pushed(NormalizeLF(complete[..|complete| - 1]), [CR] + tail)
    else Pushed(NormalizeLF(complete), tail)
  }

  function PushOf(carry: seq<Byte>, raw: seq<Byte>): (r: Result<Pushed, ReadError>)
    ensures r.Err? ==> r.error == NotText
  {
    var buffer := carry + raw;
    var at := SplitPoint(buffer, 1);
    if !Valid(buffer[..at]) then Err(NotText)
    else Ok(HoldCR(buffer[..at], buffer[at..]))
  }

  function FlushOf(carry: seq<Byte>): (r: Result<seq<Byte>, ReadError>)
    ensures r.Err? ==> r.error == NotText
  {
    if !Valid(carry) then Err(NotText) else Ok(NormalizeLF(carry))
  }

  function Flatten<T>(parts: seq<seq<T>>): seq<T> {
    if parts == [] then [] else parts[0] + Flatten(parts[1..])
  }

  lemma {:induction false} FlattenConcat<T>(a: seq<seq<T>>, b: seq<seq<T>>)
    ensures Flatten(a + b) == Flatten(a) + Flatten(b)
  {
    if a == [] {
      assert a + b == b;
    } else {
      assert (a + b)[1..] == a[1..] + b;
      FlattenConcat(a[1..], b);
    }
  }

  /** What a stream hands to its consumer: text pieces, then at most one error. */
  datatype Yielded = Yielded(pieces: seq<seq<Byte>>, error: Option<ReadError>) {
    function Then(text: seq<Byte>): Yielded {
      if text == [] then this else Yielded([text] + pieces, error)
    }
  }

  /** The rest of a stream, from a carry and a running total; a cancelled call breaks it between two reads. */
  function StreamFrom(carry: seq<Byte>, total: nat, chunks: seq<seq<Byte>>, maxBytes: nat, ending: Ending): Yielded
    decreases |chunks|
  {
    if chunks == [] then
      if ending.Broken? then Yielded([], Some(StoreFault(ending.fault))) else
        var last := FlushOf(carry);
        if last.Err? then Yielded([], Some(last.error)) else Yielded([], None).Then(last.value)
    else if |chunks[0]| > 0 then
      if total + |chunks[0]| > maxBytes then Yielded([], Some(TooLarge)) else
        var pushed := PushOf(carry, chunks[0]);
        if pushed.Err? then Yielded([], Some(pushed.error))
        else StreamFrom(pushed.value.carry, total + |chunks[0]|, chunks[1..], maxBytes, ending).Then(pushed.value.text)
    else StreamFrom(carry, total, chunks[1..], maxBytes, ending)
  }

  function Streamed(chunks: seq<seq<Byte>>, maxBytes: nat, ending: Ending): Yielded {
    StreamFrom([], 0, chunks, maxBytes, ending)
  }

  /** What reaches a consumer that stops at its piece number takes, counted from zero: nothing after that, errors included. */
  function Heard(y: Yielded, takes: Option<nat>): Yielded {
    if takes.Some? && takes.value < |y.pieces| then Yielded(y.pieces[..takes.value + 1], None) else y
  }

  /** What the store answers for a key: no object, an error, or a header and a body. */
  datatype StoreAnswer = Missing | Failing(fault: Fault) | Present(size: int, body: seq<Byte>, ending: Ending)

  /** fetch: the object's bytes, from the size its header reports and the body that arrives; None when there is none. */
  function Fetch(isRoot: bool, answer: StoreAnswer, limit: nat): (r: Result<Option<seq<Byte>>, ReadError>)
    // Never a truncated object, whatever the header claims and wherever the transfer broke.
    ensures r.Ok? && r.value.Some? <==>
              !isRoot && answer.Present? && answer.size <= limit && |answer.body| <= limit && answer.ending.EndOfFile?
    ensures r.Ok? && r.value.Some? ==> r.value.value == answer.body
    ensures r == Ok(None) <==> isRoot || answer.Missing?
    ensures r == Err(TooLarge) <==> !isRoot && answer.Present? && (answer.size > limit || |answer.body| > limit)
  {
    if isRoot || answer.Missing? then Ok(None)
    else if answer.Failing? then Err(StoreFault(answer.fault))
    else if answer.size > limit then Err(TooLarge)
    else
      // The reader stops one byte past the limit, and then never sees the error behind it.
      var raw := if |answer.body| <= limit then answer.body else answer.body[..limit + 1];
      if |answer.body| <= limit && answer.ending.Broken? then Err(StoreFault(answer.ending.fault))
      else if |raw| > limit then Err(TooLarge)
      else Ok(Some(raw))
  }

  function ReadText(isRoot: bool, answer: StoreAnswer, maxBytes: nat): Result<seq<Byte>, ReadError> {
    var raw :- Fetch(isRoot, answer, maxBytes);
    if raw.None? then Err(NotFound)
    else if !Valid(raw.value) then Err(NotText)
    else Ok(NormalizeLF(raw.value))
  }

  // ---------------------------------------------------------------------------------------------
  // Streaming refines reading the whole

  /**
    What a decoder owes after some bytes: done has been given out (normalised), carry is kept.
    A CR at the end of done is only allowed when another CR is the next byte.
  */
  ghost predicate Owes(done: seq<Byte>, carry: seq<Byte>) {
    Valid(done) && |carry| <= 4 && (EndsInCR(done) ==> carry != [] && carry[0] == CR)
  }

  lemma ValidWithoutCR(s: seq<Byte>)
    requires Valid(s) && EndsInCR(s)
    ensures Valid(s[..|s| - 1])
  {
    hide Valid;
    var q := RuneAtCut(s, |s|);
  }

  /** One push keeps what the decoder owes and gives out exactly the newly finished text. */
  lemma PushKeepsOwing(done: seq<Byte>, carry: seq<Byte>, raw: seq<Byte>) returns (out: seq<Byte>)
    requires Owes(done, carry) && PushOf(carry, raw).Ok?
    ensures var p := PushOf(carry, raw).value;
            && Owes(done + out, p.carry) && out + p.carry == carry + raw && Valid(out)
            && p.text == NormalizeLF(out)
            && NormalizeLF(done) + p.text == NormalizeLF(done + out)
  {
    hide Valid, NormalizeLF, SplitPoint, RuneLengthAt;
    var buffer := carry + raw;
    var at := SplitPoint(buffer, 1);
    SplitPointHolds(buffer, 1);
    out := HoldOut(buffer[..at], buffer[at..]);
    assert buffer == buffer[..at] + buffer[at..];
    assert EndsInCR(done) ==> buffer[0] == CR;
    HandOver(done, out, PushOf(carry, raw).value.carry, buffer);
  }

  lemma HoldOut(complete: seq<Byte>, tail: seq<Byte>) returns (out: seq<Byte>)
    requires Valid(complete) && |tail| <= 3
    ensures var p := HoldCR(complete, tail);
            && p.text == NormalizeLF(out) && Valid(out) && out + p.carry == complete + tail && |p.carry| <= 4
            && (EndsInCR(out) ==> p.carry != [] && p.carry[0] == CR)
  {
    hide Valid, NormalizeLF;
    if EndsInCR(complete) {
      ValidWithoutCR(complete);
      out := complete[..|complete| - 1];
      assert complete == out + [CR];
      assert out + ([CR] + tail) == out + [CR] + tail;
    } else {
      out := complete;
    }
  }

  /** Finished text joins what was given out before without a CRLF being torn apart. */
  lemma HandOver(done: seq<Byte>, out: seq<Byte>, held: seq<Byte>, buffer: seq<Byte>)
    requires Valid(done) && Valid(out) && |held| <= 4 && out + held == buffer
    requires EndsInCR(done) ==> buffer != [] && buffer[0] == CR
    requires EndsInCR(out) ==> held != [] && held[0] == CR
    ensures Owes(done + out, held)
    ensures NormalizeLF(done) + NormalizeLF(out) == NormalizeLF(done + out)
  {
    hide Valid, NormalizeLF;
    ValidConcat(done, out);
    if out == [] {
      assert done + out == done;
      assert held == buffer;
    } else {
      assert (done + out)[|done + out| - 1] == out[|out| - 1];
      assert buffer[0] == out[0];
    }
    NormalizeConcat(done, out);
  }

  /** A push that fails condemns every continuation. */
  lemma PushFailsRightly(done: seq<Byte>, carry: seq<Byte>, raw: seq<Byte>, rest: seq<Byte>)
    requires Valid(done) && PushOf(carry, raw).Err?
    ensures !Valid(done + (carry + raw + rest))
  {
    hide Valid, SplitPoint;
    ValidConcat(done, carry + raw + rest);
    if Valid(carry + raw + rest) {
      SplitIsSound(carry + raw, rest);
    }
  }

  /** No continuation of what has been read is text. */
  ghost predicate Hopeless(done: seq<Byte>, carry: seq<Byte>, raw: seq<Byte>) {
    forall rest: seq<Byte> :: !Valid(done + (carry + raw + rest))
  }

  lemma Condemned(done: seq<Byte>, carry: seq<Byte>, raw: seq<Byte>)
    requires Valid(done) && PushOf(carry, raw).Err?
    ensures Hopeless(done, carry, raw)
  {
    forall rest: seq<Byte> ensures !Valid(done + (carry + raw + rest)) {
      PushFailsRightly(done, carry, raw, rest);
    }
  }

  /** No continuation of these bytes is text. */
  ghost predicate Doomed(bytes: seq<Byte>) {
    forall more: seq<Byte> :: !Valid(bytes + more)
  }

  /** How a stream that still owes carry and has chunks ahead may end. */
  ghost predicate EndsRightly(done: seq<Byte>, rest: seq<Byte>, tooLong: bool, ending: Ending, y: Yielded) {
    && (y.error == None <==> ending.EndOfFile? && Valid(rest) && !tooLong)
    && (y.error == None ==> NormalizeLF(done) + Flatten(y.pieces) == NormalizeLF(done + rest))
    && (y.error == Some(TooLarge) ==> tooLong)
    && (y.error == Some(NotText) ==> if ending.Broken? then Doomed(rest) else !Valid(rest))
    && (y.error.Some? ==> y.error.value in [TooLarge, NotText] || (ending.Broken? && y.error.value == StoreFault(ending.fault)))
  }

  ghost predicate TooLong(total: nat, chunks: seq<seq<Byte>>, maxBytes: nat) {
    Flatten(chunks) != [] && total + |Flatten(chunks)| > maxBytes
  }

  /** The stream from any point on: what it yields, and how it ends. */
  lemma {:induction false} StreamFromRefines(
      done: seq<Byte>, carry: seq<Byte>, total: nat, chunks: seq<seq<Byte>>, maxBytes: nat, ending: Ending)
    requires Owes(done, carry)
    ensures EndsRightly(done, carry + Flatten(chunks), TooLong(total, chunks, maxBytes), ending,
                        StreamFrom(carry, total, chunks, maxBytes, ending))
    decreases |chunks|
  {
    hide Valid, NormalizeLF, PushOf, EndsRightly, Owes;
    if chunks == [] {
      StreamEnds(done, carry, total, maxBytes, ending);
      assert carry + Flatten(chunks) == carry;
    } else if |chunks[0]| == 0 {
      assert Flatten(chunks) == Flatten(chunks[1..]);
      StreamFromRefines(done, carry, total, chunks[1..], maxBytes, ending);
      assert StreamFrom(carry, total, chunks, maxBytes, ending) == StreamFrom(carry, total, chunks[1..], maxBytes, ending);
    } else if total + |chunks[0]| > maxBytes {
      TooLargeEnds(done, carry + Flatten(chunks), ending);
    } else {
      var later := Flatten(chunks[1..]);
      assert carry + Flatten(chunks) == carry + chunks[0] + later;
      var total' := total + |chunks[0]|;
      if PushOf(carry, chunks[0]).Err? {
        NotTextEnds(done, carry, chunks[0], later, TooLong(total, chunks, maxBytes), ending);
      } else {
        var p := PushOf(carry, chunks[0]).value;
        var out := PushKeepsOwing(done, carry, chunks[0]);
        StreamFromRefines(done + out, p.carry, total', chunks[1..], maxBytes, ending);
        assert TooLong(total', chunks[1..], maxBytes) == TooLong(total, chunks, maxBytes);
        assert carry + chunks[0] + later == out + (p.carry + later);
        PrependPiece(done, out, p.carry + later, p.text, TooLong(total, chunks, maxBytes), ending,
                     StreamFrom(p.carry, total', chunks[1..], maxBytes, ending));
      }
    }
  }

  lemma StreamEnds(done: seq<Byte>, carry: seq<Byte>, total: nat, maxBytes: nat, ending: Ending)
    requires Owes(done, carry)
    ensures EndsRightly(done, carry, false, ending, StreamFrom(carry, total, [], maxBytes, ending))
  {
    hide Valid, NormalizeLF, Owes;
    if ending.EndOfFile? {
      FlushRefines(done, carry);
      if Valid(carry) {
        ThenFlattens(Yielded([], None), NormalizeLF(carry));
      }
    }
  }

  lemma TooLargeEnds(done: seq<Byte>, rest: seq<Byte>, ending: Ending)
    ensures EndsRightly(done, rest, true, ending, Yielded([], Some(TooLarge)))
  {
  }

  lemma NotTextEnds(done: seq<Byte>, carry: seq<Byte>, raw: seq<Byte>, later: seq<Byte>, tooLong: bool, ending: Ending)
    requires PushOf(carry, raw).Err?
    ensures EndsRightly(done, carry + raw + later, tooLong, ending, Yielded([], Some(PushOf(carry, raw).error)))
  {
    hide SplitPoint, Valid;
    NothingOwed();
    forall more: seq<Byte> ensures !Valid(carry + raw + later + more) {
      PushFailsRightly([], carry, raw, later + more);
      assert [] + (carry + raw + (later + more)) == carry + raw + later + more;
    }
    assert carry + raw + later + [] == carry + raw + later;
  }

  lemma DoomedBehind(out: seq<Byte>, rest: seq<Byte>)
    requires Valid(out) && Doomed(rest)
    ensures Doomed(out + rest)
  {
    hide Valid;
    forall more: seq<Byte> ensures !Valid(out + rest + more) {
      ValidConcat(out, rest + more);
      assert out + (rest + more) == out + rest + more;
    }
  }

  lemma PrependPiece(done: seq<Byte>, out: seq<Byte>, rest: seq<Byte>, text: seq<Byte>, tooLong: bool, ending: Ending, y: Yielded)
    requires Valid(out) && NormalizeLF(done) + text == NormalizeLF(done + out)
    requires EndsRightly(done + out, rest, tooLong, ending, y)
    ensures EndsRightly(done, out + rest, tooLong, ending, y.Then(text))
  {
    hide Valid, NormalizeLF, Doomed;
    ValidConcat(out, rest);
    if Doomed(rest) {
      DoomedBehind(out, rest);
    }
    assert done + (out + rest) == done + out + rest;
    ThenFlattens(y, text);
    assert NormalizeLF(done) + (text + Flatten(y.pieces)) == NormalizeLF(done) + text + Flatten(y.pieces);
  }

  lemma ThenFlattens(y: Yielded, text: seq<Byte>)
    ensures Flatten(y.Then(text).pieces) == text + Flatten(y.pieces)
  {
    if text != [] {
      assert ([text] + y.pieces)[1..] == y.pieces;
    }
  }

  lemma FlushRefines(done: seq<Byte>, carry: seq<Byte>)
    requires Owes(done, carry)
    ensures NormalizeLF(done) + NormalizeLF(carry) == NormalizeLF(done + carry)
  {
    hide Valid, NormalizeLF;
    NormalizeConcat(done, carry);
  }

  /**
    Streaming is reading the whole, for every way of cutting the object into chunks, empty ones
    included, and for every way the transfer ends, as long as the header of a complete object does
    not claim more than there is. Where a broken transfer fails both, only the stream may have
    noticed before that no continuation could be text.
  */
  lemma StreamingIsReading(chunks: seq<seq<Byte>>, size: int, ending: Ending, maxBytes: nat)
    requires ending.EndOfFile? ==> size <= |Flatten(chunks)|
    ensures var body := Flatten(chunks);
            var y := Streamed(chunks, maxBytes, ending);
            var read := ReadText(false, Present(size, body, ending), maxBytes);
            && (y.error == None <==> read.Ok?)
            && (read.Ok? ==> Flatten(y.pieces) == read.value)
            && (size <= maxBytes && |body| <= maxBytes && read.Err? ==>
                  y.error == Some(read.error) || (ending.Broken? && y.error == Some(NotText) && Doomed(body)))
            && (y.error == Some(TooLarge) ==> read == Err(TooLarge))
  {
    hide Valid, NormalizeLF, StreamFrom, Owes, Doomed;
    NothingOwed();
    StreamFromRefines([], [], 0, chunks, maxBytes, ending);
    assert [] + Flatten(chunks) == Flatten(chunks);
  }

  lemma NothingOwed()
    ensures Owes([], []) && NormalizeLF([]) == [] && Valid([])
  {
  }

  ghost predicate AllText(pieces: seq<seq<Byte>>) {
    forall i :: 0 <= i < |pieces| ==> pieces[i] != [] && Valid(pieces[i])
  }

  /** However the stream ends, no piece is empty and each piece is valid text by itself. */
  lemma {:induction false} PiecesAreText(
      done: seq<Byte>, carry: seq<Byte>, total: nat, chunks: seq<seq<Byte>>, maxBytes: nat, ending: Ending)
    requires Owes(done, carry)
    ensures AllText(StreamFrom(carry, total, chunks, maxBytes, ending).pieces)
    decreases |chunks|
  {
    hide Valid, NormalizeLF, PushOf, Owes;
    if chunks == [] {
      if Valid(carry) {
        NormalizeKeepsValid(carry);
      }
    } else if |chunks[0]| == 0 {
      PiecesAreText(done, carry, total, chunks[1..], maxBytes, ending);
      assert StreamFrom(carry, total, chunks, maxBytes, ending) == StreamFrom(carry, total, chunks[1..], maxBytes, ending);
    } else if total + |chunks[0]| <= maxBytes && PushOf(carry, chunks[0]).Ok? {
      var out := PushKeepsOwing(done, carry, chunks[0]);
      NormalizeKeepsValid(out);
      assert Valid(PushOf(carry, chunks[0]).value.text);
      PiecesAreText(done + out, PushOf(carry, chunks[0]).value.carry, total + |chunks[0]|, chunks[1..], maxBytes, ending);
    }
  }

  /** However a stream ends and whenever its consumer stops, the first n pieces are the start of the object's text. */
  lemma {:induction false} PartialOutputIsAPrefix(
      done: seq<Byte>, carry: seq<Byte>, total: nat, chunks: seq<seq<Byte>>, maxBytes: nat, ending: Ending, n: nat)
    returns (given: seq<Byte>)
    requires Owes(done, carry) && n <= |StreamFrom(carry, total, chunks, maxBytes, ending).pieces|
    ensures given <= carry + Flatten(chunks) && Valid(done + given)
    ensures NormalizeLF(done) + Flatten(StreamFrom(carry, total, chunks, maxBytes, ending).pieces[..n]) == NormalizeLF(done + given)
    decreases |chunks|
  {
    hide Valid, NormalizeLF, PushOf, Owes, StreamFrom, Flatten;
    OwesIsText(done, carry);
    if n == 0 {
      given := [];
      assert done + given == done;
      NothingFlattens(done);
    } else if chunks == [] {
      given := carry;
      PartialFlush(done, carry, total, maxBytes, ending, n);
    } else if |chunks[0]| == 0 {
      EmptyRead(carry, total, chunks, maxBytes, ending);
      given := PartialOutputIsAPrefix(done, carry, total, chunks[1..], maxBytes, ending, n);
    } else {
      NonEmptyRead(carry, total, chunks, maxBytes, ending);
      var p := PushOf(carry, chunks[0]).value;
      var out := PushKeepsOwing(done, carry, chunks[0]);
      var y := StreamFrom(p.carry, total + |chunks[0]|, chunks[1..], maxBytes, ending);
      var m := if p.text == [] then n else n - 1;
      var inner := PartialOutputIsAPrefix(done + out, p.carry, total + |chunks[0]|, chunks[1..], maxBytes, ending, m);
      given := out + inner;
      PartialPush(done, out, inner, p.carry, Flatten(chunks[1..]), carry + chunks[0], p.text, y, m);
      assert carry + (chunks[0] + Flatten(chunks[1..])) == carry + chunks[0] + Flatten(chunks[1..]);
    }
  }

  lemma NothingFlattens(done: seq<Byte>)
    ensures NormalizeLF(done) + Flatten<Byte>([]) == NormalizeLF(done)
  {
    hide NormalizeLF;
  }

  lemma PartialFlush(done: seq<Byte>, carry: seq<Byte>, total: nat, maxBytes: nat, ending: Ending, n: nat)
    requires Owes(done, carry) && Valid(done)
    requires 0 < n <= |StreamFrom(carry, total, [], maxBytes, ending).pieces|
    ensures carry <= carry + Flatten<Byte>([]) && Valid(done + carry)
    ensures NormalizeLF(done) + Flatten(StreamFrom(carry, total, [], maxBytes, ending).pieces[..n]) == NormalizeLF(done + carry)
  {
    hide Valid, NormalizeLF, Owes;
    FlushRefines(done, carry);
    ValidConcat(done, carry);
    FlattenOne(NormalizeLF(carry));
  }

  lemma EmptyRead(carry: seq<Byte>, total: nat, chunks: seq<seq<Byte>>, maxBytes: nat, ending: Ending)
    requires chunks != [] && chunks[0] == []
    ensures Flatten(chunks) == Flatten(chunks[1..])
    ensures StreamFrom(carry, total, chunks, maxBytes, ending) == StreamFrom(carry, total, chunks[1..], maxBytes, ending)
  {
  }

  /** A read with bytes: if the stream gives out anything from here on, the push went through. */
  lemma NonEmptyRead(carry: seq<Byte>, total: nat, chunks: seq<seq<Byte>>, maxBytes: nat, ending: Ending)
    requires chunks != [] && chunks[0] != [] && StreamFrom(carry, total, chunks, maxBytes, ending).pieces != []
    ensures Flatten(chunks) == chunks[0] + Flatten(chunks[1..])
    ensures PushOf(carry, chunks[0]).Ok?
    ensures StreamFrom(carry, total, chunks, maxBytes, ending) ==
            StreamFrom(PushOf(carry, chunks[0]).value.carry, total + |chunks[0]|, chunks[1..], maxBytes, ending)
              .Then(PushOf(carry, chunks[0]).value.text)
  {
    hide PushOf;
  }

  lemma PartialPush(done: seq<Byte>, out: seq<Byte>, inner: seq<Byte>, carry: seq<Byte>, later: seq<Byte>, buffer: seq<Byte>,
                    text: seq<Byte>, y: Yielded, m: nat)
    requires buffer == out + carry && inner <= carry + later && m <= |y.pieces|
    requires Valid(done + out + inner) && NormalizeLF(done) + text == NormalizeLF(done + out)
    requires NormalizeLF(done + out) + Flatten(y.pieces[..m]) == NormalizeLF(done + out + inner)
    ensures out + inner <= buffer + later && Valid(done + (out + inner))
    ensures NormalizeLF(done) + Flatten(y.Then(text).pieces[..if text == [] then m else m + 1]) == NormalizeLF(done + (out + inner))
  {
    hide Valid, NormalizeLF;
    assert buffer + later == out + (carry + later);
    assert done + (out + inner) == done + out + inner;
    ThenFlattensFirst(y, text, m);
    assert NormalizeLF(done) + (text + Flatten(y.pieces[..m])) == NormalizeLF(done) + text + Flatten(y.pieces[..m]);
  }

  lemma FlattenOne(text: seq<Byte>)
    ensures Flatten([text]) == text
  {
    assert [text][1..] == [];
  }

  lemma ThenFlattensFirst(y: Yielded, text: seq<Byte>, m: nat)
    requires m <= |y.pieces|
    ensures var n := if text == [] then m else m + 1;
            Flatten(y.Then(text).pieces[..n]) == text + Flatten(y.pieces[..m])
  {
    if text != [] {
      assert ([text] + y.pieces)[..m + 1] == [text] + y.pieces[..m];
      assert ([text] + y.pieces[..m])[1..] == y.pieces[..m];
    } else {
      assert text + Flatten(y.pieces[..m]) == Flatten(y.pieces[..m]);
    }
  }

  lemma OwesIsText(done: seq<Byte>, carry: seq<Byte>)
    requires Owes(done, carry)
    ensures Valid(done)
  {
  }

  // ---------------------------------------------------------------------------------------------
  // The code itself

  /** splitAtRuneBoundary: the loop that looks back for the byte that starts the last rune. */
  method SplitAtRuneBoundary(buffer: seq<Byte>) returns (complete: seq<Byte>, carry: seq<Byte>)
    ensures complete + carry == buffer && |carry| <= 3
    ensures |complete| == SplitPoint(buffer, 1)
    ensures carry != [] ==> |carry| < RuneLengthAt(carry[0])
  {
    var back := 1;
    SplitPointHolds(buffer, 1);
    while back <= 4 && back <= |buffer|
      invariant 1 <= back <= 5
      invariant SplitPoint(buffer, back) == SplitPoint(buffer, 1)
    {
      var at := |buffer| - back;
      var size := RuneLengthAt(buffer[at]);
      if size == 0 {
        back := back + 1;
      } else if at + size <= |buffer| {
        return buffer, [];
      } else {
        return buffer[..at], buffer[at..];
      }
    }
    return buffer, [];
  }

  lemma Regroup(a: seq<Byte>, b: seq<Byte>, c: seq<Byte>)
    ensures a + b + c == a + (b + c)
  {
  }

  lemma PushIs(carry: seq<Byte>, raw: seq<Byte>, complete: seq<Byte>, tail: seq<Byte>)
    requires complete + tail == carry + raw && |complete| == SplitPoint(carry + raw, 1)
    ensures PushOf(carry, raw) == if Valid(complete) then Ok(HoldCR(complete, tail)) else Err(NotText)
  {
    hide Valid, NormalizeLF, SplitPoint;
    assert (carry + raw)[..|complete|] == complete && (carry + raw)[|complete|..] == tail;
  }

  class TextDecoder {
    var carry: seq<Byte>

    /** The bytes whose text has been given out; only the proof looks at it. */
    ghost var done: seq<Byte>

    ghost predicate Sound()
      reads this
    {
      Owes(done, carry)
    }

    constructor ()
      ensures Sound() && done == [] && carry == []
    {
      carry := [];
      done := [];
    }

    method Push(raw: seq<Byte>) returns (r: Result<seq<Byte>, ReadError>)
      requires Sound()
      modifies this
      ensures Sound()
      ensures r.Ok? <==> PushOf(old(carry), raw).Ok?
      ensures r.Ok? ==> r.value == PushOf(old(carry), raw).value.text
      ensures r.Ok? ==> carry == PushOf(old(carry), raw).value.carry
      ensures r.Ok? ==> done + carry == old(done + carry) + raw
      ensures r.Ok? ==> NormalizeLF(old(done)) + r.value == NormalizeLF(done)
      ensures r.Err? ==> r.error == NotText && carry == old(carry) && done == old(done)
      ensures r.Err? ==> Hopeless(old(done), old(carry), raw)
    {
      hide Valid, NormalizeLF, SplitPoint, RuneLengthAt, Hopeless, Owes, PushOf;
      OwesIsText(done, carry);
      var buffer := raw;
      if |carry| > 0 {
        buffer := carry + raw;
      }
      assert buffer == carry + raw;
      var complete, tail := SplitAtRuneBoundary(buffer);
      PushIs(carry, raw, complete, tail);
      if !Valid(complete) {
        Condemned(done, carry, raw);
        return Err(NotText);
      }
      ghost var out := PushKeepsOwing(done, carry, raw);
      if |complete| > 0 && complete[|complete| - 1] == CR {
        complete := complete[..|complete| - 1];
        tail := [CR] + tail;
      }
      Regroup(done, carry, raw);
      Regroup(done, out, tail);
      carry := tail;
      done := done + out;
      return Ok(NormalizeLF(complete));
    }

    method Flush() returns (r: Result<seq<Byte>, ReadError>)
      requires Sound()
      modifies this
      ensures r == FlushOf(old(carry))
      ensures r.Ok? <==> Valid(old(done + carry))
      ensures r.Ok? ==> NormalizeLF(old(done)) + r.value == NormalizeLF(done) && done == old(done + carry) && carry == []
      ensures r.Err? ==> carry == old(carry) && done == old(done)
    {
      ValidConcat(done, carry);
      FlushRefines(done, carry);
      if |carry| == 0 {
        assert done + carry == done;
        return Ok([]);
      }
      if !Valid(carry) {
        return Err(NotText);
      }
      var text := NormalizeLF(carry);
      done := done + carry;
      carry := [];
      return Ok(text);
    }
  }

  ghost function After(pieces: seq<seq<Byte>>, y: Yielded): Yielded {
    Yielded(pieces + y.pieces, y.error)
  }

  /** One read of the stream: what becomes of it. */
  lemma ReadStep(carry: seq<Byte>, total: nat, chunks: seq<seq<Byte>>, maxBytes: nat, ending: Ending)
    requires chunks != []
    ensures var pushed := PushOf(carry, chunks[0]);
            StreamFrom(carry, total, chunks, maxBytes, ending) ==
            if chunks[0] == [] then StreamFrom(carry, total, chunks[1..], maxBytes, ending)
            else if total + |chunks[0]| > maxBytes then Yielded([], Some(TooLarge))
            else if pushed.Err? then Yielded([], Some(NotText))
            else StreamFrom(pushed.value.carry, total + |chunks[0]|, chunks[1..], maxBytes, ending).Then(pushed.value.text)
  {
    hide PushOf;
  }

  lemma PieceGiven(pieces: seq<seq<Byte>>, text: seq<Byte>, y: Yielded)
    ensures After(pieces, y.Then(text)) == After(if text == [] then pieces else pieces + [text], y)
  {
  }

  /** The consumer stops with what it has, or has room for more. */
  lemma PieceHeard(pieces: seq<seq<Byte>>, y: Yielded, takes: Option<nat>)
    ensures takes.Some? && |pieces| == takes.value + 1 ==> Heard(After(pieces, y), takes) == Yielded(pieces, None)
    ensures y.pieces == [] && (takes.Some? ==> |pieces| <= takes.value) ==> Heard(After(pieces, y), takes) == Yielded(pieces, y.error)
  {
  }

  lemma FlushHeard(pieces: seq<seq<Byte>>, text: seq<Byte>, takes: Option<nat>)
    requires takes.Some? ==> |pieces| <= takes.value
    ensures Heard(After(pieces, Yielded([], None).Then(text)), takes) ==
            Yielded(if text == [] then pieces else pieces + [text], None)
  {
  }

  lemma AtTheEnd(carry: seq<Byte>, total: nat, maxBytes: nat, ending: Ending)
    ensures StreamFrom(carry, total, [], maxBytes, ending) ==
            if ending.Broken? then Yielded([], Some(StoreFault(ending.fault)))
            else if FlushOf(carry).Err? then Yielded([], Some(NotText))
            else Yielded([], None).Then(FlushOf(carry).value)
  {
  }

  /** The loop of StreamText, over the reads the store answers and for a consumer that may stop. */
  method StreamText(chunks: seq<seq<Byte>>, ending: Ending, maxBytes: nat, takes: Option<nat>)
    returns (pieces: seq<seq<Byte>>, error: Option<ReadError>)
    ensures Yielded(pieces, error) == Heard(Streamed(chunks, maxBytes, ending), takes)
  {
    hide Valid, NormalizeLF, PushOf, FlushOf, Owes, Hopeless, StreamFrom, Heard, After;
    var decoder := new TextDecoder();
    var total: nat := 0;
    pieces := [];
    NothingGiven(Streamed(chunks, maxBytes, ending));
    assert chunks[0..] == chunks;
    for i := 0 to |chunks|
      invariant decoder.Sound() && fresh(decoder)
      invariant takes.Some? ==> |pieces| <= takes.value
      invariant total >= 0
      invariant Streamed(chunks, maxBytes, ending) == After(pieces, StreamFrom(decoder.carry, total, chunks[i..], maxBytes, ending))
    {
      assert chunks[i..][0] == chunks[i] && chunks[i..][1..] == chunks[i + 1..];
      ReadStep(decoder.carry, total, chunks[i..], maxBytes, ending);
      PieceHeard(pieces, StreamFrom(decoder.carry, total, chunks[i..], maxBytes, ending), takes);
      if |chunks[i]| > 0 {
        total := total + |chunks[i]|;
        if total > maxBytes {
          return pieces, Some(TooLarge);
        }
        var text := decoder.Push(chunks[i]);
        if text.Err? {
          return pieces, Some(NotText);
        }
        ghost var y := StreamFrom(decoder.carry, total, chunks[i + 1..], maxBytes, ending);
        PieceGiven(pieces, text.value, y);
        if text.value != [] {
          pieces := pieces + [text.value];
          if takes.Some? && |pieces| > takes.value {
            PieceHeard(pieces, y, takes);
            return pieces, None;
          }
        }
      }
    }
    assert chunks[|chunks|..] == [];
    AtTheEnd(decoder.carry, total, maxBytes, ending);
    PieceHeard(pieces, StreamFrom(decoder.carry, total, [], maxBytes, ending), takes);
    if ending.Broken? {
      return pieces, Some(StoreFault(ending.fault));
    }
    var text := decoder.Flush();
    if text.Err? {
      return pieces, Some(NotText);
    }
    FlushHeard(pieces, text.value, takes);
    if text.value != [] {
      pieces := pieces + [text.value];
    }
    return pieces, None;
  }

  lemma NothingGiven(y: Yielded)
    ensures After([], y) == y
  {
  }
}
