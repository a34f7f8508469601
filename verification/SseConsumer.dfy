/** `consume_sse_lines`: the loop that feeds an HTTP body through both incremental
    readers and hands the lines to a callback.

    The network is a list of items, each with the answer of `tx.is_closed()` at that
    moment and either a chunk or a transport error.  The callback may keep state, so its
    verdict on a line is a function of all the lines it has been handed, that line last.
 */
module SseConsumer {
  import opened Utf8
  import opened StreamDecoder
  import Text
  import opened Wrappers

  datatype Item = Item(receiverClosed: bool, body: Option<seq<Byte>>)

  datatype Failure = TransportFailure | DecoderOverflow

  /** `Finished` is `Ok(Some(summary))`, `Stopped` is `Ok(None)`. */
  datatype Outcome = Finished(bytesRead: nat) | Stopped | Failed(error: Failure)

  type Callback = seq<string> -> bool

  /** The bytes of the whole body, received or not. */
  function Body(items: seq<Item>): seq<Byte> {
    if items == [] then []
    else (if items[0].body.Some? then items[0].body.value else []) + Body(items[1..])
  }

  /** The one-shot reading of a body: decode it whole, then split it whole. */
  function LinesOf(bytes: seq<Byte>): seq<string> {
    AllLines(DecodeLossy(bytes))
  }

  lemma {:induction false} BodySplits(a: seq<Item>, b: seq<Item>)
    ensures Body(a + b) == Body(a) + Body(b)
  {
    if a == [] {
      assert a + b == b;
    } else {
      BodySplits(a[1..], b);
      assert (a + b)[0] == a[0] && (a + b)[1..] == a[1..] + b;
      Assoc(if a[0].body.Some? then a[0].body.value else [], Body(a[1..]), Body(b));
    }
  }

  /** The callback accepted every line it was handed before the last one. */
  ghost predicate Accepted(onLine: Callback, delivered: seq<string>) {
    forall k | 0 < k < |delivered| :: onLine(delivered[..k])
  }

  /** What holds of both readers between two items: after the bytes `seen` all decided
      text is split, and all complete lines of it are delivered and accepted. */
  ghost predicate InStep(seen: seq<Byte>, decoder: Utf8StreamDecoder, reader: SseLineReader,
                         onLine: Callback, delivered: seq<string>)
    reads decoder, reader
  {
    && decoder.Valid() && reader.Valid()
    && decoder.pending == Available(seen).tail
    && Lines(delivered, reader.buffer) == SplitLines(Available(seen).text)
    && Accepted(onLine, delivered)
    && (delivered != [] ==> onLine(delivered))
  }

  ghost predicate AllBare(lines: seq<string>) {
    forall k | 0 <= k < |lines| :: Bare(lines[k])
  }

  /** The unterminated line that the reader holds after the bytes `seen`. */
  function OpenLine(seen: seq<Byte>): string {
    SplitLines(Available(seen).text).rest
  }

  /** The chunk of the item is near the limit by itself, or its text, at most three times its
      bytes and those left over, is too much for the open line. */
  ghost predicate TooMuchAt(items: seq<Item>, i: nat)
    requires i < |items|
  {
    && items[i].body.Some?
    && var size := |items[i].body.value|;
       || size + 3 > MAX_STREAM_BUFFER_BYTES
       || Utf8Len(OpenLine(Body(items[..i]))) + 3 * (size + 3) > MAX_STREAM_BUFFER_BYTES
  }

  method ConsumeDecodedLines(reader: SseLineReader, text: string, onLine: Callback,
                             before: seq<string>)
    returns (r: Result<bool, Failure>, delivered: seq<string>)
    requires reader.Valid()
    requires Accepted(onLine, before) && (before != [] ==> onLine(before))
    modifies reader
    ensures reader.Valid()
    ensures before <= delivered <= before + SplitLines(old(reader.buffer) + text).lines
    ensures Accepted(onLine, delivered)
    ensures r == Ok(true) ==>
              && (delivered != [] ==> onLine(delivered))
              && delivered == before + SplitLines(old(reader.buffer) + text).lines
              && reader.buffer == SplitLines(old(reader.buffer) + text).rest
    ensures r == Ok(false) ==> delivered != [] && !onLine(delivered)
    ensures r.Err? ==> delivered == before && r.error == DecoderOverflow
    ensures r.Err? <==> Utf8Len(old(reader.buffer)) + Utf8Len(text) > MAX_STREAM_BUFFER_BYTES
  {
    hide *;
    delivered := before;
    var pushed := reader.PushChunk(text);
    if pushed.Err? {
      return Err(DecoderOverflow), delivered;
    }
    var lines := pushed.value;
    for i := 0 to |lines|
      invariant reader.Valid() && reader.buffer == SplitLines(old(reader.buffer) + text).rest
      invariant delivered == before + lines[..i]
      invariant Accepted(onLine, delivered)
      invariant delivered != [] ==> onLine(delivered)
    {
      Extend(onLine, delivered, lines[i]);
      delivered := delivered + [lines[i]];
      assert lines[..i + 1] == lines[..i] + [lines[i]];
      if !onLine(delivered) {
        return Ok(false), delivered;
      }
    }
    r := Ok(true);
  }

  lemma Extend(onLine: Callback, delivered: seq<string>, line: string)
    requires Accepted(onLine, delivered) && (delivered != [] ==> onLine(delivered))
    ensures Accepted(onLine, delivered + [line])
  {
    forall k | 0 < k < |delivered + [line]|
      ensures onLine((delivered + [line])[..k])
    {
      if k < |delivered| {
        assert (delivered + [line])[..k] == delivered[..k];
      } else {
        assert (delivered + [line])[..k] == delivered;
      }
    }
  }

  method ConsumeSseLines(items: seq<Item>, onLine: Callback)
    returns (outcome: Outcome, delivered: seq<string>)
    // Whatever happens, the callback sees a prefix of the one-shot line list.
    ensures delivered <= LinesOf(Body(items))
    // A run that reaches the end has handed over all of it, and counted every byte.
    ensures outcome.Finished? ==> delivered == LinesOf(Body(items)) && outcome.bytesRead == |Body(items)|
    // Every line is handed over without its line end.
    ensures AllBare(delivered)
    // No line is handed over after one that was refused.
    ensures Accepted(onLine, delivered)
    ensures outcome.Finished? && delivered != [] ==> onLine(delivered)
    // The only ways not to finish.
    ensures outcome.Stopped? ==>
              || (delivered != [] && !onLine(delivered))
              || exists i :: 0 <= i < |items| && items[i].receiverClosed
    ensures outcome == Failed(TransportFailure) ==> exists i :: 0 <= i < |items| && items[i].body.None?
    // Overflow needs a long chunk or a long line, however long the body is; and a body
    // under a third of the limit has neither.
    ensures outcome == Failed(DecoderOverflow) ==>
              || (exists i | 0 <= i < |items| :: TooMuchAt(items, i))
              || Utf8Len(OpenLine(Body(items))) + 9 > MAX_STREAM_BUFFER_BYTES
    ensures outcome == Failed(DecoderOverflow) ==> 3 * |Body(items)| > MAX_STREAM_BUFFER_BYTES
  {
    hide SplitLines, Available, Head, DecodeLossy, Utf8Len, LinesOf, Body, Accepted,
         Text.Trim, Text.IsWhitespace, ProperPrefix, Middle, AllBare, Bare;
    delivered := [];
    NothingReceived(onLine);
    LinesAreBare(Body(items));
    var decoder := new Utf8StreamDecoder();
    var reader := new SseLineReader();
    var bytesRead := 0;
    DecodeEmpty();
    NoLfNoLines([]);
    for i := 0 to |items|
      invariant bytesRead == |Body(items[..i])|
      invariant fresh(decoder) && fresh(reader)
      invariant InStep(Body(items[..i]), decoder, reader, onLine, delivered)
      invariant delivered <= LinesOf(Body(items))
    {
      ghost var seen := Body(items[..i]);
      if items[i].receiverClosed {
        return Stopped, delivered;
      }
      if items[i].body.None? {
        return Failed(TransportFailure), delivered;
      }
      var bytes := items[i].body.value;
      bytesRead := bytesRead + |bytes|;
      NextItem(items, i);
      ChunkSize(seen, bytes, reader.buffer);
      assert OpenLine(seen) == reader.buffer;
      var pushed := decoder.Push(bytes);
      if pushed.Err? {
        assert TooMuchAt(items, i);
        return Failed(DecoderOverflow), delivered;
      }
      NextChunk(seen, bytes, reader.buffer);
      LaterBytes(seen + bytes, Body(items[i + 1..]));
      NothingToSplit(reader.buffer);
      if pushed.value.Some? {
        var consumed, handed := ConsumeDecodedLines(reader, pushed.value.value, onLine, delivered);
        delivered := handed;
        if consumed.Err? {
          assert TooMuchAt(items, i);
          return Failed(consumed.error), delivered;
        }
        if !consumed.value {
          return Stopped, delivered;
        }
      }
    }
    assert items[..|items|] == items;
    ghost var seen := Body(items);
    WholeBody(seen, reader.buffer);
    TailSize(seen, reader.buffer);
    assert OpenLine(seen) == reader.buffer;
    NothingToSplit(reader.buffer);
    var tail := decoder.Finish();
    if tail.Some? {
      var consumed, handed := ConsumeDecodedLines(reader, tail.value, onLine, delivered);
      delivered := handed;
      if consumed.Err? {
        return Failed(consumed.error), delivered;
      }
      if !consumed.value {
        return Stopped, delivered;
      }
    }
    var last := reader.Flush();
    if last.Some? {
      Extend(onLine, delivered, last.value);
      delivered := delivered + [last.value];
      if !onLine(delivered) {
        return Stopped, delivered;
      }
    }
    outcome := Finished(bytesRead);
  }

  lemma NothingReceived(onLine: Callback)
    ensures Body([]) == [] && Accepted(onLine, [])
  {
  }

  lemma BodyOfOne(item: Item)
    requires item.body.Some?
    ensures Body([item]) == item.body.value
  {
    assert [item][1..] == [] && item.body.value + [] == item.body.value;
  }

  /** No line of a body, and so none handed over, has a line end. */
  lemma LinesAreBare(bytes: seq<Byte>)
    ensures forall lines | lines <= LinesOf(bytes) :: AllBare(lines)
  {
    hide Bare, SplitLines, LastLine, DecodeLossy;
    LastLineIsBare(SplitLines(DecodeLossy(bytes)).rest);
    var all := LinesOf(bytes);
    assert AllBare(all);
    forall lines | lines <= all
      ensures AllBare(lines)
    {
      assert forall k | 0 <= k < |lines| :: lines[k] == all[k];
    }
  }

  lemma NextItem(items: seq<Item>, i: nat)
    requires i < |items| && items[i].body.Some?
    ensures Body(items[..i + 1]) == Body(items[..i]) + items[i].body.value
    ensures Body(items) == Body(items[..i]) + items[i].body.value + Body(items[i + 1..])
  {
    hide *;
    assert items[..i + 1] == items[..i] + [items[i]];
    BodySplits(items[..i], [items[i]]);
    BodyOfOne(items[i]);
    assert items == items[..i + 1] + items[i + 1..];
    BodySplits(items[..i + 1], items[i + 1..]);
  }

  /** One more chunk: the text it decides is what the reader has to split next. */
  lemma NextChunk(seen: seq<Byte>, bytes: seq<Byte>, buffer: string)
    requires buffer == SplitLines(Available(seen).text).rest
    ensures var more := Available(Available(seen).tail + bytes);
            var next := SplitLines(buffer + more.text);
            && Available(seen + bytes).tail == more.tail
            && SplitLines(Available(seen + bytes).text)
               == Lines(SplitLines(Available(seen).text).lines + next.lines, next.rest)
  {
    hide SplitLines, Available, Head;
    AvailableSplits(seen, bytes);
    SplitLinesSplits(Available(seen).text, Available(Available(seen).tail + bytes).text);
  }

  /** Neither reader is asked to hold more than three times the bytes received. */
  lemma {:induction false} ChunkSize(seen: seq<Byte>, bytes: seq<Byte>, buffer: string)
    requires buffer == SplitLines(Available(seen).text).rest
    ensures |Available(seen).tail| <= 3 && |Available(seen).tail| + |bytes| <= |seen + bytes|
    ensures Utf8Len(Available(Available(seen).tail + bytes).text) <= 3 * (|bytes| + 3)
    ensures Utf8Len(buffer) + Utf8Len(Available(Available(seen).tail + bytes).text) <= 3 * |seen + bytes|
  {
    hide *;
    LossySize(seen);
    LossySize(seen + bytes);
    LossySize(Available(seen).tail + bytes);
    AvailableSplits(seen, bytes);
    RestSize(Available(seen).text);
    Utf8LenSplits(Available(seen).text, Available(Available(seen).tail + bytes).text);
  }

  lemma {:induction false} TailSize(seen: seq<Byte>, buffer: string)
    requires buffer == SplitLines(Available(seen).text).rest
    ensures Utf8Len(buffer) + Utf8Len(DecodeLossy(Available(seen).tail)) <= 3 * |seen|
    ensures Utf8Len(DecodeLossy(Available(seen).tail)) <= 9
  {
    hide *;
    DecodeAtEnd(seen);
    LossySize(seen);
    LossySize(Available(seen).tail);
    RestSize(Available(seen).text);
    Utf8LenSplits(Available(seen).text, DecodeLossy(Available(seen).tail));
  }

  /** Lines complete so far are the first lines of any longer body. */
  lemma LaterBytes(seen: seq<Byte>, more: seq<Byte>)
    ensures SplitLines(Available(seen).text).lines <= LinesOf(seen + more)
  {
    hide SplitLines, Available, Head, DecodeLossy;
    DecodeSplits(seen, more);
    SplitLinesSplits(Available(seen).text, DecodeLossy(Available(seen).tail + more));
  }

  /** At the end of the body: the replacement for a truncated tail, then the last line. */
  lemma WholeBody(seen: seq<Byte>, buffer: string)
    requires buffer == SplitLines(Available(seen).text).rest
    ensures var last := SplitLines(buffer + DecodeLossy(Available(seen).tail));
            LinesOf(seen) == SplitLines(Available(seen).text).lines + last.lines + LastLine(last.rest)
  {
    hide SplitLines, Available, Head, DecodeLossy;
    DecodeAtEnd(seen);
    SplitLinesSplits(Available(seen).text, DecodeLossy(Available(seen).tail));
  }

  lemma DecodeAtEnd(seen: seq<Byte>)
    ensures DecodeLossy(seen) == Available(seen).text + DecodeLossy(Available(seen).tail)
  {
    hide *;
    DecodeSplits(seen, []);
    assert seen + [] == seen;
    assert Available(seen).tail + [] == Available(seen).tail;
  }

  lemma NothingToSplit(buffer: string)
    requires LF !in buffer
    ensures SplitLines(buffer + []) == Lines([], buffer)
  {
    assert buffer + [] == buffer;
    NoLfNoLines(buffer);
  }
}
