/** The two incremental readers under every HTTP stream: bytes to text
    (`Utf8StreamDecoder`) and text to lines (`SseLineReader`).

    Each class is proved against a function of everything it has been fed, and the
    lemmas show that the function does not depend on how the input was cut.
 */
module StreamDecoder {
  import opened Utf8
  import opened Text
  import opened Wrappers

  const MAX_STREAM_BUFFER_BYTES: nat := 16 * 1024 * 1024

  datatype StreamDecoderError = BufferOverflow

  function TextOf(o: Option<string>): string {
    if o.Some? then o.value else []
  }

  // ---------------------------------------------------------------- bytes to text

  /** `valid_utf8_prefix`: its error branch is dead for the arguments it is given. */
  function ValidUtf8Prefix(bytes: seq<Byte>): string {
    if Validate(bytes).Valid? then DecodeLossy(bytes) else []
  }

  class Utf8StreamDecoder {
    var pending: seq<Byte>

    /** What is pending is undecided: nothing could be emitted for it yet. */
    ghost predicate Valid()
      reads this
    {
      Available(pending) == Decoded([], pending)
    }

    constructor ()
      ensures Valid() && pending == []
    {
      pending := [];
    }

    method Push(chunk: seq<Byte>) returns (r: Result<Option<string>, StreamDecoderError>)
      requires Valid()
      modifies this
      ensures Valid()
      ensures r.Err? <==> chunk != [] && |old(pending)| + |chunk| > MAX_STREAM_BUFFER_BYTES
      ensures r.Err? ==> pending == old(pending)
      ensures r.Ok? ==> Decoded(TextOf(r.value), pending) == Available(old(pending) + chunk)
      ensures r.Ok? && r.value.Some? ==> r.value.value != []
      ensures |pending| <= 3 && ProperPrefix(pending)
    {
      TailIsProperPrefix(pending);
      if chunk == [] {
        assert pending + chunk == pending;
        return Ok(None);
      }
      if |pending| + |chunk| > MAX_STREAM_BUFFER_BYTES {
        return Err(BufferOverflow);
      }
      pending := pending + chunk;
      TailIsProperPrefix(pending);
      var text := DecodeAvailable();
      r := Ok(text);
    }

    method DecodeAvailable() returns (r: Option<string>)
      modifies this
      ensures Decoded(TextOf(r), pending) == Available(old(pending))
      ensures r.Some? ==> r.value != []
    {
      hide Head, Available, DecodeLossy, Validate;
      var decoded: string := [];
      while true
        invariant Available(old(pending)) == Decoded(decoded + Available(pending).text, Available(pending).tail)
        decreases |pending|
      {
        match Validate(pending)
        case Valid =>
          ValidIsDecided(pending);
          decoded := decoded + DecodeLossy(pending);
          pending := [];
          return if decoded == [] then None else Some(decoded);
        case Invalid(validUpTo, errorLen) =>
          PrefixIsValid(pending);
          Grows(decoded, pending);
          if validUpTo > 0 {
            decoded := decoded + ValidUtf8Prefix(pending[..validUpTo]);
          }
          match errorLen
          case UnexpectedEnd =>
            if decoded == [] {
              return None;
            }
            pending := pending[validUpTo..];
            return Some(decoded);
          case Len(invalidLen) =>
            decoded := decoded + [REPLACEMENT];
            pending := pending[validUpTo + invalidLen..];
            if pending == [] {
              DecodeEmpty();
              return Some(decoded);
            }
      }
    }

    method Finish() returns (r: Option<string>)
      modifies this
      ensures pending == []
      ensures TextOf(r) == DecodeLossy(old(pending))
      ensures r.Some? ==> r.value != []
    {
      hide Head, Available, DecodeLossy, Validate;
      DecodeEmpty();
      if pending == [] {
        return None;
      }
      var decoded: string := [];
      while true
        invariant decoded + DecodeLossy(pending) == DecodeLossy(old(pending))
        decreases |pending|
      {
        match Validate(pending)
        case Valid =>
          decoded := decoded + DecodeLossy(pending);
          pending := [];
          break;
        case Invalid(validUpTo, errorLen) =>
          PrefixIsValid(pending);
          Grows(decoded, pending);
          if validUpTo > 0 {
            decoded := decoded + ValidUtf8Prefix(pending[..validUpTo]);
          }
          match errorLen
          case Len(invalidLen) =>
            decoded := decoded + [REPLACEMENT];
            pending := pending[validUpTo + invalidLen..];
            if pending == [] {
              break;
            }
          case UnexpectedEnd =>
            decoded := decoded + [REPLACEMENT];
            pending := [];
            break;
      }
      r := if decoded == [] then None else Some(decoded);
    }
  }

  /** `valid_up_to` bounds a valid prefix, so `valid_utf8_prefix` decodes it in full. */
  lemma PrefixIsValid(s: seq<Byte>)
    requires Validate(s).Invalid?
    ensures var v := Validate(s).validUpTo;
            && ValidUtf8Prefix(s[..v]) == DecodeLossy(s[..v])
            && (v == 0 <==> DecodeLossy(s[..v]) == [])
  {
    hide Head, DecodeLossy;
    InvalidFront(s);
    DecodeEmpty();
    DecodeNonEmpty(s[..Validate(s).validUpTo]);
  }

  /** What one iteration of either loop appends to the text decoded so far. */
  lemma Grows(decoded: string, s: seq<Byte>)
    requires Validate(s).Invalid?
    ensures var r := Validate(s);
            var text := decoded + DecodeLossy(s[..r.validUpTo]);
            match r.errorLen
            case UnexpectedEnd =>
              && decoded + Available(s).text == text
              && Available(s).tail == s[r.validUpTo..]
              && decoded + DecodeLossy(s) == text + [REPLACEMENT]
            case Len(n) =>
              var rest := s[r.validUpTo + n..];
              && decoded + Available(s).text == text + [REPLACEMENT] + Available(rest).text
              && Available(s).tail == Available(rest).tail
              && decoded + DecodeLossy(s) == text + [REPLACEMENT] + DecodeLossy(rest)
  {
    hide Head, DecodeLossy, Available, Validate;
    var r := Validate(s);
    match r.errorLen
    case UnexpectedEnd => TruncatedStep(s);
    case Len(n) => ReplaceStep(s);
  }

  lemma DecodeEmpty()
    ensures DecodeLossy([]) == [] && Available([]) == Decoded([], [])
  {
  }

  lemma DecodeNonEmpty(s: seq<Byte>)
    ensures s != [] ==> DecodeLossy(s) != []
  {
    hide Head;
  }

  function Flatten(chunks: seq<seq<Byte>>): seq<Byte> {
    if chunks == [] then [] else chunks[0] + Flatten(chunks[1..])
  }

  /** A run of `push` over a list of chunks, as its contract describes it: the text
      emitted so far and the pending bytes, or overflow. */
  function PushAll(pending: seq<Byte>, chunks: seq<seq<Byte>>): Result<Decoded, StreamDecoderError>
    decreases |chunks|
  {
    if chunks == [] then Ok(Decoded([], pending))
    else if chunks[0] != [] && |pending| + |chunks[0]| > MAX_STREAM_BUFFER_BYTES then Err(BufferOverflow)
    else
      var d := Available(pending + chunks[0]);
      match PushAll(d.tail, chunks[1..])
      case Ok(rest) => Ok(Decoded(d.text + rest.text, rest.tail))
      case Err(e) => Err(e)
  }

  lemma {:induction false} PushAllIsAvailable(pending: seq<Byte>, chunks: seq<seq<Byte>>)
    requires Available(pending) == Decoded([], pending)
    requires PushAll(pending, chunks).Ok?
    ensures PushAll(pending, chunks).value == Available(pending + Flatten(chunks))
    decreases |chunks|
  {
    hide Head, Available;
    if chunks == [] {
      assert pending + Flatten(chunks) == pending;
    } else {
      var s := pending + chunks[0];
      var d := Available(s);
      TailIsProperPrefix(s);
      PushAllIsAvailable(d.tail, chunks[1..]);
      AvailableSplits(s, Flatten(chunks[1..]));
      Assoc(pending, chunks[0], Flatten(chunks[1..]));
    }
  }

  /** Every cut of the bytes that does not overflow decodes to the one-shot result, and
      leaves at most three bytes pending, which some well-formed sequence begins with. */
  lemma ChunkingIsIrrelevant(chunks: seq<seq<Byte>>)
    requires PushAll([], chunks).Ok?
    ensures var d := PushAll([], chunks).value;
            && d.text + DecodeLossy(d.tail) == DecodeLossy(Flatten(chunks))
            && |d.tail| <= 3 && ProperPrefix(d.tail)
  {
    hide Head;
    var s := Flatten(chunks);
    PushAllIsAvailable([], chunks);
    assert [] + s == s;
    TailIsProperPrefix(s);
    DecodeSplits(s, []);
    assert s + [] == s && Available(s).tail + [] == Available(s).tail;
  }

  /** The overflow check never fires on chunks three bytes under the limit. */
  lemma {:induction false} SmallChunksNeverOverflow(pending: seq<Byte>, chunks: seq<seq<Byte>>)
    requires |pending| <= 3
    requires forall i | 0 <= i < |chunks| :: |chunks[i]| + 3 <= MAX_STREAM_BUFFER_BYTES
    ensures PushAll(pending, chunks).Ok?
    decreases |chunks|
  {
    hide Head;
    if chunks != [] {
      SmallChunksNeverOverflow(Available(pending + chunks[0]).tail, chunks[1..]);
    }
  }

  // ---------------------------------------------------------------- text to lines

  const LF: char := '\n'
  const CR: char := '\r'

  /** `trim_end_matches('\r')`: every trailing CR goes, not just one. */
  function TrimCr(s: string): (t: string)
    ensures t <= s && (t == [] || t[|t| - 1] != CR)
    ensures forall i | |t| <= i < |s| :: s[i] == CR
  {
    if s != [] && s[|s| - 1] == CR then TrimCr(s[..|s| - 1]) else s
  }

  /** A line as it is handed over: without LF, and not ending in CR. */
  predicate Bare(line: string) {
    LF !in line && (line == [] || line[|line| - 1] != CR)
  }

  datatype Lines = Lines(lines: seq<string>, rest: string)

  /** The complete lines of `text`, and what follows the last LF. */
  function SplitLines(text: string): (l: Lines)
    ensures LF !in l.rest
    ensures forall i | 0 <= i < |l.lines| :: Bare(l.lines[i])
  {
    var pos := IndexOf(text, LF);
    if pos == |text| then
      assert text == text[..pos];
      Lines([], text)
    else
      var tail := SplitLines(text[pos + 1..]);
      Lines([TrimCr(text[..pos])] + tail.lines, tail.rest)
  }

  /** What `flush` makes of the last, unterminated line. */
  function LastLine(rest: string): seq<string> {
    if Trim(rest) == [] then [] else [Trim(rest)]
  }

  /** The stretch from `i` to `j` is all of `s` but the whitespace around it. */
  ghost predicate Middle(s: string, i: int, j: int) {
    && 0 <= i < j <= |s| && !IsWhitespace(s[i]) && !IsWhitespace(s[j - 1])
    && forall k | 0 <= k < i || j <= k < |s| :: IsWhitespace(s[k])
  }

  /** The one-shot line list of a text. */
  function AllLines(text: string): seq<string> {
    SplitLines(text).lines + LastLine(SplitLines(text).rest)
  }

  class SseLineReader {
    var buffer: string

    ghost predicate Valid()
      reads this
    {
      LF !in buffer
    }

    constructor ()
      ensures Valid() && buffer == []
    {
      buffer := [];
    }

    method PushChunk(text: string) returns (r: Result<seq<string>, StreamDecoderError>)
      requires Valid()
      modifies this
      ensures Valid()
      ensures r.Err? <==> Utf8Len(old(buffer)) + Utf8Len(text) > MAX_STREAM_BUFFER_BYTES
      ensures r.Err? ==> buffer == old(buffer)
      ensures r.Ok? ==> Lines(r.value, buffer) == SplitLines(old(buffer) + text)
      ensures r.Ok? ==> forall i | 0 <= i < |r.value| :: Bare(r.value[i])
    {
      hide SplitLines, TrimCr, Utf8Len;
      if Utf8Len(buffer) + Utf8Len(text) > MAX_STREAM_BUFFER_BYTES {
        return Err(BufferOverflow);
      }
      buffer := buffer + text;
      var lines: seq<string> := [];
      while IndexOf(buffer, LF) < |buffer|
        invariant lines + SplitLines(buffer).lines == SplitLines(old(buffer) + text).lines
        invariant SplitLines(buffer).rest == SplitLines(old(buffer) + text).rest
        decreases |buffer|
      {
        var pos := IndexOf(buffer, LF);
        NextLine(buffer);
        var line := TrimCr(buffer[..pos]);
        Assoc(lines, [line], SplitLines(buffer[pos + 1..]).lines);
        buffer := buffer[pos + 1..];
        lines := lines + [line];
      }
      NextLine(buffer);
      assert lines + [] == lines;
      r := Ok(lines);
    }

    method Flush() returns (r: Option<string>)
      modifies this
      ensures buffer == []
      ensures r == (if LastLine(old(buffer)) == [] then None else Some(LastLine(old(buffer))[0]))
      ensures r.None? <==> forall k | 0 <= k < |old(buffer)| :: IsWhitespace(old(buffer)[k])
      ensures r.Some? ==> exists i, j :: Middle(old(buffer), i, j) && r.value == old(buffer)[i..j]
    {
      var remaining := buffer;
      buffer := [];
      BlankIffAllWhitespace(remaining);
      ghost var i, j := TrimIsMiddle(remaining);
      var trimmed := Trim(remaining);
      assert trimmed != [] ==> Middle(remaining, i, j);
      r := if trimmed == [] then None else Some(trimmed);
    }
  }

  /** The last, unterminated line is handed over without whitespace around it. */
  lemma LastLineIsBare(rest: string)
    requires LF !in rest
    ensures forall i | 0 <= i < |LastLine(rest)| :: Bare(LastLine(rest)[i])
  {
    var i, j := TrimIsMiddle(rest);
    assert forall k | 0 <= k < j - i :: rest[i..j][k] == rest[i + k];
  }

  lemma NextLine(text: string)
    ensures var pos := IndexOf(text, LF);
            SplitLines(text) ==
              if pos == |text| then Lines([], text)
              else Lines([TrimCr(text[..pos])] + SplitLines(text[pos + 1..]).lines, SplitLines(text[pos + 1..]).rest)
  {
    hide TrimCr;
  }

  lemma SplitLinesUnfolds(line: string, tail: string)
    requires LF !in line
    ensures SplitLines(line + [LF] + tail)
         == Lines([TrimCr(line)] + SplitLines(tail).lines, SplitLines(tail).rest)
  {
    hide IndexOf, TrimCr;
    var text := line + [LF] + tail;
    assert text[..|line|] == line;
    IndexOfIsFirst(text, LF, |line|);
    assert text[|line| + 1..] == tail;
  }

  lemma NoLfNoLines(text: string)
    requires LF !in text
    ensures SplitLines(text) == Lines([], text)
  {
  }

  /** What is left after the last LF is no longer than the text. */
  lemma {:induction false} RestSize(text: string)
    ensures Utf8Len(SplitLines(text).rest) <= Utf8Len(text)
    decreases |text|
  {
    hide Utf8Len, IndexOf;
    var pos := IndexOf(text, LF);
    if pos < |text| {
      RestSize(text[pos + 1..]);
      Utf8LenSplits(text[..pos + 1], text[pos + 1..]);
      assert text[..pos + 1] + text[pos + 1..] == text;
    }
  }

  /** Splitting in two steps: the lines of `a`, then those of its rest followed by `b`. */
  lemma {:induction false} SplitLinesSplits(a: string, b: string)
    ensures SplitLines(a + b).lines == SplitLines(a).lines + SplitLines(SplitLines(a).rest + b).lines
    ensures SplitLines(a + b).rest == SplitLines(SplitLines(a).rest + b).rest
    decreases |a|
  {
    hide IndexOf, TrimCr, SplitLines;
    var pos := IndexOf(a, LF);
    if pos < |a| {
      var line, tail := a[..pos], a[pos + 1..];
      assert a == line + [LF] + tail;
      assert a + b == line + [LF] + (tail + b);
      SplitLinesUnfolds(line, tail);
      SplitLinesUnfolds(line, tail + b);
      SplitLinesSplits(tail, b);
      Assoc([TrimCr(line)], SplitLines(tail).lines, SplitLines(SplitLines(tail).rest + b).lines);
    } else {
      assert a == a[..pos];
      NoLfNoLines(a);
    }
  }

  /** The raw lines, each with its LF put back. */
  function Unlines(raw: seq<string>): string {
    if raw == [] then [] else raw[0] + [LF] + Unlines(raw[1..])
  }

  function TrimEach(raw: seq<string>): seq<string> {
    if raw == [] then [] else [TrimCr(raw[0])] + TrimEach(raw[1..])
  }

  /** `SplitLines` inverts line termination: only LF ends a line, and the CRs before it
      are all that is lost. */
  lemma {:induction false} SplitLinesInvertsUnlines(raw: seq<string>, rest: string)
    requires forall i | 0 <= i < |raw| :: LF !in raw[i]
    requires LF !in rest
    ensures SplitLines(Unlines(raw) + rest) == Lines(TrimEach(raw), rest)
  {
    var text := Unlines(raw) + rest;
    if raw == [] {
      assert text == rest;
      assert IndexOf(rest, LF) == |rest|;
    } else {
      var tail := Unlines(raw[1..]) + rest;
      assert text == raw[0] + [LF] + tail;
      SplitLinesUnfolds(raw[0], tail);
      SplitLinesInvertsUnlines(raw[1..], rest);
    }
  }
}
