/** UTF-8 as section 3 of RFC 3629 defines it, and the validation that the stream
    decoder relies on (`std::str::from_utf8`), defined from the byte ranges of
    section 4 of RFC 3629.

    `Encode` is the reference: a byte sequence is well formed exactly when it is the
    encoding of some scalar value.  `Head` classifies the front of a byte sequence by
    ranges only; the lemmas below tie each of its verdicts to `Encode`.
 */
module Utf8 {
  import opened Wrappers


  type Byte = b: int | 0 <= b < 256

  /** U+FFFD, pushed in place of every ill-formed subsequence. */
  const REPLACEMENT: char := '\U{FFFD}'

  // ---------------------------------------------------------------- encoding

  function Encode(c: char): (s: seq<Byte>)
    ensures 1 <= |s| <= 4
  {
    var v := c as int;
    if v < 0x80 then [v]
    else if v < 0x800 then [0xC0 + v / 64, 0x80 + v % 64]
    else if v < 0x10000 then [0xE0 + v / 64 / 64, 0x80 + v / 64 % 64, 0x80 + v % 64]
    else [0xF0 + v / 64 / 64 / 64, 0x80 + v / 64 / 64 % 64, 0x80 + v / 64 % 64, 0x80 + v % 64]
  }

  function EncodeAll(text: string): seq<Byte> {
    if text == [] then [] else Encode(text[0]) + EncodeAll(text[1..])
  }

  /** The number of bytes `text` occupies in a Rust `String`. */
  function Utf8Len(text: string): nat {
    |EncodeAll(text)|
  }

  ghost predicate WellFormed(s: seq<Byte>) {
    exists c: char :: Encode(c) == s
  }

  /** `s` can still become well formed if more bytes arrive. */
  ghost predicate ProperPrefix(s: seq<Byte>) {
    exists c: char :: s < Encode(c)
  }

  // ---------------------------------------------------------------- validation

  /** What stands at the front of a non-empty byte sequence: a scalar value of `len`
      bytes, an ill-formed subsequence of `len` bytes, or the truncated beginning of a
      multi-byte sequence that runs to the end of the input. */
  datatype Front = Scalar(c: char, len: nat) | Bad(len: nat) | Truncated {
    /** The character that a decided front contributes to the decoded text. */
    function Glyph(): char
      requires !Truncated?
    {
      if Scalar? then c else REPLACEMENT
    }
  }

  predicate Continuation(b: Byte) { 0x80 <= b <= 0xBF }

  /** The second bytes that may follow the lead byte of a 3- or 4-byte sequence. */
  predicate SecondByteOk(lead: Byte, b: Byte) {
    if lead == 0xE0 then 0xA0 <= b <= 0xBF
    else if lead == 0xED then 0x80 <= b <= 0x9F
    else if lead == 0xF0 then 0x90 <= b <= 0xBF
    else if lead == 0xF4 then 0x80 <= b <= 0x8F
    else Continuation(b)
  }

  /** Appends the six payload bits of a continuation byte. */
  function Join(high: int, b: int): int {
    high * 64 + (b - 0x80)
  }

  function Width(lead: Byte): nat {
    if lead < 0x80 then 1
    else if 0xC2 <= lead <= 0xDF then 2
    else if 0xE0 <= lead <= 0xEF then 3
    else if 0xF0 <= lead <= 0xF4 then 4
    else 0
  }

  function Head(s: seq<Byte>): (f: Front)
    requires s != []
    ensures f.Scalar? ==> 1 <= f.len <= 4 && f.len <= |s|
    ensures f.Bad? ==> 1 <= f.len <= 3 && f.len <= |s|
    ensures f.Truncated? ==> |s| <= 3
  {
    var w := Width(s[0]);
    if w == 0 then Bad(1)
    else if w == 1 then Scalar(s[0] as char, 1)
    else if |s| == 1 then Truncated
    else if !(if w == 2 then Continuation(s[1]) else SecondByteOk(s[0], s[1])) then Bad(1)
    else if w == 2 then Scalar(Join(s[0] - 0xC0, s[1]) as char, 2)
    else if |s| == 2 then Truncated
    else if !Continuation(s[2]) then Bad(2)
    else if w == 3 then Scalar(Join(Join(s[0] - 0xE0, s[1]), s[2]) as char, 3)
    else if |s| == 3 then Truncated
    else if !Continuation(s[3]) then Bad(3)
    else Scalar(Join(Join(Join(s[0] - 0xF0, s[1]), s[2]), s[3]) as char, 4)
  }

  /** Outcome of `std::str::from_utf8`: `valid_up_to` and `error_len` of its error. */
  datatype Validation = Valid | Invalid(validUpTo: nat, errorLen: ErrorLen)
  datatype ErrorLen = UnexpectedEnd | Len(n: nat)

  function Validate(s: seq<Byte>): (r: Validation)
    ensures r.Invalid? ==> r.validUpTo < |s|
    ensures r.Invalid? && r.errorLen.Len? ==> 1 <= r.errorLen.n && r.validUpTo + r.errorLen.n <= |s|
  {
    if s == [] then Valid
    else
      match Head(s)
      case Scalar(c, n) =>
        (match Validate(s[n..])
         case Valid => Valid
         case Invalid(v, e) => Invalid(v + n, e))
      case Bad(n) => Invalid(0, Len(n))
      case Truncated => Invalid(0, UnexpectedEnd)
  }

  /** The one-shot lossy decode: one U+FFFD per ill-formed subsequence, and one for a
      truncated tail. */
  function DecodeLossy(s: seq<Byte>): string {
    if s == [] then []
    else
      var f := Head(s);
      if f.Truncated? then [REPLACEMENT] else [f.Glyph()] + DecodeLossy(s[f.len..])
  }

  // ---------------------------------------------------------------- Head against Encode

  lemma JoinSplits(high: int, b: int)
    requires 0x80 <= b <= 0xBF
    ensures Join(high, b) / 64 == high && 0x80 + Join(high, b) % 64 == b
  {
  }

  /** A scalar is reported only where its own encoding stands. */
  lemma ScalarIsEncoded(s: seq<Byte>)
    requires s != [] && Head(s).Scalar?
    ensures Encode(Head(s).c) == s[..Head(s).len]
  {
    match Head(s).len
    case 1 =>
    case 2 => JoinSplits(s[0] - 0xC0, s[1]);
    case 3 =>
      JoinSplits(s[0] - 0xE0, s[1]);
      JoinSplits(Join(s[0] - 0xE0, s[1]), s[2]);
    case _ =>
      JoinSplits(s[0] - 0xF0, s[1]);
      JoinSplits(Join(s[0] - 0xF0, s[1]), s[2]);
      JoinSplits(Join(Join(s[0] - 0xF0, s[1]), s[2]), s[3]);
  }

  /** Where an encoding stands, it is reported, whatever follows. */
  lemma EncodedIsScalar(c: char, rest: seq<Byte>)
    ensures Head(Encode(c) + rest) == Scalar(c, |Encode(c)|)
  {
    var e := Encode(c);
    var s := e + rest;
    assert s[..|e|] == e;
  }

  /** The bytes that complete a truncated sequence with the least payload. */
  function Completion(s: seq<Byte>): (t: seq<Byte>)
    requires s != [] && Head(s).Truncated?
    ensures t != []
    ensures Head(s + t).Scalar? && Head(s + t).len == |s| + |t|
  {
    var second := if s[0] == 0xE0 then 0xA0 else if s[0] == 0xF0 then 0x90 else 0x80;
    var w := Width(s[0]);
    if |s| == 1 then
      (if w == 2 then [second] else if w == 3 then [second, 0x80] else [second, 0x80, 0x80])
    else if |s| == 2 then
      (if w == 3 then [0x80] else [0x80, 0x80])
    else [0x80]
  }

  /** A sequence is reported as truncated exactly when more bytes could complete it. */
  lemma TruncatedIffProperPrefix(s: seq<Byte>)
    requires s != []
    ensures Head(s).Truncated? <==> ProperPrefix(s)
  {
    if Head(s).Truncated? {
      var whole := s + Completion(s);
      ScalarIsEncoded(whole);
      assert s < Encode(Head(whole).c);
    }
    if ProperPrefix(s) {
      var c: char :| s < Encode(c);
      var e := Encode(c);
      EncodedIsScalar(c, []);
      assert e + [] == e && s == e[..|s|];
    }
  }

  /** Definition D93b of the Unicode Standard (section 3.9): the longest prefix of an
      ill-formed `s` that could have started a well-formed sequence, or a single byte. */
  ghost predicate MaximalSubpart(s: seq<Byte>, n: nat) {
    && 1 <= n <= |s|
    && (n == 1 || ProperPrefix(s[..n]))
    && forall m | n < m <= |s| :: !ProperPrefix(s[..m])
  }

  /** Every sequence reported as bad is ill formed at its front and incapable of
      completion, and the reported length is that of its maximal subpart. */
  lemma BadIsMaximalSubpart(s: seq<Byte>)
    requires s != [] && Head(s).Bad?
    ensures MaximalSubpart(s, Head(s).len)
    ensures forall c: char :: !(Encode(c) <= s)
  {
    var n := Head(s).len;
    assert s[..|s|] == s;
    if n > 1 { TruncatedIffProperPrefix(s[..n]); }
    forall m | n < m <= |s|
      ensures !ProperPrefix(s[..m])
    {
      TruncatedIffProperPrefix(s[..m]);
      if n == 1 && Width(s[0]) != 0 { assert s[..m][1] == s[1]; }
    }
    forall c: char
      ensures !(Encode(c) <= s)
    {
      if Encode(c) <= s { EncodedPrefixIsScalar(c, s); }
    }
  }

  lemma EncodedPrefixIsScalar(c: char, s: seq<Byte>)
    requires Encode(c) <= s
    ensures s != [] && Head(s).Scalar?
  {
    hide Head;
    EncodedIsScalar(c, s[|Encode(c)|..]);
    assert Encode(c) + s[|Encode(c)|..] == s;
  }

  /** A decision taken on a prefix never changes when more bytes arrive. */
  lemma HeadIsStable(s: seq<Byte>, more: seq<Byte>)
    requires s != [] && !Head(s).Truncated?
    ensures Head(s + more) == Head(s)
  {
  }

  // ---------------------------------------------------------------- incremental decoding

  /** Everything that is decided about `s`, and the undecided tail. */
  datatype Decoded = Decoded(text: string, tail: seq<Byte>)

  function Available(s: seq<Byte>): (d: Decoded)
    ensures |d.tail| <= 3
  {
    if s == [] then Decoded([], [])
    else
      var f := Head(s);
      if f.Truncated? then Decoded([], s)
      else
        var d := Available(s[f.len..]);
        Decoded([f.Glyph()] + d.text, d.tail)
  }

  /** An undecided tail is a proper prefix of a well-formed sequence. */
  lemma {:induction false} TailIsProperPrefix(s: seq<Byte>)
    ensures ProperPrefix(Available(s).tail)
    ensures Available(Available(s).tail) == Decoded([], Available(s).tail)
    decreases |s|
  {
    if s == [] {
      assert [] < Encode('a');
    } else {
      TruncatedIffProperPrefix(s);
      if !Head(s).Truncated? { TailIsProperPrefix(s[Head(s).len..]); }
    }
  }

  lemma AvailableUnfolds(s: seq<Byte>)
    requires s != [] && !Head(s).Truncated?
    ensures var f := Head(s);
            var d := Available(s[f.len..]);
            && Available(s) == Decoded([f.Glyph()] + d.text, d.tail)
            && DecodeLossy(s) == [f.Glyph()] + DecodeLossy(s[f.len..])
  {
  }

  lemma NothingDecided(s: seq<Byte>)
    requires s == [] || Head(s).Truncated?
    ensures Available(s) == Decoded([], s)
  {
    hide Head;
  }

  lemma Prepend(a: seq<Byte>, b: seq<Byte>)
    ensures [] + Available(a + b).text == Available(a + b).text
    ensures [] + DecodeLossy(a + b) == DecodeLossy(a + b)
  {
  }

  /** Decoding in two steps: the decided text of `a`, then its tail followed by `b`. */
  lemma {:induction false} AvailableSplits(a: seq<Byte>, b: seq<Byte>)
    ensures Available(a + b).text == Available(a).text + Available(Available(a).tail + b).text
    ensures Available(a + b).tail == Available(Available(a).tail + b).tail
    decreases |a|
  {
    hide Head, Available, DecodeLossy;
    if a == [] || Head(a).Truncated? {
      NothingDecided(a);
      Prepend(a, b);
    } else {
      var n := Head(a).len;
      HeadIsStable(a, b);
      assert (a + b)[n..] == a[n..] + b;
      AvailableUnfolds(a);
      AvailableUnfolds(a + b);
      AvailableSplits(a[n..], b);
      Assoc([Head(a).Glyph()], Available(a[n..]).text, Available(Available(a[n..]).tail + b).text);
    }
  }

  lemma {:induction false} DecodeSplits(a: seq<Byte>, b: seq<Byte>)
    ensures DecodeLossy(a + b) == Available(a).text + DecodeLossy(Available(a).tail + b)
    decreases |a|
  {
    hide Head, Available, DecodeLossy;
    if a == [] || Head(a).Truncated? {
      NothingDecided(a);
      Prepend(a, b);
    } else {
      var n := Head(a).len;
      HeadIsStable(a, b);
      assert (a + b)[n..] == a[n..] + b;
      AvailableUnfolds(a);
      AvailableUnfolds(a + b);
      DecodeSplits(a[n..], b);
      Assoc([Head(a).Glyph()], Available(a[n..]).text, DecodeLossy(Available(a[n..]).tail + b));
    }
  }

  /** The part of `s` up to `valid_up_to` is valid, and what `error_len` describes is the
      front of the rest. */
  lemma {:induction false} InvalidFront(s: seq<Byte>)
    requires Validate(s).Invalid?
    ensures var r := Validate(s);
            && Validate(s[..r.validUpTo]).Valid?
            && Head(s[r.validUpTo..]) == if r.errorLen.Len? then Bad(r.errorLen.n) else Truncated
    decreases |s|
  {
    hide Head;
    if Head(s).Scalar? {
      var n, v := Head(s).len, Validate(s).validUpTo;
      InvalidFront(s[n..]);
      assert s[n..][v - n..] == s[v..];
      assert s[..v][n..] == s[n..][..v - n];
      ScalarIsEncoded(s);
      EncodedIsScalar(Head(s).c, s[n..v]);
      assert Encode(Head(s).c) + s[n..v] == s[..v];
    }
  }

  /** Of valid input nothing is left undecided. */
  lemma {:induction false} ValidIsDecided(s: seq<Byte>)
    requires Validate(s).Valid?
    ensures Available(s) == Decoded(DecodeLossy(s), [])
    decreases |s|
  {
    if s != [] {
      ValidIsDecided(s[Head(s).len..]);
    }
  }

  lemma AfterValid(a: seq<Byte>, b: seq<Byte>)
    requires Validate(a).Valid?
    ensures Available(a + b).text == DecodeLossy(a) + Available(b).text
    ensures Available(a + b).tail == Available(b).tail
    ensures DecodeLossy(a + b) == DecodeLossy(a) + DecodeLossy(b)
  {
    hide Head;
    ValidIsDecided(a);
    AvailableSplits(a, b);
    DecodeSplits(a, b);
    assert [] + b == b;
  }

  /** One iteration of the decoder's loop on ill-formed input: the valid prefix, one
      replacement character, and the rest. */
  lemma ReplaceStep(s: seq<Byte>)
    requires Validate(s).Invalid? && Validate(s).errorLen.Len?
    ensures var v := Validate(s).validUpTo;
            var rest := s[v + Validate(s).errorLen.n..];
            var front := DecodeLossy(s[..v]) + [REPLACEMENT];
            && Available(s).text == front + Available(rest).text
            && Available(s).tail == Available(rest).tail
            && DecodeLossy(s) == front + DecodeLossy(rest)
  {
    hide Head, Validate, Available, DecodeLossy;
    var v, n := Validate(s).validUpTo, Validate(s).errorLen.n;
    var bad := s[v..];
    InvalidFront(s);
    assert s == s[..v] + bad;
    AfterValid(s[..v], bad);
    AvailableUnfolds(bad);
    assert bad[n..] == s[v + n..];
    Assoc(DecodeLossy(s[..v]), [REPLACEMENT], Available(bad[n..]).text);
    Assoc(DecodeLossy(s[..v]), [REPLACEMENT], DecodeLossy(bad[n..]));
  }

  /** The last iteration on input that ends in the middle of a sequence. */
  lemma TruncatedStep(s: seq<Byte>)
    requires Validate(s).Invalid? && Validate(s).errorLen.UnexpectedEnd?
    ensures var v := Validate(s).validUpTo;
            && Available(s).text == DecodeLossy(s[..v])
            && Available(s).tail == s[v..]
            && DecodeLossy(s) == DecodeLossy(s[..v]) + [REPLACEMENT]
  {
    hide Head, Validate;
    var v := Validate(s).validUpTo;
    InvalidFront(s);
    assert s == s[..v] + s[v..];
    AfterValid(s[..v], s[v..]);
  }

  // ---------------------------------------------------------------- round trip

  lemma {:induction false} EncodeAllSplits(a: string, b: string)
    ensures EncodeAll(a + b) == EncodeAll(a) + EncodeAll(b)
  {
    hide Encode;
    if a == [] {
      assert a + b == b;
    } else {
      EncodeAllSplits(a[1..], b);
      assert (a + b)[0] == a[0] && (a + b)[1..] == a[1..] + b;
      Assoc(Encode(a[0]), EncodeAll(a[1..]), EncodeAll(b));
    }
  }

  /** Replacement characters can swell the text, to at most three times the bytes. */
  lemma {:induction false} LossySize(s: seq<Byte>)
    ensures Utf8Len(DecodeLossy(s)) <= 3 * |s|
    ensures Utf8Len(Available(s).text) <= 3 * |s|
    ensures |Available(s).tail| <= |s|
    decreases |s|
  {
    hide Head, Encode;
    if s != [] && !Head(s).Truncated? {
      AvailableUnfolds(s);
      LossySize(s[Head(s).len..]);
      GlyphSize(s);
    } else if s != [] {
      ReplacementSize();
    }
  }

  lemma GlyphSize(s: seq<Byte>)
    requires s != [] && !Head(s).Truncated?
    ensures |Encode(Head(s).Glyph())| <= 3 * Head(s).len
  {
    if Head(s).Scalar? {
      hide Head, Encode;
      ScalarIsEncoded(s);
    }
  }

  lemma ReplacementSize()
    ensures |Encode(REPLACEMENT)| == Utf8Len([REPLACEMENT]) == 3
  {
    assert [REPLACEMENT][1..] == [];
    assert EncodeAll([REPLACEMENT]) == Encode(REPLACEMENT) + EncodeAll([]);
  }

  lemma Utf8LenSplits(a: string, b: string)
    ensures Utf8Len(a + b) == Utf8Len(a) + Utf8Len(b)
  {
    hide EncodeAll;
    EncodeAllSplits(a, b);
  }

  /** Decoding inverts encoding, and leaves nothing undecided. */
  lemma {:induction false} DecodeInvertsEncode(text: string)
    ensures DecodeLossy(EncodeAll(text)) == text
    ensures Available(EncodeAll(text)) == Decoded(text, [])
  {
    hide Encode, Head;
    if text != [] {
      var rest := EncodeAll(text[1..]);
      EncodedIsScalar(text[0], rest);
      assert EncodeAll(text)[|Encode(text[0])|..] == rest;
      DecodeInvertsEncode(text[1..]);
    }
  }
}
