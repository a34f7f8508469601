/** Project keys: a working directory's path as one readable directory name.  Separators
    become `-`, and every character a file system may object to, and `-` itself, is
    percent-encoded as in section 2.1 of RFC 3986.
 */
module ProjectKey {
  import opened Text
  import opened Utf8
  import opened Wrappers

  // ---------------------------------------------------------------- encoding

  predicate IsControl(c: char) {
    (c as int) < 0x20 || 0x7F <= (c as int) <= 0x9F
  }

  predicate IsSeparator(c: char) { c == '/' || c == '\\' }

  predicate IsKeySafe(c: char) {
    !IsControl(c) && c !in {'/', '\\', ':', '*', '?', '"', '<', '>', '|', '%'}
  }

  predicate IsComponentSafe(c: char) { IsKeySafe(c) && c != '-' }

  function HexDigit(n: int): char
    requires 0 <= n < 16
  {
    "0123456789ABCDEF"[n]
  }

  /** `push_percent_encoded`, for the bytes of one character. */
  function Percent(bytes: seq<Byte>): string {
    if bytes == [] then []
    else ['%', HexDigit(bytes[0] / 16), HexDigit(bytes[0] % 16)] + Percent(bytes[1..])
  }

  function EncodeChar(c: char): string {
    if IsComponentSafe(c) then [c] else Percent(Encode(c))
  }

  function EncodePart(part: string): string {
    if part == [] then [] else EncodeChar(part[0]) + EncodePart(part[1..])
  }

  method EncodeProjectPathComponent(part: string) returns (encoded: string)
    ensures encoded == EncodePart(part)
  {
    hide EncodeChar;
    encoded := [];
    for i := 0 to |part|
      invariant encoded + EncodePart(part[i..]) == EncodePart(part)
    {
      assert part[i..][0] == part[i] && part[i..][1..] == part[i + 1..];
      Assoc(encoded, EncodeChar(part[i]), EncodePart(part[i + 1..]));
      encoded := encoded + EncodeChar(part[i]);
    }
    assert part[|part|..] == [];
  }

  // ---------------------------------------------------------------- paths

  function TrimLeft(s: string): string {
    if s != [] && IsSeparator(s[0]) then TrimLeft(s[1..]) else s
  }

  function TrimRight(s: string): string {
    if s != [] && IsSeparator(s[|s| - 1]) then TrimRight(s[..|s| - 1]) else s
  }

  /** `trim_matches(['/', '\\'])` */
  function Trimmed(path: string): string { TrimRight(TrimLeft(path)) }

  /** `split(['/', '\\'])`: always at least one piece. */
  function Split(s: string): (pieces: seq<string>)
    ensures pieces != []
  {
    if s == [] then [[]]
    else
      var rest := Split(s[1..]);
      if IsSeparator(s[0]) then [[]] + rest else [[s[0]] + rest[0]] + rest[1..]
  }

  /** The drive letter's colon goes: `strip_suffix(':')` of the first piece. */
  function StripColon(s: string): string {
    if s != [] && s[|s| - 1] == ':' then s[..|s| - 1] else s
  }

  function NonEmpty(pieces: seq<string>): (parts: seq<string>)
    ensures forall i | 0 <= i < |parts| :: parts[i] != []
  {
    if pieces == [] then []
    else (if pieces[0] == [] then [] else [pieces[0]]) + NonEmpty(pieces[1..])
  }

  function StripFirst(pieces: seq<string>): (stripped: seq<string>)
    requires pieces != []
    ensures |stripped| == |pieces|
  {
    [StripColon(pieces[0])] + pieces[1..]
  }

  function Components(path: string): (parts: seq<string>)
    ensures forall i | 0 <= i < |parts| :: parts[i] != []
  {
    NonEmpty(StripFirst(Split(Trimmed(path))))
  }

  function EncodeAllParts(parts: seq<string>): seq<string> {
    if parts == [] then [] else [EncodePart(parts[0])] + EncodeAllParts(parts[1..])
  }

  function Key(path: string): string {
    var parts := Components(path);
    if parts == [] then EncodePart(Trimmed(path)) else JoinWith(EncodeAllParts(parts), '-')
  }

  method HumanProjectKey(path: string) returns (key: string)
    ensures key == Key(path)
  {
    hide EncodePart, Split, Trimmed, NonEmpty, EncodeAllParts;
    var trimmed := Trimmed(path);
    var pieces := Split(trimmed);
    ghost var stripped := StripFirst(pieces);
    var parts: seq<string> := [];
    assert stripped[0..] == stripped;
    for index := 0 to |pieces|
      invariant parts + EncodeAllParts(NonEmpty(stripped[index..])) == EncodeAllParts(NonEmpty(stripped))
    {
      var part := if index == 0 then StripColon(pieces[index]) else pieces[index];
      assert stripped[index..] == [part] + stripped[index + 1..];
      EncodeNext(part, stripped[index + 1..]);
      if part != [] {
        var encoded := EncodeProjectPathComponent(part);
        Assoc(parts, [encoded], EncodeAllParts(NonEmpty(stripped[index + 1..])));
        parts := parts + [encoded];
      }
    }
    assert stripped[|pieces|..] == [];
    EncodeNothing();
    assert parts + [] == parts;
    assert parts == EncodeAllParts(Components(path));
    EncodeLength(Components(path));
    if parts == [] {
      key := EncodeProjectPathComponent(trimmed);
    } else {
      key := JoinWith(parts, '-');
    }
  }

  lemma EncodeNothing()
    ensures EncodeAllParts(NonEmpty([])) == []
  {
  }

  lemma EncodeNext(part: string, rest: seq<string>)
    ensures EncodeAllParts(NonEmpty([part] + rest))
         == (if part == [] then [] else [EncodePart(part)]) + EncodeAllParts(NonEmpty(rest))
  {
    hide EncodePart;
    var all := [part] + rest;
    assert all[0] == part && all[1..] == rest;
    if part != [] {
      var parts := [part] + NonEmpty(rest);
      assert NonEmpty(all) == parts && parts[1..] == NonEmpty(rest);
    } else {
      assert NonEmpty(all) == NonEmpty(rest);
    }
  }

  lemma {:induction false} EncodeLength(parts: seq<string>)
    ensures |EncodeAllParts(parts)| == |parts|
  {
    if parts != [] {
      EncodeLength(parts[1..]);
    }
  }

  // ---------------------------------------------------------------- decoding

  function HexValue(c: char): int {
    if '0' <= c <= '9' then c as int - '0' as int
    else if 'A' <= c <= 'F' then c as int - 'A' as int + 10
    else 0
  }

  predicate IsHex(c: char) { '0' <= c <= '9' || 'A' <= c <= 'F' }

  /** The bytes that a key component stands for. */
  function PercentBytes(s: string): seq<Byte> {
    if s == [] then []
    else if s[0] == '%' && |s| >= 3 && IsHex(s[1]) && IsHex(s[2]) then
      [HexValue(s[1]) * 16 + HexValue(s[2])] + PercentBytes(s[3..])
    else Encode(s[0]) + PercentBytes(s[1..])
  }

  function DecodePart(s: string): string { DecodeLossy(PercentBytes(s)) }

  function DecodeAllParts(parts: seq<string>): seq<string> {
    if parts == [] then [] else [DecodePart(parts[0])] + DecodeAllParts(parts[1..])
  }

  function DecodeKey(key: string): seq<string> { DecodeAllParts(SplitOn(key, '-')) }

  lemma {:induction false} PercentInverts(bytes: seq<Byte>, rest: string)
    ensures PercentBytes(Percent(bytes) + rest) == bytes + PercentBytes(rest)
  {
    hide PercentBytes, HexDigit;
    if bytes == [] {
      assert Percent(bytes) + rest == rest;
    } else {
      PercentInverts(bytes[1..], rest);
      var b, tail := bytes[0], Percent(bytes[1..]);
      PercentStep(b, tail + rest);
      Assoc(['%', HexDigit(b / 16), HexDigit(b % 16)], tail, rest);
      Assoc([b], bytes[1..], PercentBytes(rest));
      assert [b] + bytes[1..] == bytes;
    }
  }

  lemma PercentStep(b: Byte, rest: string)
    ensures PercentBytes(['%', HexDigit(b / 16), HexDigit(b % 16)] + rest) == [b] + PercentBytes(rest)
  {
    hide Encode, HexDigit, HexValue, IsHex;
    HexInverts(b / 16);
    HexInverts(b % 16);
    var s := ['%', HexDigit(b / 16), HexDigit(b % 16)] + rest;
    assert s[0] == '%' && s[1] == HexDigit(b / 16) && s[2] == HexDigit(b % 16);
    assert s[3..] == rest;
  }

  lemma HexInverts(n: int)
    requires 0 <= n < 16
    ensures IsHex(HexDigit(n)) && HexValue(HexDigit(n)) == n
  {
  }

  lemma {:induction false} PartBytes(part: string)
    ensures PercentBytes(EncodePart(part)) == EncodeAll(part)
  {
    hide Encode, IsControl;
    if part != [] {
      PartBytes(part[1..]);
      var c, rest := part[0], EncodePart(part[1..]);
      if IsComponentSafe(c) {
        assert ([c] + rest)[0] == c && ([c] + rest)[1..] == rest;
      } else {
        PercentInverts(Encode(c), rest);
      }
    }
  }

  lemma PartInverts(part: string)
    ensures DecodePart(EncodePart(part)) == part
  {
    PartBytes(part);
    DecodeInvertsEncode(part);
  }

  lemma {:induction false} PercentHasNoDash(bytes: seq<Byte>)
    ensures '-' !in Percent(bytes)
  {
    if bytes != [] {
      PercentHasNoDash(bytes[1..]);
      HexInverts(bytes[0] / 16);
      HexInverts(bytes[0] % 16);
    }
  }

  lemma {:induction false} PartHasNoDash(part: string)
    ensures '-' !in EncodePart(part)
  {
    hide Encode, IsControl;
    if part != [] {
      PartHasNoDash(part[1..]);
      PercentHasNoDash(Encode(part[0]));
    }
  }

  lemma {:induction false} PartsInvert(parts: seq<string>)
    ensures DecodeAllParts(EncodeAllParts(parts)) == parts
    ensures forall i | 0 <= i < |EncodeAllParts(parts)| :: '-' !in EncodeAllParts(parts)[i]
  {
    hide EncodePart, DecodePart;
    if parts != [] {
      PartsInvert(parts[1..]);
      PartInverts(parts[0]);
      PartHasNoDash(parts[0]);
    }
  }

  /** Every key made of at least one component decodes back to the components. */
  lemma KeyDecodes(path: string)
    requires Components(path) != []
    ensures DecodeKey(Key(path)) == Components(path)
  {
    hide Components, EncodePart, DecodePart;
    var parts := Components(path);
    PartsInvert(parts);
    EncodeLength(parts);
    SplitInvertsJoin(EncodeAllParts(parts), '-');
  }

  // ---------------------------------------------------------------- when keys collide

  /** The component list a key stands for: of the two paths without components, the empty
      one and a lone colon, the latter counts as the component `:`. */
  function Canonical(path: string): seq<string> {
    if Components(path) != [] then Components(path)
    else if Trimmed(path) == [] then []
    else [Trimmed(path)]
  }

  lemma CanonicalDecodes(path: string)
    ensures Canonical(path) == [] ==> Key(path) == []
    ensures Canonical(path) != [] ==> Key(path) != [] && DecodeKey(Key(path)) == Canonical(path)
  {
    hide Components, Trimmed, DecodePart, EncodePart;
    if Components(path) != [] {
      KeyDecodes(path);
      EmptyKeyDecodes();
      assert Components(path)[0] != [];
    } else {
      var t := Trimmed(path);
      PartHasNoDash(t);
      SplitNone(EncodePart(t), '-');
      PartInverts(t);
      EmptyKeyDecodes();
      assert DecodeAllParts([EncodePart(t)]) == [DecodePart(EncodePart(t))] + DecodeAllParts([]);
    }
  }

  lemma EmptyKeyDecodes()
    ensures DecodeKey([]) == [[]] && EncodePart([]) == []
  {
    assert SplitOn([], '-') == [[]];
    assert DecodeAllParts([[]]) == [DecodePart([])] + DecodeAllParts([]);
  }

  /** Two paths share a key exactly when they have the same canonical components. */
  lemma KeysCollideExactly(p: string, q: string)
    ensures Key(p) == Key(q) <==> Canonical(p) == Canonical(q)
  {
    hide Components, Trimmed, DecodeKey, EncodePart;
    CanonicalDecodes(p);
    CanonicalDecodes(q);
    KeyOfCanonical(p);
    KeyOfCanonical(q);
  }

  lemma KeyOfCanonical(path: string)
    ensures Key(path) == JoinWith(EncodeAllParts(Canonical(path)), '-')
  {
    hide Components, Trimmed, EncodePart;
    EmptyKeyDecodes();
    var t := Trimmed(path);
    assert EncodeAllParts([t]) == [EncodePart(t)] + EncodeAllParts([]);
  }

  /** The confusion that happens: a lone colon has no component, and shares its key with a
      path whose only component is a colon. */
  lemma ColonCollides()
    ensures Components(":") == [] && Components(":/:") == [":"] && Key(":") == Key(":/:")
  {
    hide EncodePart;
    assert TrimLeft(":") == TrimRight(":") == ":";
    SplitColon();
    assert [""][1..] == [] && NonEmpty([""]) == [];
    assert StripFirst([":"]) == [""];
    assert TrimLeft(":/:") == TrimRight(":/:") == ":/:";
    assert ["", ":"][1..] == [":"] && [":"][1..] == [];
    assert NonEmpty([":"]) == [":"];
    assert StripFirst([":", ":"]) == ["", ":"];
    KeysCollideExactly(":", ":/:");
  }

  lemma SplitColon()
    ensures Split(":") == [":"] && Split(":/:") == [":", ":"]
  {
    assert ":"[1..] == "" && "/:"[1..] == ":" && ":/:"[1..] == "/:";
    assert [':'] + "" == ":" && [":"] + [] == [":"];
    assert Split("") == [""] && [""][1..] == [];
    assert Split(":") == [":"];
    assert Split("/:") == ["", ":"] && ["", ":"][1..] == [":"];
  }

  lemma TrimLeftEnds(s: string)
    ensures TrimLeft(s) != [] ==> !IsSeparator(TrimLeft(s)[0])
  {
  }

  lemma {:induction false} TrimRightEnds(s: string)
    requires s != [] && !IsSeparator(s[0])
    ensures var t := TrimRight(s); t != [] && t[0] == s[0] && !IsSeparator(t[|t| - 1])
  {
    if IsSeparator(s[|s| - 1]) {
      TrimRightEnds(s[..|s| - 1]);
    }
  }

  lemma {:induction false} SplitEnds(s: string)
    ensures |Split(s)| == 1 ==> Split(s) == [s]
    ensures s != [] && !IsSeparator(s[|s| - 1]) ==> Split(s)[|Split(s)| - 1] != []
  {
    if s != [] {
      SplitEnds(s[1..]);
      assert s[1..] != [] ==> s[1..][|s[1..]| - 1] == s[|s| - 1];
      assert [s[0]] + s[1..] == s;
    }
  }

  lemma {:induction false} NothingLeft(pieces: seq<string>, i: nat)
    requires NonEmpty(pieces) == [] && i < |pieces|
    ensures pieces[i] == []
  {
    if i > 0 {
      NothingLeft(pieces[1..], i - 1);
    }
  }

  /** A path without components is empty or a colon, but for separators around it. */
  lemma NoComponents(path: string)
    requires Components(path) == [] && Trimmed(path) != []
    ensures Trimmed(path) == ":"
  {
    hide TrimLeft, TrimRight, Split, NonEmpty;
    var t := Trimmed(path);
    var pieces := Split(t);
    TrimLeftEnds(path);
    if TrimLeft(path) != [] { TrimRightEnds(TrimLeft(path)); }
    TrimmedNothing();
    SplitEnds(t);
    var n := |pieces| - 1;
    NothingLeft(StripFirst(pieces), n);
    assert n == 0;
    assert StripColon(t) == [] && t == [t[0]];
  }

  lemma TrimmedNothing()
    ensures TrimRight([]) == []
  {
  }

  /** Keys confuse different component lists exactly there: one path is a colon between
      separators, and the other's only component is a colon. */
  lemma KeysConfuseOnlyColon(p: string, q: string)
    ensures Key(p) == Key(q) && Components(p) != Components(q)
       <==> || (Trimmed(p) == ":" && Components(p) == [] && Components(q) == [":"])
            || (Trimmed(q) == ":" && Components(q) == [] && Components(p) == [":"])
  {
    hide Components, Trimmed, Key;
    KeysCollideExactly(p, q);
    if Components(p) == [] && Trimmed(p) != [] { NoComponents(p); }
    if Components(q) == [] && Trimmed(q) != [] { NoComponents(q); }
  }

  // ---------------------------------------------------------------- what keys look like

  /** Characters that a key may not have: control characters, and those with a meaning to a
      file system or a shell. */
  predicate Unwelcome(c: char) {
    (c as int) < 32 || 127 <= (c as int) < 160 || c in "/\\:*?\"<>|"
  }

  lemma {:induction false} PercentIsSafe(bytes: seq<Byte>, c: char)
    requires c in Percent(bytes)
    ensures c == '%' || IsHex(c)
  {
    if bytes != [] && c !in Percent(bytes[1..]) {
      HexInverts(bytes[0] / 16);
      HexInverts(bytes[0] % 16);
    } else if bytes != [] {
      PercentIsSafe(bytes[1..], c);
    }
  }

  /** Every other character stays as it is, but for the percent sign and the dash. */
  lemma EncodeCharExactly(c: char)
    ensures EncodeChar(c) == [c] <==> !Unwelcome(c) && c != '%' && c != '-'
    ensures forall x | x in EncodeChar(c) :: !Unwelcome(x)
  {
    if !IsComponentSafe(c) {
      forall x | x in Percent(Encode(c))
        ensures x == '%' || IsHex(x)
      {
        PercentIsSafe(Encode(c), x);
      }
      assert Percent(Encode(c))[0] == '%' && |Percent(Encode(c))| > 1;
    }
  }

  lemma {:induction false} PartIsSafe(part: string, x: char)
    requires x in EncodePart(part)
    ensures !Unwelcome(x)
  {
    hide EncodeChar, Unwelcome;
    EncodeCharExactly(part[0]);
    if x !in EncodeChar(part[0]) {
      PartIsSafe(part[1..], x);
    }
  }

  lemma {:induction false} EncodedAt(parts: seq<string>, i: nat)
    requires i < |EncodeAllParts(parts)|
    ensures i < |parts| && EncodeAllParts(parts)[i] == EncodePart(parts[i])
  {
    hide EncodePart;
    if i > 0 {
      EncodedAt(parts[1..], i - 1);
    }
  }

  /** No key has an unwelcome character. */
  lemma KeyIsSafe(path: string, x: char)
    requires x in Key(path)
    ensures !Unwelcome(x)
  {
    hide EncodePart, Trimmed, Unwelcome, Components;
    var parts := Components(path);
    if parts == [] {
      PartIsSafe(Trimmed(path), x);
    } else {
      CharsOfJoined(EncodeAllParts(parts), '-', x);
      if x == '-' {
        DashIsSafe();
      } else {
        var i :| 0 <= i < |EncodeAllParts(parts)| && x in EncodeAllParts(parts)[i];
        EncodedAt(parts, i);
        PartIsSafe(parts[i], x);
      }
    }
  }

  lemma DashIsSafe()
    ensures !Unwelcome('-')
  {
  }

  // ---------------------------------------------------------------- the components of a path

  predicate AllSeparators(s: string) {
    forall i | 0 <= i < |s| :: s[i] == '/' || s[i] == '\\'
  }

  predicate IsName(s: string) {
    s != [] && '/' !in s && '\\' !in s
  }

  lemma {:induction false} TrimLeftDrops(lead: string, s: string)
    requires AllSeparators(lead) && s != [] && s[0] != '/' && s[0] != '\\'
    ensures TrimLeft(lead + s) == s
  {
    if lead == [] {
      assert lead + s == s;
    } else {
      assert (lead + s)[0] == lead[0] && (lead + s)[1..] == lead[1..] + s;
      TrimLeftDrops(lead[1..], s);
    }
  }

  lemma {:induction false} TrimRightDrops(s: string, trail: string)
    requires AllSeparators(trail) && s != [] && s[|s| - 1] != '/' && s[|s| - 1] != '\\'
    ensures TrimRight(s + trail) == s
  {
    if trail == [] {
      assert s + trail == s;
    } else {
      var n := |trail| - 1;
      assert (s + trail)[|s| + n] == trail[n] && (s + trail)[..|s| + n] == s + trail[..n];
      TrimRightDrops(s, trail[..n]);
    }
  }

  lemma {:induction false} SplitName(s: string)
    requires '/' !in s && '\\' !in s
    ensures Split(s) == [s]
  {
    if s != [] {
      SplitName(s[1..]);
      assert [s[0]] + s[1..] == s;
    }
  }

  lemma {:induction false} SplitAt(s: string, sep: char, rest: string)
    requires '/' !in s && '\\' !in s && (sep == '/' || sep == '\\')
    ensures Split(s + ([sep] + rest)) == [s] + Split(rest)
  {
    var all := s + ([sep] + rest);
    if s == [] {
      assert all[0] == sep && all[1..] == rest;
    } else {
      assert all[0] == s[0] && all[1..] == s[1..] + ([sep] + rest);
      SplitAt(s[1..], sep, rest);
      assert [s[0]] + s[1..] == s;
    }
  }

  lemma {:induction false} SplitInvertsPath(names: seq<string>, sep: char)
    requires names != [] && (sep == '/' || sep == '\\') && forall i | 0 <= i < |names| :: IsName(names[i])
    ensures Split(JoinWith(names, sep)) == names
  {
    hide Split;
    assert IsName(names[0]);
    if |names| == 1 {
      SplitName(names[0]);
    } else {
      SplitInvertsPath(names[1..], sep);
      SplitAt(names[0], sep, JoinWith(names[1..], sep));
    }
  }

  lemma {:induction false} PathEnds(names: seq<string>, sep: char)
    requires names != [] && forall i | 0 <= i < |names| :: IsName(names[i])
    ensures var path := JoinWith(names, sep);
            && path != [] && path[0] != '/' && path[0] != '\\'
            && path[|path| - 1] != '/' && path[|path| - 1] != '\\'
  {
    assert IsName(names[0]);
    if |names| > 1 {
      PathEnds(names[1..], sep);
      var rest := JoinWith(names[1..], sep);
      var path := names[0] + ([sep] + rest);
      assert path[|path| - 1] == rest[|rest| - 1];
    }
  }

  lemma {:induction false} NonEmptyKeeps(parts: seq<string>)
    requires forall i | 0 <= i < |parts| :: parts[i] != []
    ensures NonEmpty(parts) == parts
  {
    if parts != [] {
      NonEmptyKeeps(parts[1..]);
    }
  }

  /** The components of a path are its names, between separators of either kind, whatever
      separators surround it; only a drive's colon is dropped from the first. */
  lemma ComponentsAreNames(lead: string, names: seq<string>, sep: char, trail: string)
    requires AllSeparators(lead) && AllSeparators(trail) && (sep == '/' || sep == '\\')
    requires names != [] && (forall i | 0 <= i < |names| :: IsName(names[i])) && names[0] != ":"
    ensures var first := names[0];
            Components(lead + JoinWith(names, sep) + trail)
            == [if first != [] && first[|first| - 1] == ':' then first[..|first| - 1] else first] + names[1..]
  {
    hide TrimLeft, TrimRight, Split, NonEmpty, JoinWith;
    var path := JoinWith(names, sep);
    PathEnds(names, sep);
    Assoc(lead, path, trail);
    assert (path + trail)[0] == path[0];
    TrimLeftDrops(lead, path + trail);
    TrimRightDrops(path, trail);
    SplitInvertsPath(names, sep);
    assert IsName(names[0]);
    NonEmptyKeeps(StripFirst(names));
  }
}
