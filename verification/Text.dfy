/** The pieces of Rust's string library that the modelled code relies on. */
module Text {

  /** `char::is_whitespace`: the White_Space property of the Unicode character database. */
  predicate IsWhitespace(c: char) {
    var v := c as int;
    || 0x09 <= v <= 0x0D || v == 0x20 || v == 0x85 || v == 0xA0 || v == 0x1680
    || 0x2000 <= v <= 0x200A || v == 0x2028 || v == 0x2029 || v == 0x202F || v == 0x205F || v == 0x3000
  }

  function TrimStart(s: string): string {
    if s != [] && IsWhitespace(s[0]) then TrimStart(s[1..]) else s
  }

  function TrimEnd(s: string): string {
    if s != [] && IsWhitespace(s[|s| - 1]) then TrimEnd(s[..|s| - 1]) else s
  }

  /** `str::trim` */
  function Trim(s: string): string {
    TrimEnd(TrimStart(s))
  }

  /** Nothing but whitespace: `s.trim().is_empty()`. */
  predicate IsBlank(s: string) {
    Trim(s) == []
  }

  lemma {:induction false} TrimStartKeeps(s: string, i: nat)
    requires i < |s| && !IsWhitespace(s[i])
    ensures s[i] in TrimStart(s)
  {
    if IsWhitespace(s[0]) {
      TrimStartKeeps(s[1..], i - 1);
    }
  }

  lemma {:induction false} TrimEndKeeps(s: string, i: nat)
    requires i < |s| && !IsWhitespace(s[i])
    ensures TrimEnd(s) != []
  {
    if IsWhitespace(s[|s| - 1]) {
      TrimEndKeeps(s[..|s| - 1], i);
    }
  }

  /** A string is blank exactly when all of its characters are whitespace. */
  lemma {:induction false} BlankIffAllWhitespace(s: string)
    ensures IsBlank(s) <==> forall i | 0 <= i < |s| :: IsWhitespace(s[i])
  {
    if i: nat :| i < |s| && !IsWhitespace(s[i]) {
      TrimStartKeeps(s, i);
      var j: nat :| j < |TrimStart(s)| && TrimStart(s)[j] == s[i];
      TrimEndKeeps(TrimStart(s), j);
    } else {
      AllWhitespaceTrims(s);
    }
  }

  lemma {:induction false} AllWhitespaceTrims(s: string)
    requires forall i | 0 <= i < |s| :: IsWhitespace(s[i])
    ensures TrimStart(s) == []
  {
    if s != [] {
      AllWhitespaceTrims(s[1..]);
    }
  }

  /** Trimming keeps the stretch between the first and the last character that is no
      whitespace. */
  lemma TrimIsMiddle(s: string) returns (i: nat, j: nat)
    ensures i <= j <= |s| && Trim(s) == s[i..j]
    ensures forall k | 0 <= k < i || j <= k < |s| :: IsWhitespace(s[k])
    ensures i < j ==> !IsWhitespace(s[i]) && !IsWhitespace(s[j - 1])
  {
    hide IsWhitespace;
    i := TrimStartIsSuffix(s);
    var t := TrimStart(s);
    j := TrimEndIsPrefix(t);
    assert s[i..][..j] == s[i..i + j];
    assert forall k | 0 <= k < |t| :: t[k] == s[i + k];
    assert forall k | i + j <= k < |s| :: s[k] == t[k - i];
    j := i + j;
  }

  lemma {:induction false} TrimStartIsSuffix(s: string) returns (i: nat)
    ensures i <= |s| && TrimStart(s) == s[i..]
    ensures forall k | 0 <= k < i :: IsWhitespace(s[k])
    ensures i < |s| ==> !IsWhitespace(s[i])
  {
    hide IsWhitespace;
    i := 0;
    if s != [] && IsWhitespace(s[0]) {
      var n := TrimStartIsSuffix(s[1..]);
      assert s[1..][n..] == s[n + 1..];
      assert forall k | 1 <= k < n + 1 :: s[k] == s[1..][k - 1];
      i := n + 1;
    }
  }

  lemma {:induction false} TrimEndIsPrefix(s: string) returns (j: nat)
    ensures j <= |s| && TrimEnd(s) == s[..j]
    ensures forall k | j <= k < |s| :: IsWhitespace(s[k])
    ensures j > 0 ==> !IsWhitespace(s[j - 1])
  {
    hide IsWhitespace;
    j := |s|;
    if s != [] && IsWhitespace(s[|s| - 1]) {
      var init := s[..|s| - 1];
      j := TrimEndIsPrefix(init);
      assert init[..j] == s[..j];
    }
  }

  /** The first index of `c` in `s`, or `|s|`. */
  function IndexOf(s: string, c: char): (i: nat)
    ensures i <= |s|
    ensures c !in s[..i]
    ensures i < |s| ==> s[i] == c
  {
    if s == [] || s[0] == c then 0
    else
      var i := 1 + IndexOf(s[1..], c);
      assert s[..i] == [s[0]] + s[1..][..i - 1];
      i
  }

  lemma {:induction false} IndexOfIsFirst(s: string, c: char, i: nat)
    requires i < |s| && s[i] == c && c !in s[..i]
    ensures IndexOf(s, c) == i
  {
    if i > 0 {
      assert s[0] == s[..i][0];
      assert s[1..][..i - 1] == s[..i][1..];
      IndexOfIsFirst(s[1..], c, i - 1);
    }
  }

  // ---------------------------------------------------------------- joining and splitting

  function JoinWith(parts: seq<string>, sep: char): string {
    if parts == [] then []
    else if |parts| == 1 then parts[0]
    else parts[0] + ([sep] + JoinWith(parts[1..], sep))
  }

  function SplitOn(s: string, sep: char): (pieces: seq<string>)
    ensures pieces != []
  {
    if s == [] then [[]]
    else
      var rest := SplitOn(s[1..], sep);
      if s[0] == sep then [[]] + rest else [[s[0]] + rest[0]] + rest[1..]
  }

  lemma {:induction false} SplitNone(s: string, sep: char)
    requires sep !in s
    ensures SplitOn(s, sep) == [s]
  {
    if s != [] {
      SplitNone(s[1..], sep);
      assert [s[0]] + s[1..] == s;
    }
  }

  lemma {:induction false} SplitFirst(s: string, rest: string, sep: char)
    requires sep !in s
    ensures SplitOn(s + ([sep] + rest), sep) == [s] + SplitOn(rest, sep)
  {
    var all := s + ([sep] + rest);
    if s == [] {
      assert all[0] == sep && all[1..] == rest;
    } else {
      assert all[0] == s[0] && all[1..] == s[1..] + ([sep] + rest);
      SplitFirst(s[1..], rest, sep);
      assert [s[0]] + s[1..] == s;
    }
  }

  lemma {:induction false} SplitInvertsJoin(parts: seq<string>, sep: char)
    requires parts != [] && forall i | 0 <= i < |parts| :: sep !in parts[i]
    ensures SplitOn(JoinWith(parts, sep), sep) == parts
  {
    hide SplitOn;
    if |parts| == 1 {
      SplitNone(parts[0], sep);
    } else {
      SplitInvertsJoin(parts[1..], sep);
      SplitFirst(parts[0], JoinWith(parts[1..], sep), sep);
    }
  }

  lemma {:induction false} JoinSplits(a: seq<string>, b: seq<string>, sep: char)
    requires a != [] && b != []
    ensures JoinWith(a + b, sep) == JoinWith(a, sep) + ([sep] + JoinWith(b, sep))
  {
    if |a| == 1 {
      assert (a + b)[1..] == b;
    } else {
      assert (a + b)[1..] == a[1..] + b;
      JoinSplits(a[1..], b, sep);
      var rest := JoinWith(a[1..], sep);
      assert (a[0] + ([sep] + rest)) + ([sep] + JoinWith(b, sep)) == a[0] + ([sep] + (rest + ([sep] + JoinWith(b, sep))));
    }
  }

  lemma {:induction false} CharsOfJoined(parts: seq<string>, sep: char, c: char)
    requires c in JoinWith(parts, sep)
    ensures c == sep || exists i | 0 <= i < |parts| :: c in parts[i]
  {
    if |parts| > 1 && c !in parts[0] && c != sep {
      CharsOfJoined(parts[1..], sep, c);
      var i :| 0 <= i < |parts[1..]| && c in parts[1..][i];
      assert c in parts[i + 1];
    }
  }
}
