/** Names of MCP (Model Context Protocol) tools, `mcp__server__tool`: the words they are made
    of, and when two of them are equal.
 */
module McpNames {
  import opened Text
  import opened Wrappers

  // ---------------------------------------------------------------- normalisation

  predicate IsAlphanumeric(c: char) {
    '0' <= c <= '9' || 'a' <= c <= 'z' || 'A' <= c <= 'Z'
  }

  function Lower(c: char): char {
    if 'A' <= c <= 'Z' then (c as int + 32) as char else c
  }

  /** What the loop of `normalize_component` appends while reading `s`. */
  function Collapse(s: string, lastSep: bool): string {
    if s == [] then []
    else if IsAlphanumeric(s[0]) then [Lower(s[0])] + Collapse(s[1..], false)
    else if lastSep then Collapse(s[1..], true)
    else ['_'] + Collapse(s[1..], true)
  }

  function TrimRight(s: string): (t: string)
    ensures t <= s && (t == [] || t[|t| - 1] != '_')
    ensures forall i | |t| <= i < |s| :: s[i] == '_'
  {
    if s == [] then []
    else
      var t := TrimRight(s[1..]);
      if t == [] && s[0] == '_' then [] else [s[0]] + t
  }

  function TrimLeft(s: string): string {
    if s != [] && s[0] == '_' then TrimLeft(s[1..]) else s
  }

  /** The words of a name: its maximal runs of ASCII letters and digits, in lower case. */
  function Words(s: string): (words: seq<string>)
    ensures s != [] && IsAlphanumeric(s[0]) ==> words != []
  {
    if s == [] then []
    else
      var rest := Words(s[1..]);
      if !IsAlphanumeric(s[0]) then rest
      else if |s| > 1 && IsAlphanumeric(s[1]) then [[Lower(s[0])] + rest[0]] + rest[1..]
      else [[Lower(s[0])]] + rest
  }

  predicate IsWord(w: string) { w != [] && forall i | 0 <= i < |w| :: IsAlphanumeric(w[i]) }

  lemma {:induction false} WordsAreWords(s: string)
    ensures forall i | 0 <= i < |Words(s)| :: IsWord(Words(s)[i])
  {
    if s != [] {
      WordsAreWords(s[1..]);
    }
  }

  /** A normalised name is its words joined by single underscores. */
  function Normal(s: string): string { JoinWith(Words(s), '_') }

  method NormalizeComponent(input: string) returns (output: string)
    ensures output == Normal(input)
  {
    hide Normal;
    output := [];
    var lastSep := false;
    for i := 0 to |input|
      invariant output + Collapse(input[i..], lastSep) == Collapse(input, false)
    {
      var c := input[i];
      CollapseStep(c, input[i + 1..], lastSep);
      assert input[i..] == [c] + input[i + 1..];
      if IsAlphanumeric(c) {
        Assoc(output, [Lower(c)], Collapse(input[i + 1..], false));
        output := output + [Lower(c)];
        lastSep := false;
      } else if !lastSep {
        Assoc(output, ['_'], Collapse(input[i + 1..], true));
        output := output + ['_'];
        lastSep := true;
      }
    }
    assert input[|input|..] == [] && output + [] == output;
    TrimmedIsNormal(input);
    output := TrimLeft(TrimRight(output));
  }

  lemma CollapseStep(c: char, rest: string, lastSep: bool)
    ensures Collapse([c] + rest, lastSep)
         == (if IsAlphanumeric(c) then [Lower(c)] + Collapse(rest, false)
             else if lastSep then Collapse(rest, true)
             else ['_'] + Collapse(rest, true))
  {
    assert ([c] + rest)[1..] == rest;
  }

  /** What remains of the loop's output without trailing underscores. */
  function Remains(s: string, lastSep: bool): string {
    if Words(s) == [] then []
    else if lastSep || IsAlphanumeric(s[0]) then Normal(s)
    else ['_'] + Normal(s)
  }

  lemma {:induction false} CollapseIsRemains(s: string, lastSep: bool)
    ensures TrimRight(Collapse(s, lastSep)) == Remains(s, lastSep)
  {
    if s != [] {
      CollapseIsRemains(s[1..], if IsAlphanumeric(s[0]) then false else true);
      if IsAlphanumeric(s[0]) {
        TrimKeeps(Lower(s[0]), Collapse(s[1..], false));
        WordsStep(s);
      } else {
        NormalIsEmpty(s[1..]);
        var rest := Collapse(s[1..], true);
        assert (['_'] + rest)[1..] == rest;
      }
    }
  }

  lemma TrimKeeps(c: char, rest: string)
    requires c != '_'
    ensures TrimRight([c] + rest) == [c] + TrimRight(rest)
  {
    assert ([c] + rest)[1..] == rest;
  }

  /** Reading a letter or digit prepends it to what remains of the rest. */
  lemma WordsStep(s: string)
    requires s != [] && IsAlphanumeric(s[0])
    ensures Normal(s) == [Lower(s[0])] + Remains(s[1..], false)
  {
    var l, rest := [Lower(s[0])], Words(s[1..]);
    if |s| > 1 && IsAlphanumeric(s[1]) {
      var words := [l + rest[0]] + rest[1..];
      assert words[1..] == rest[1..];
      assert Words(s) == words;
      if |rest| > 1 {
        Assoc(l, rest[0], ['_'] + JoinWith(rest[1..], '_'));
      }
    } else {
      assert Words(s) == [l] + rest;
      if rest != [] {
        assert ([l] + rest)[1..] == rest;
      }
    }
  }

  lemma NormalIsEmpty(s: string)
    ensures Normal(s) == [] <==> Words(s) == []
    ensures Normal(s) != [] ==> IsAlphanumeric(Normal(s)[0])
  {
    WordsAreWords(s);
    if Words(s) != [] {
      assert IsWord(Words(s)[0]);
    }
  }

  lemma TrimmedIsNormal(s: string)
    ensures TrimLeft(TrimRight(Collapse(s, false))) == Normal(s)
  {
    hide Collapse, JoinWith;
    CollapseIsRemains(s, false);
    NormalIsEmpty(s);
    if Words(s) != [] && !IsAlphanumeric(s[0]) {
      assert (['_'] + Normal(s))[1..] == Normal(s);
    }
  }

  // ---------------------------------------------------------------- what names identify

  lemma {:induction false} WordsOfJoined(words: seq<string>)
    requires forall i | 0 <= i < |words| :: IsWord(words[i])
    ensures forall i | 0 <= i < |words| :: '_' !in words[i]
  {
    forall i | 0 <= i < |words|
      ensures '_' !in words[i]
    {
      assert IsWord(words[i]);
    }
  }

  /** The pieces of a built name between its underscores. */
  function Pieces(server: string, tool: string): seq<string> {
    ["mcp", ""] + (Words(server) + ([""] + Words(tool)))
  }

  function ToolName(server: string, tool: string): Option<string> {
    if Words(server) == [] || Words(tool) == [] then None
    else Some(JoinWith(Pieces(server, tool), '_'))
  }

  /** `build_tool_name`: there is a name exactly when both parts have a word. */
  method BuildToolName(server: string, tool: string) returns (name: Option<string>)
    ensures name == ToolName(server, tool)
    ensures name.Some? ==> name.value == "mcp__" + (Normal(server) + ("__" + Normal(tool)))
  {
    var s := NormalizeComponent(server);
    var t := NormalizeComponent(tool);
    NormalIsEmpty(server);
    NormalIsEmpty(tool);
    if s != [] && t != [] {
      NameIsJoined(server, tool);
      name := Some("mcp__" + (s + ("__" + t)));
    } else {
      name := None;
    }
  }

  lemma NameIsJoined(server: string, tool: string)
    requires Words(server) != [] && Words(tool) != []
    ensures JoinWith(Pieces(server, tool), '_') == "mcp__" + (Normal(server) + ("__" + Normal(tool)))
  {
    hide Words, JoinWith;
    var s, t := Words(server), Words(tool);
    JoinSplits(["mcp", ""], s + ([""] + t), '_');
    JoinSplits(s, [""] + t, '_');
    JoinSplits([""], t, '_');
    Joined();
    assert "mcp_" + (['_'] + (Normal(server) + ("__" + Normal(tool)))) == "mcp__" + (Normal(server) + ("__" + Normal(tool)));
  }

  lemma Joined()
    ensures JoinWith(["mcp", ""], '_') == "mcp_" && JoinWith([""], '_') == ""
  {
    assert ["mcp", ""][1..] == [""];
  }

  /** Two pairs get the same name exactly when server and tool agree word by word. */
  lemma NamesIdentifyWords(s1: string, t1: string, s2: string, t2: string)
    requires ToolName(s1, t1).Some? && ToolName(s2, t2).Some?
    ensures ToolName(s1, t1) == ToolName(s2, t2) <==> Words(s1) == Words(s2) && Words(t1) == Words(t2)
  {
    hide Words, JoinWith;
    PiecesSplit(s1, t1);
    PiecesSplit(s2, t2);
    if Pieces(s1, t1) == Pieces(s2, t2) {
      var p1, p2 := Pieces(s1, t1), Pieces(s2, t2);
      assert p1[2..] == Words(s1) + ([""] + Words(t1));
      assert p2[2..] == Words(s2) + ([""] + Words(t2));
      WordsAreWords(s1);
      WordsAreWords(s2);
      FirstGapIsUnique(Words(s1), Words(t1), Words(s2), Words(t2));
    }
  }

  lemma PiecesSplit(server: string, tool: string)
    ensures SplitOn(JoinWith(Pieces(server, tool), '_'), '_') == Pieces(server, tool)
  {
    hide Words, JoinWith, SplitOn;
    WordsAreWords(server);
    WordsAreWords(tool);
    WordsOfJoined(Words(server));
    WordsOfJoined(Words(tool));
    SplitInvertsJoin(Pieces(server, tool), '_');
  }

  lemma FirstGapIsUnique(s1: seq<string>, t1: seq<string>, s2: seq<string>, t2: seq<string>)
    requires forall i | 0 <= i < |s1| :: IsWord(s1[i])
    requires forall i | 0 <= i < |s2| :: IsWord(s2[i])
    requires s1 + ([""] + t1) == s2 + ([""] + t2)
    ensures s1 == s2 && t1 == t2
  {
    var all := s1 + ([""] + t1);
    assert forall i | 0 <= i < |s1| :: IsWord(s1[i]) && all[i] != "";
    assert forall i | 0 <= i < |s2| :: IsWord(s2[i]) && all[i] != "";
    assert all[|s1|] == "" && all[|s2|] == "";
    assert |s1| == |s2|;
    assert s1 == all[..|s1|] && s2 == all[..|s2|];
    assert t1 == all[|s1| + 1..] && t2 == all[|s2| + 1..];
  }

  // ---------------------------------------------------------------- normalised names

  /** Small letters and digits, at least one. */
  predicate IsLowWord(w: string) {
    w != [] && forall i | 0 <= i < |w| :: '0' <= w[i] <= '9' || 'a' <= w[i] <= 'z'
  }

  lemma {:induction false} WordsAreLow(s: string)
    ensures forall i | 0 <= i < |Words(s)| :: IsLowWord(Words(s)[i])
  {
    if s != [] {
      WordsAreLow(s[1..]);
    }
  }

  /** A normalised name has small letters, digits and underscores only. */
  lemma NormalChars(s: string, c: char)
    requires c in Normal(s)
    ensures '0' <= c <= '9' || 'a' <= c <= 'z' || c == '_'
  {
    WordsAreLow(s);
    CharsOfJoined(Words(s), '_', c);
    if c != '_' {
      var i :| 0 <= i < |Words(s)| && c in Words(s)[i];
      assert IsLowWord(Words(s)[i]);
    }
  }

  lemma {:induction false} WordThen(w: string, rest: string)
    requires IsLowWord(w) && (rest == [] || !IsAlphanumeric(rest[0]))
    ensures Words(w + rest) == [w] + Words(rest)
  {
    var s := w + rest;
    assert s[0] == w[0] && s[1..] == w[1..] + rest;
    if |w| == 1 {
      assert w[1..] + rest == rest && w == [w[0]];
    } else {
      assert IsLowWord(w[1..]);
      WordThen(w[1..], rest);
      assert [w[0]] + w[1..] == w;
      assert ([w[1..]] + Words(rest))[1..] == Words(rest);
    }
  }

  lemma {:induction false} WordsOfNormal(words: seq<string>)
    requires forall i | 0 <= i < |words| :: IsLowWord(words[i])
    ensures Words(JoinWith(words, '_')) == words
  {
    hide IsLowWord;
    if |words| == 1 {
      WordThen(words[0], []);
      assert words[0] + [] == words[0];
    } else if |words| > 1 {
      var rest := JoinWith(words[1..], '_');
      WordsOfNormal(words[1..]);
      WordThen(words[0], ['_'] + rest);
      assert (['_'] + rest)[1..] == rest;
    }
  }

  /** Normalising again changes nothing, and the words stay. */
  lemma NormalIsIdempotent(s: string)
    ensures Words(Normal(s)) == Words(s) && Normal(Normal(s)) == Normal(s)
  {
    hide Words, JoinWith, IsLowWord;
    WordsAreLow(s);
    WordsOfNormal(Words(s));
  }

  /** A name of small letters and digits is its own normal form; capital letters count as the
      small ones. */
  lemma {:induction false} CaseIsIrrelevant(s: string, t: string)
    requires |s| == |t|
    requires forall i | 0 <= i < |s| :: s[i] == t[i] || ('A' <= s[i] <= 'Z' && t[i] as int == s[i] as int + 32)
    ensures Words(s) == Words(t)
  {
    if s != [] {
      CaseIsIrrelevant(s[1..], t[1..]);
    }
  }

  lemma LowWordIsNormal(w: string)
    requires IsLowWord(w)
    ensures Normal(w) == w
  {
    WordThen(w, []);
    assert w + [] == w && [w] + [] == [w];
  }
}
