/** One transcript for each way in which normalisation misses what is promised of it. */
module TranscriptExamples {
  import opened Text
  import opened Transcript
  import opened TranscriptLaws
  import opened TranscriptTheorems
  import opened TranscriptTags
  import opened ContextEstimate
  import opened Wrappers

  function Says(role: Role, text: string): Entry<()> {
    Entry(Message(role, [Content.Text(text)], None, None), ())
  }

  function CallsFor(id: string): Entry<()> {
    Entry(Message(Assistant, [ToolCall(id, "shell", "{}", None)], None, None), ())
  }

  function ResultOf(id: string): Entry<()> {
    Entry(Message(Tool, [ToolResult(id, "ok", false)], Some("shell"), None), ())
  }

  lemma Facts(id: string)
    ensures CallsFor(id).Asked() == {id} && CallsFor(id).Calls() && Visible(CallsFor(id).message)
    ensures ResultOf(id).IsTool() && ResultOf(id).Results() == {id} && Visible(ResultOf(id).message)
  {
    var call, result := CallsFor(id).message.content, ResultOf(id).message.content;
    assert call[0] in call && result[0] in result;
    assert CallIds(call) == {id} && ResultIds(result) == {id};
    assert ContentIsVisible(call[0]) && ContentIsVisible(result[0]);
  }

  lemma SpeechFacts(role: Role, text: string)
    requires text != [] && !IsWhitespace(text[0])
    ensures !Says(role, text).Calls() && Visible(Says(role, text).message)
  {
    BlankIffAllWhitespace(text);
    assert ContentIsVisible(Says(role, text).message.content[0]);
  }

  lemma SettlesWith(id: string, more: seq<Entry<()>>)
    ensures Settle({id}, {}, [ResultOf(id)] + more) == Settled([ResultOf(id)], [], more)
  {
    Facts(id);
    var es := [ResultOf(id)] + more;
    assert es[0] == ResultOf(id) && es[1..] == more;
  }

  lemma SettlesAfter(ids: set<string>, e: Entry<()>, es: seq<Entry<()>>)
    requires !e.IsTool() && Settle(ids, {}, es).Settled?
    ensures var r := Settle(ids, {}, es);
            Settle(ids, {}, [e] + es) == Settled(r.tools, [e] + r.bystanders, r.rest)
  {
    assert ([e] + es)[0] == e && ([e] + es)[1..] == es;
  }

  lemma Untouched(es: seq<Entry<()>>)
    requires AllVisible(es) && MergedForm(es)
    ensures Merge(Filter(es), NoTag) == es
  {
    FilterFixesExactlyVisible(es);
    MergeFixesExactlyMerged(es, NoTag);
  }

  /** A tool call made while another round is open is buffered and appended without
      opening a round: it survives without an answer. */
  lemma DanglingCallSurvives()
    ensures var es := [CallsFor("a"), Says(User, "wait"), CallsFor("b"), ResultOf("a")];
            && Normalise(es, NoTag) == [CallsFor("a"), ResultOf("a"), Says(User, "wait"), CallsFor("b")]
            && !Legal(Normalise(es, NoTag))
  {
    hide Settle, Visible, Merge, Filter, Legal;
    Facts("a");
    Facts("b");
    SpeechFacts(User, "wait");
    var a, u, b, r := CallsFor("a"), Says(User, "wait"), CallsFor("b"), ResultOf("a");
    var es := [a, u, b, r];
    Untouched(es);
    SettlesWith("a", []);
    SettlesAfter({"a"}, b, [r] + []);
    SettlesAfter({"a"}, u, [b] + ([r] + []));
    assert es[1..] == [u] + ([b] + ([r] + []));
    assert Opened(es) == Settled([r], [u] + ([b] + []), []);
    assert ([u] + ([b] + []))[1].Calls();
    NormaliseIsLegal(es, NoTag);
  }

  /** Assistant text that waited out a round comes to stand before the next call, and is
      merged with it on the second pass only. */
  lemma BufferedTextMergesLater()
    ensures var es := [CallsFor("a"), Says(User, "wait"), Says(Assistant, "soon"), ResultOf("a"),
                       CallsFor("b"), ResultOf("b")];
            && Legal(Normalise(es, NoTag))
            && Normalise(Normalise(es, NoTag), NoTag) != Normalise(es, NoTag)
  {
    hide Settle, Visible, Merge, Filter, Legal, Truncate, Normalise;
    Facts("a");
    Facts("b");
    SpeechFacts(User, "wait");
    SpeechFacts(Assistant, "soon");
    var u, x, r := Says(User, "wait"), Says(Assistant, "soon"), ResultOf("a");
    var next := [CallsFor("b"), ResultOf("b")];
    var es := [CallsFor("a"), u, x, r, CallsFor("b"), ResultOf("b")];
    Untouched(es);
    SettlesWith("b", []);
    assert next[1..] == [ResultOf("b")] + [];
    assert QuietRounds(next) && CallFollows(next);
    SettlesWith("a", next);
    SettlesAfter({"a"}, x, [r] + next);
    SettlesAfter({"a"}, u, [x] + ([r] + next));
    assert es[1..] == [u] + ([x] + ([r] + next));
    var waited := [u] + ([x] + []);
    assert Opened(es) == Settled([r], waited, next);
    assert QuietRounds(es);
    assert waited[|waited| - 1] == x;
    NormaliseIsLegal(es, NoTag);
    NormaliseIsIdempotent(es, NoTag);
  }

  /** Two assistant texts before a call: no message interjects in any round, and still a
      second pass merges what the first left. */
  lemma AssistantRunMergesLater()
    ensures var es := [Says(Assistant, "first"), Says(Assistant, "second"), CallsFor("a"), ResultOf("a")];
            && OnlyOthersInterject(Merge(Filter(es), NoTag))
            && Normalise(Normalise(es, NoTag), NoTag) != Normalise(es, NoTag)
  {
    hide Visible, Filter, Legal, Truncate, Normalise, Settle;
    var x, y, c, r := Says(Assistant, "first"), Says(Assistant, "second"), CallsFor("a"), ResultOf("a");
    var es := [x, y, c, r];
    Facts("a");
    SpeechFacts(Assistant, "first");
    SpeechFacts(Assistant, "second");
    FilterFixesExactlyVisible(es);
    var yc := Absorb(y, c, NoTag);
    AbsorbCalls(y, c, NoTag);
    assert yc.Asked() == {"a"} by {
      assert yc.message.content == [y.message.content[0], c.message.content[0]];
      assert yc.message.content[1] in yc.message.content;
    }
    assert es[1..][2..] == [r] && es[1..] == [y, c, r];
    assert Merge(es[1..], NoTag) == Merge([yc] + [r], NoTag) == [yc, r];
    var m := [x, yc, r];
    assert Merge(es, NoTag) == [x] + [yc, r] == m;
    assert m[1..] == [yc, r] && [yc, r][1..] == [r] + [];
    SettlesWith("a", []);
    assert Opened([yc, r]) == Settled([r], [], []);
    assert QuietRounds([yc, r]) && OnlyOthersInterject([yc, r]);
    assert CallFollows([yc, r]);
    NormaliseIsIdempotent(es, NoTag);
  }

  function NoOrigin(t: ()): Option<Origin> { None }

  /** An assistant text and a tool call with a system message between them. */
  function Separated(): seq<Entry<()>> {
    [Says(Assistant, "text"), Says(System, "note"), CallsFor("a"), ResultOf("a")]
  }

  function Rejoined(): seq<Entry<()>> {
    [Says(Assistant, "text"), CallsFor("a"), ResultOf("a")]
  }

  lemma SeparatedIsNormal()
    ensures Normalise(Separated(), NoTag) == Separated()
    ensures AllVisible(Separated())
  {
    hide Visible, Settle, Merge, Filter, Legal, Truncate, Normalise;
    Facts("a");
    SpeechFacts(Assistant, "text");
    SpeechFacts(System, "note");
    var es := Separated();
    var c, r := CallsFor("a"), ResultOf("a");
    SettlesWith("a", []);
    assert es[1..][1..] == [c, r] && [c, r][1..] == [r] + [];
    assert LegalFrom<()>([]) && LegalFrom([c, r]) && LegalFrom(es[1..]) && LegalFrom(es);
    LegalFromIsLegal(es);
    NormaliseFixesExactly(es, NoTag);
  }

  lemma SecondIsSystem<T>(a: Entry<T>, n: Entry<T>, b: Entry<T>, c: Entry<T>)
    requires !a.IsSystem() && n.IsSystem() && !b.IsSystem() && !c.IsSystem()
    ensures WithoutSystem([a, n, b, c]) == [a, b, c]
  {
    hide WithoutSystem;
    WithoutSystemKeeps([b, c]);
    WithoutSystemFront(n, [b, c]);
    WithoutSystemFront(a, [n] + [b, c]);
    assert [a] + ([n] + [b, c]) == [a, n, b, c];
  }

  lemma SnapshotOfSeparated(system: seq<Plain>)
    ensures FromTranscript(system, Relabel(Separated(), NoOrigin)).messages == Rejoined()
  {
    hide Normalise, WithoutSystem;
    SeparatedIsNormal();
    NormaliseCommutes(Separated(), NoOrigin, NoTag, OrOrigin);
    var t := Relabel(Separated(), NoOrigin);
    SecondIsSystem(t[0], t[1], t[2], t[3]);
    assert t == [t[0], t[1], t[2], t[3]];
    assert Normalise(t, OrOrigin) == t;
    assert ProviderTranscript(t, OrOrigin) == [t[0], t[2], t[3]];
    var kept := Relabel([t[0], t[2], t[3]], Forget);
    forall i | 0 <= i < 3
      ensures kept[i] == Rejoined()[i]
    {
      assert kept[i].message == [t[0], t[2], t[3]][i].message == Rejoined()[i].message;
      UnitTags(kept[i], Rejoined()[i]);
    }
    assert kept == Rejoined();
  }

  lemma UnitTags(a: Entry<()>, b: Entry<()>)
    requires a.message == b.message
    ensures a == b
  {
    assert a.tag == () && b.tag == ();
  }

  lemma SmallEstimate()
    ensures RawTokens(Rejoined()) <= 100
    ensures RawTokens(Rejoined()[1..]) == RawTokens(Rejoined()) - MESSAGE_BASE_TOKENS - 1
  {
    var x, c, r := Says(Assistant, "text"), CallsFor("a"), ResultOf("a");
    assert [x, c, r][1..] == [c, r] && [c, r][1..] == [r] && [r][1..] == [];
    assert ContentsTokens(x.message.content) == ContentTokens(x.message.content[0]) + 0;
    assert ContentsTokens(c.message.content) == ContentTokens(c.message.content[0]) + 0;
    assert ContentsTokens(r.message.content) == ContentTokens(r.message.content[0]) + 0;
  }

  lemma RejoinedIsVisible()
    ensures AllVisible(Rejoined()) && !MergedForm(Rejoined())
  {
    hide Visible;
    Facts("a");
    SeparatedIsNormal();
    var own := Rejoined();
    assert own[0] == Separated()[0] && own[1] == Separated()[2] && own[2] == Separated()[3];
    assert own[1].Calls() && Mergeable(own[1 - 1], own[1]);
  }

  /** The system message keeps text and call apart in the transcript and is then removed
      from the snapshot: the estimate that skips materialising the request counts one
      message more than the request has. */
  lemma SystemSeparatorBreaksFastPath()
    ensures var s := FromTranscript([], Relabel(Separated(), NoOrigin));
            EstimateOwnInputTokens(s, 0, 0) != EstimateInputTokens(s, RequestMessages(s, s.messages), 0, 0)
  {
    hide Visible, EstimateOwnInputTokens, EstimateInputTokens, RequestMessages, ProviderTranscript, RawTokens, MergedForm;
    SnapshotOfSeparated([]);
    RejoinedIsVisible();
    var s := FromTranscript([], Relabel(Separated(), NoOrigin));
    assert s.system + s.messages == Rejoined();
    SmallEstimate();
    UnanchoredFastPathExact(s, 0, 0);
  }

  /** The same snapshot with an anchor that covers its first message: in the request that
      message has absorbed the call, so the covered messages are no prefix of it, and the
      estimate that takes the prefix for granted differs. */
  lemma MergedAnchorBreaksFastPath()
    ensures var s := WithInputTokenAnchor(FromTranscript([], Relabel(Separated(), NoOrigin)), Anchor(0, 0, 1));
            && s.anchor == Some(Anchor(0, 0, 1)) && !CoveredIsPrefix(s)
            && EstimateOwnInputTokens(s, 0, 0) != EstimateInputTokens(s, RequestMessages(s, s.messages), 0, 0)
  {
    hide Visible, EstimateOwnInputTokens, EstimateInputTokens, ProviderTranscript, RawTokens, MergedForm, Settle;
    SnapshotOfSeparated([]);
    RejoinedIsVisible();
    SmallEstimate();
    var own := Rejoined();
    var s := WithInputTokenAnchor(FromTranscript([], Relabel(Separated(), NoOrigin)), Anchor(0, 0, 1));
    assert s.system + s.messages == own && s.messages == own;
    RequestOfRejoined(s);
    AnchoredFastPathExact(s, 0, 0, 0);
    PaddedGrows(RawTokens(own[1..]), RawTokens(RequestMessages(s, s.messages)));
  }

  lemma RequestOfRejoined(s: ContextSnapshot)
    requires s.system == [] && s.messages == Rejoined() && s.anchor == Some(Anchor(0, 0, 1))
    ensures !CoveredIsPrefix(s)
    ensures RawTokens(RequestMessages(s, s.messages)) == RawTokens(Rejoined()) - MESSAGE_BASE_TOKENS
  {
    hide Visible, RawTokens, MergedForm, Merge, Truncate, Filter;
    RejoinedIsVisible();
    var own := Rejoined();
    var x, r := own[0], own[2];
    var xc := Absorb(x, own[1], NoTag);
    assert s.system + s.messages == own;
    FilterFixesExactlyVisible(own);
    MergeOfRejoined();
    MergeTokens(own, NoTag);
    TruncateOfMerged();
    assert RequestMessages(s, s.messages) == [xc, r];
    assert |xc.message.content| == 2 && |x.message.content| == 1;
    assert (s.system + s.messages[..1])[0] == x && [xc, r][0] != x;
  }

  /** The message that text and call are merged into. */
  function Joint(): Entry<()> { Absorb(Rejoined()[0], Rejoined()[1], NoTag) }

  lemma MergeOfRejoined()
    ensures Merge(Rejoined(), NoTag) == [Joint(), ResultOf("a")]
  {
    Facts("a");
    var own, r := Rejoined(), ResultOf("a");
    assert Mergeable(own[0], own[1]) && !Mergeable(Joint(), r);
    hide CallsFor, ResultOf, Says, Mergeable, Absorb;
    assert own[2..] == [r] && [Joint()] + [r] == [Joint(), r] && [Joint(), r][1..] == [r];
    assert Merge([r], NoTag) == [r];
    assert Merge([Joint(), r], NoTag) == [Joint()] + [r];
  }

  lemma TruncateOfMerged()
    ensures Truncate([Joint(), ResultOf("a")]) == [Joint(), ResultOf("a")]
  {
    hide Settle, Truncate;
    Facts("a");
    var xc, r := Joint(), ResultOf("a");
    AbsorbCalls(Rejoined()[0], Rejoined()[1], NoTag);
    assert xc.Asked() == {"a"} by {
      assert xc.message.content == [Rejoined()[0].message.content[0], Rejoined()[1].message.content[0]];
      assert xc.message.content[1] in xc.message.content;
    }
    SettlesWith("a", []);
    assert [r] + [] == [r] && [xc, r][1..] == [r] && Opened([xc, r]) == Settled([r], [], []);
    TruncateUnfolds([xc, r]);
    NothingTruncated();
    assert [xc] + ([r] + ([] + [])) == [xc, r];
  }

  lemma NothingTruncated()
    ensures Truncate<()>([]) == []
  {
  }
}
