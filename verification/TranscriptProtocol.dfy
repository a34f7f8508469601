/** The passes in terms of what a message contains: its content blocks, its characters, its
    reasoning.  The laws in the other modules speak of call ids, result ids and visibility;
    the lemmas here say which blocks those are, and what a merged message is made of.
 */
module TranscriptProtocol {
  import opened Text
  import opened Transcript
  import opened TranscriptLaws
  import opened TranscriptTheorems
  import opened Wrappers

  // ---------------------------------------------------------------- blocks

  /** The assistant message asks for the call `id`. */
  ghost predicate Requests<T>(e: Entry<T>, id: string) {
    && e.IsAssistant()
    && exists i | 0 <= i < |e.message.content| :: e.message.content[i].ToolCall? && e.message.content[i].callId == id
  }

  /** The message carries a result, of an error or not, for the call `id`. */
  ghost predicate Carries<T>(e: Entry<T>, id: string) {
    exists i | 0 <= i < |e.message.content| :: e.message.content[i].ToolResult? && e.message.content[i].toolCallId == id
  }

  ghost predicate RequestsAny<T>(e: Entry<T>) { exists id :: Requests(e, id) }

  ghost predicate CarriesAny<T>(e: Entry<T>) { exists id :: Carries(e, id) }

  lemma IdsAreBlocks<T>(e: Entry<T>, id: string)
    ensures id in e.Results() <==> Carries(e, id)
    ensures e.IsAssistant() ==> (id in e.Asked() <==> Requests(e, id))
  {
    var content := e.message.content;
    if Carries(e, id) {
      var i :| 0 <= i < |content| && content[i].ToolResult? && content[i].toolCallId == id;
      assert content[i] in content;
    }
    if Requests(e, id) {
      var i :| 0 <= i < |content| && content[i].ToolCall? && content[i].callId == id;
      assert content[i] in content;
    }
  }

  /** The message at `i` asks for calls, and the messages behind it up to `k` are tool
      messages with results: each call is answered by exactly one of them, and they answer
      nothing else. */
  ghost predicate Exchange<T>(es: seq<Entry<T>>, i: int, k: int) {
    && 0 <= i < k <= |es|
    && RequestsAny(es[i])
    && (forall j | i < j < k :: es[j].IsTool() && CarriesAny(es[j]))
    && (forall j, l | i < j < l < k :: Apart(es[j], es[l]))
    && (forall j | i < j < k :: OnlyFor(es[j], es[i]))
    && (forall id | Requests(es[i], id) :: AnsweredBetween(es, i, k, id))
  }

  /** No call is answered by both. */
  ghost predicate Apart<T>(a: Entry<T>, b: Entry<T>) {
    forall id | Carries(a, id) :: !Carries(b, id)
  }

  /** Every result of `e` is for a call of `caller`. */
  ghost predicate OnlyFor<T>(e: Entry<T>, caller: Entry<T>) {
    forall id | Carries(e, id) :: Requests(caller, id)
  }

  ghost predicate AnsweredBetween<T>(es: seq<Entry<T>>, i: int, k: int, id: string) {
    exists j :: 0 <= i < j < k <= |es| && Carries(es[j], id)
  }

  ghost predicate OpensExchange<T>(es: seq<Entry<T>>, i: int) {
    exists k :: Exchange(es, i, k)
  }

  ghost predicate WithinExchange<T>(es: seq<Entry<T>>, j: int) {
    exists i, k :: i < j < k && Exchange(es, i, k)
  }

  /** The tool-call protocol of the providers: a message with calls is followed at once by
      their results, and results stand nowhere else. */
  ghost predicate ProtocolHolds<T>(es: seq<Entry<T>>) {
    && (forall i | 0 <= i < |es| && RequestsAny(es[i]) :: OpensExchange(es, i))
    && (forall j | 0 <= j < |es| && es[j].IsTool() :: WithinExchange(es, j))
  }

  lemma {:induction false} CallsIffRequests<T>(e: Entry<T>)
    ensures e.Calls() <==> RequestsAny(e)
  {
    hide Requests;
    if e.Calls() {
      var id :| id in e.Asked();
      IdsAreBlocks(e, id);
    }
    if RequestsAny(e) {
      var id :| Requests(e, id);
      OnlyAssistants(e, id);
      IdsAreBlocks(e, id);
    }
  }

  lemma OnlyAssistants<T>(e: Entry<T>, id: string)
    requires Requests(e, id)
    ensures e.IsAssistant()
  {
  }

  lemma {:induction false} ResultsIffCarries<T>(e: Entry<T>)
    ensures e.Results() != {} <==> CarriesAny(e)
  {
    hide Carries, Requests;
    if e.Results() != {} {
      var id :| id in e.Results();
      IdsAreBlocks(e, id);
    }
    if CarriesAny(e) {
      var id :| Carries(e, id);
      IdsAreBlocks(e, id);
    }
  }

  lemma {:induction false} DisjointIffApart<T>(a: Entry<T>, b: Entry<T>)
    ensures a.Results() !! b.Results() <==> Apart(a, b)
  {
    hide Carries, Requests;
    forall id
      ensures id in a.Results() <==> Carries(a, id)
      ensures id in b.Results() <==> Carries(b, id)
    {
      IdsAreBlocks(a, id);
      IdsAreBlocks(b, id);
    }
  }

  lemma {:induction false} SubsetIffOnlyFor<T>(e: Entry<T>, caller: Entry<T>)
    requires caller.IsAssistant()
    ensures e.Results() <= caller.Asked() <==> OnlyFor(e, caller)
  {
    hide Carries, Requests;
    forall id
      ensures id in e.Results() <==> Carries(e, id)
      ensures id in caller.Asked() <==> Requests(caller, id)
    {
      IdsAreBlocks(e, id);
      IdsAreBlocks(caller, id);
    }
  }

  lemma {:induction false} AnsweredIff<T>(es: seq<Entry<T>>, i: int, k: int, id: string)
    requires 0 <= i < k <= |es|
    ensures Answered(es[i + 1..k], id) <==> AnsweredBetween(es, i, k, id)
  {
    hide Carries, Requests;
    var ts := es[i + 1..k];
    if Answered(ts, id) {
      var j :| 0 <= j < |ts| && id in ts[j].Results();
      IdsAreBlocks(es[i + 1 + j], id);
    }
    if AnsweredBetween(es, i, k, id) {
      var j :| i < j < k && Carries(es[j], id);
      IdsAreBlocks(es[j], id);
      assert ts[j - i - 1] == es[j];
    }
  }

  /** A round is an exchange, message by message. */
  lemma {:induction false} RoundIffExchange<T>(es: seq<Entry<T>>, i: int, k: int)
    ensures IsRound(es, i, k) <==> Exchange(es, i, k)
  {
    hide Carries, Requests, RequestsAny, CarriesAny, Apart, OnlyFor, Answered, AnsweredBetween;
    if 0 <= i < k <= |es| {
      var caller, ts := es[i], es[i + 1..k];
      CallsIffRequests(caller);
      forall j | 0 <= j < |ts|
        ensures ts[j] == es[i + 1 + j]
        ensures ts[j].Results() != {} <==> CarriesAny(ts[j])
        ensures caller.IsAssistant() ==> (ts[j].Results() <= caller.Asked() <==> OnlyFor(ts[j], caller))
      {
        ResultsIffCarries(ts[j]);
        if caller.IsAssistant() { SubsetIffOnlyFor(ts[j], caller); }
      }
      forall j, l | 0 <= j < l < |ts|
        ensures ts[j].Results() !! ts[l].Results() <==> Apart(ts[j], ts[l])
      {
        DisjointIffApart(ts[j], ts[l]);
      }
      forall id
        ensures Answered(ts, id) <==> AnsweredBetween(es, i, k, id)
        ensures caller.IsAssistant() ==> (id in caller.Asked() <==> Requests(caller, id))
      {
        AnsweredIff(es, i, k, id);
        IdsAreBlocks(caller, id);
      }
      ExchangeOnSlice(es, i, k);
    }
  }

  lemma {:induction false} ExchangeOnSlice<T>(es: seq<Entry<T>>, i: int, k: int)
    requires 0 <= i < k <= |es|
    ensures var ts := es[i + 1..k];
            Exchange(es, i, k) <==>
              && RequestsAny(es[i])
              && (forall j | 0 <= j < |ts| :: ts[j].IsTool() && CarriesAny(ts[j]))
              && (forall j, l | 0 <= j < l < |ts| :: Apart(ts[j], ts[l]))
              && (forall j | 0 <= j < |ts| :: OnlyFor(ts[j], es[i]))
              && (forall id | Requests(es[i], id) :: AnsweredBetween(es, i, k, id))
  {
    hide Carries, Requests, RequestsAny, CarriesAny, Apart, OnlyFor, AnsweredBetween;
    var ts := es[i + 1..k];
    assert forall j | i < j < k :: es[j] == ts[j - i - 1];
  }

  /** Stated on blocks, the protocol is the one that the laws are about. */
  lemma LegalIffProtocolHolds<T>(es: seq<Entry<T>>)
    ensures Legal(es) <==> ProtocolHolds(es)
  {
    hide IsRound, Exchange, Requests;
    forall i, k
      ensures IsRound(es, i, k) <==> Exchange(es, i, k)
    {
      RoundIffExchange(es, i, k);
    }
    forall i | 0 <= i < |es|
      ensures es[i].Calls() <==> RequestsAny(es[i])
    {
      CallsIffRequests(es[i]);
    }
    assert forall i :: HasRound(es, i) <==> OpensExchange(es, i);
    assert forall j :: InRound(es, j) <==> WithinExchange(es, j);
  }

  /** What is sent obeys the providers' protocol exactly when no tool call is made inside a
      round that settles. */
  lemma NormaliseMeetsProtocol<T>(es: seq<Entry<T>>, join: (T, T) -> T)
    ensures ProtocolHolds(Normalise(es, join)) <==> QuietRounds(Merge(Filter(es), join))
  {
    hide ProtocolHolds, Legal, QuietRounds;
    NormaliseIsLegal(es, join);
    LegalIffProtocolHolds(Normalise(es, join));
  }

  // ---------------------------------------------------------------- visibility

  ghost predicate HasInk(s: string) {
    exists i | 0 <= i < |s| :: !IsWhitespace(s[i])
  }

  ghost predicate BlockShows(c: Content) {
    c.Text? ==> HasInk(c.text)
  }

  /** A message is sent if it has a block other than text, or text or reasoning with a
      character that is no whitespace. */
  lemma VisibleExactly(m: Message)
    ensures Visible(m) <==>
              || (exists i | 0 <= i < |m.content| :: BlockShows(m.content[i]))
              || (m.reasoning.Some? && HasInk(m.reasoning.value))
  {
    forall s: string
      ensures IsBlank(s) <==> !HasInk(s)
    {
      BlankIffAllWhitespace(s);
    }
    hide IsBlank, HasInk;
    forall i | 0 <= i < |m.content|
      ensures ContentIsVisible(m.content[i]) <==> BlockShows(m.content[i])
    {
    }
  }

  /** The filter decides about every message by itself and keeps the order. */
  lemma {:induction false} FilterSplits<T>(a: seq<Entry<T>>, b: seq<Entry<T>>)
    ensures Filter(a + b) == Filter(a) + Filter(b)
  {
    hide Visible;
    if a == [] {
      assert a + b == b;
    } else {
      FilterSplits(a[1..], b);
      assert (a + b)[0] == a[0] && (a + b)[1..] == a[1..] + b;
      Assoc(if Visible(a[0].message) then [a[0]] else [], Filter(a[1..]), Filter(b));
    }
  }

  lemma FilterOne<T>(e: Entry<T>)
    ensures Filter([e]) == if Visible(e.message) then [e] else []
  {
    assert [e][1..] == [];
  }

  /** The same of dropping system messages. */
  lemma {:induction false} WithoutSystemSplits<T>(a: seq<Entry<T>>, b: seq<Entry<T>>)
    ensures WithoutSystem(a + b) == WithoutSystem(a) + WithoutSystem(b)
  {
    if a == [] {
      assert a + b == b;
    } else {
      WithoutSystemSplits(a[1..], b);
      assert (a + b)[0] == a[0] && (a + b)[1..] == a[1..] + b;
      Assoc(if a[0].IsSystem() then [] else [a[0]], WithoutSystem(a[1..]), WithoutSystem(b));
    }
  }

  lemma WithoutSystemOne<T>(e: Entry<T>)
    ensures WithoutSystem([e]) == if e.message.role == System then [] else [e]
  {
    assert [e][1..] == [];
  }

  // ---------------------------------------------------------------- what a merged message is

  function Contents<T>(es: seq<Entry<T>>): seq<Content> {
    if es == [] then [] else es[0].message.content + Contents(es[1..])
  }

  /** The first reasoning that is present. */
  function FirstReasoning<T>(es: seq<Entry<T>>): Option<string> {
    if es == [] then None
    else if es[0].message.reasoning.Some? then es[0].message.reasoning
    else FirstReasoning(es[1..])
  }

  function JoinTags<T>(tag: T, es: seq<Entry<T>>, join: (T, T) -> T): T
    decreases |es|
  {
    if es == [] then tag else JoinTags(join(tag, es[0].tag), es[1..], join)
  }

  /** `g` is one message made of those of `group`: role and name of the first, all blocks in
      order, the first reasoning present, the tags joined in order. */
  ghost predicate MadeOf<T>(g: Entry<T>, group: seq<Entry<T>>, join: (T, T) -> T) {
    && group != []
    && g.message.role == group[0].message.role && g.message.name == group[0].message.name
    && g.message.content == Contents(group)
    && g.message.reasoning == FirstReasoning(group)
    && g.tag == JoinTags(group[0].tag, group[1..], join)
  }

  lemma MadeOfOne<T>(e: Entry<T>, join: (T, T) -> T)
    ensures MadeOf(e, [e], join)
  {
    assert [e][1..] == [] && e.message.content + [] == e.message.content;
  }

  /** A message that absorbed its neighbour stands for both. */
  lemma MadeOfAbsorbed<T>(g: Entry<T>, a: Entry<T>, b: Entry<T>, rest: seq<Entry<T>>, join: (T, T) -> T)
    requires MadeOf(g, [Absorb(a, b, join)] + rest, join)
    ensures MadeOf(g, [a, b] + rest, join)
  {
    var ab := Absorb(a, b, join);
    var short, long := [ab] + rest, [a, b] + rest;
    assert short[1..] == rest && long[1..] == [b] + rest && long[1..][1..] == rest;
    assert Contents(long) == a.message.content + (b.message.content + Contents(rest));
    Assoc(a.message.content, b.message.content, Contents(rest));
  }

  /** How merging cuts the list: at which messages the merged ones begin. */
  ghost predicate Cuts<T>(es: seq<Entry<T>>, join: (T, T) -> T, merged: seq<Entry<T>>, cuts: seq<nat>) {
    && |cuts| == |merged| + 1 && cuts[0] == 0 && cuts[|merged|] == |es|
    && (forall i | 0 <= i < |merged| :: PieceAt(es, join, merged, cuts, i))
    && (forall i | 0 < i < |merged| :: BreakAt(es, cuts, i))
  }

  ghost predicate PieceAt<T>(es: seq<Entry<T>>, join: (T, T) -> T, merged: seq<Entry<T>>, cuts: seq<nat>, i: nat) {
    i < |merged| && i + 1 < |cuts| && Piece(es, join, merged[i], cuts[i], cuts[i + 1])
  }

  /** The message at a cut is not absorbed by the one that begins before it. */
  ghost predicate BreakAt<T>(es: seq<Entry<T>>, cuts: seq<nat>, i: nat) {
    0 < i < |cuts| && cuts[i - 1] < cuts[i] < |es| && !Mergeable(es[cuts[i - 1]], es[cuts[i]])
  }

  /** The merged message `g` is made of the messages from `a` to `b`: all but the first are
      assistant messages with calls, and if there are any the first is the assistant's. */
  ghost predicate Piece<T>(es: seq<Entry<T>>, join: (T, T) -> T, g: Entry<T>, a: nat, b: nat) {
    && a < b <= |es|
    && MadeOf(g, es[a..b], join)
    && forall j | a < j < b :: Mergeable(es[a], es[j])
  }

  function Shifted(cuts: seq<nat>): (r: seq<nat>)
    ensures |r| == |cuts| && forall i | 0 <= i < |cuts| :: r[i] == cuts[i] + 1
  {
    seq(|cuts|, i requires 0 <= i < |cuts| => cuts[i] + 1)
  }

  /** Merging is grouping: every merged message is made of consecutive ones, an assistant
      message takes in exactly the assistant messages with calls directly behind it, and
      nothing else is merged. */
  lemma {:induction false} MergeIsGrouping<T>(es: seq<Entry<T>>, join: (T, T) -> T) returns (cuts: seq<nat>)
    ensures Cuts(es, join, Merge(es, join), cuts)
    decreases |es|
  {
    hide MadeOf, Mergeable, Absorb;
    if |es| == 0 {
      cuts := [0];
    } else if |es| == 1 {
      FirstPiece(es, join);
      cuts := [0, 1];
      assert PieceAt(es, join, es, cuts, 0);
    } else if Mergeable(es[0], es[1]) {
      var short := [Absorb(es[0], es[1], join)] + es[2..];
      var inner := MergeIsGrouping(short, join);
      cuts := [0] + Shifted(inner[1..]);
      AbsorbedCuts(es, join, Merge(short, join), inner, cuts);
    } else {
      var inner := MergeIsGrouping(es[1..], join);
      cuts := [0] + Shifted(inner);
      KeptCuts(es, join, Merge(es[1..], join), inner, cuts);
    }
  }

  lemma {:induction false} KeptCuts<T>(es: seq<Entry<T>>, join: (T, T) -> T, merged: seq<Entry<T>>, inner: seq<nat>,
                                       cuts: seq<nat>)
    requires |es| > 1 && !Mergeable(es[0], es[1])
    requires Cuts(es[1..], join, merged, inner) && cuts == [0] + Shifted(inner)
    ensures Cuts(es, join, [es[0]] + merged, cuts)
  {
    hide Piece, Mergeable;
    var all := [es[0]] + merged;
    forall i | 0 <= i < |all|
      ensures PieceAt(es, join, all, cuts, i)
    {
      if i == 0 {
        FirstPiece(es, join);
      } else {
        assert PieceAt(es[1..], join, merged, inner, i - 1);
        PieceShifts(es, join, merged[i - 1], inner[i - 1], inner[i]);
      }
    }
    forall i | 0 < i < |all|
      ensures BreakAt(es, cuts, i)
    {
      if i > 1 {
        assert BreakAt(es[1..], inner, i - 1);
      }
    }
  }

  lemma FirstPiece<T>(es: seq<Entry<T>>, join: (T, T) -> T)
    requires es != []
    ensures Piece(es, join, es[0], 0, 1)
  {
    hide MadeOf;
    MadeOfOne(es[0], join);
    assert es[0..1] == [es[0]];
  }

  lemma PieceShifts<T>(es: seq<Entry<T>>, join: (T, T) -> T, g: Entry<T>, a: nat, b: nat)
    requires es != [] && Piece(es[1..], join, g, a, b)
    ensures Piece(es, join, g, a + 1, b + 1)
  {
    hide MadeOf, Mergeable;
    assert es[1..][a..b] == es[a + 1..b + 1];
    forall j | a + 1 < j < b + 1
      ensures Mergeable(es[a + 1], es[j])
    {
      assert Mergeable(es[1..][a], es[1..][j - 1]);
    }
  }

  lemma {:induction false} AbsorbedCuts<T>(es: seq<Entry<T>>, join: (T, T) -> T, merged: seq<Entry<T>>, inner: seq<nat>, cuts: seq<nat>)
    requires |es| > 1 && Mergeable(es[0], es[1])
    requires Cuts([Absorb(es[0], es[1], join)] + es[2..], join, merged, inner)
    requires cuts == [0] + Shifted(inner[1..])
    ensures Cuts(es, join, merged, cuts)
  {
    hide Piece, Mergeable;
    var short := [Absorb(es[0], es[1], join)] + es[2..];
    assert merged != [];
    forall i | 0 <= i < |merged|
      ensures PieceAt(es, join, merged, cuts, i)
    {
      AbsorbedPiece(es, join, merged, inner, cuts, i);
    }
    forall i | 0 < i < |merged|
      ensures BreakAt(es, cuts, i)
    {
      assert BreakAt(short, inner, i);
      assert short[inner[i]] == es[inner[i] + 1];
      if i == 1 {
        AbsorbMerges(es[0], es[1], es[cuts[1]], join);
      } else {
        assert BreakAt(short, inner, i - 1);
        assert short[inner[i - 1]] == es[inner[i - 1] + 1];
      }
    }
  }

  lemma AbsorbMerges<T>(a: Entry<T>, b: Entry<T>, e: Entry<T>, join: (T, T) -> T)
    ensures Mergeable(Absorb(a, b, join), e) == Mergeable(a, e)
  {
  }

  lemma AbsorbedPiece<T>(es: seq<Entry<T>>, join: (T, T) -> T, merged: seq<Entry<T>>, inner: seq<nat>, cuts: seq<nat>,
                         i: nat)
    requires |es| > 1 && Mergeable(es[0], es[1])
    requires Cuts([Absorb(es[0], es[1], join)] + es[2..], join, merged, inner)
    requires cuts == [0] + Shifted(inner[1..]) && i < |merged|
    ensures Piece(es, join, merged[i], cuts[i], cuts[i + 1])
  {
    hide MadeOf, Mergeable;
    var short := [Absorb(es[0], es[1], join)] + es[2..];
    var a, b := inner[i], inner[i + 1];
    assert PieceAt(short, join, merged, inner, i);
    if i == 0 {
      assert short[0..b] == [short[0]] + es[2..b + 1];
      MadeOfAbsorbed(merged[0], es[0], es[1], es[2..b + 1], join);
      assert es[0..b + 1] == [es[0], es[1]] + es[2..b + 1];
      forall j | 0 < j < b + 1
        ensures Mergeable(es[0], es[j])
      {
        if j > 1 {
          assert Mergeable(short[0], short[j - 1]) && short[j - 1] == es[j];
          AbsorbMerges(es[0], es[1], es[j], join);
        }
      }
    } else {
      assert cuts[i] == a + 1 && cuts[i + 1] == b + 1;
      assert BreakAt(short, inner, i);
      assert short[a..b] == es[a + 1..b + 1];
      forall j | a + 1 < j < b + 1
        ensures Mergeable(es[a + 1], es[j])
      {
        assert Mergeable(short[a], short[j - 1]);
      }
    }
  }

  /** A merged message is of the first origin that is present. */
  lemma {:induction false} MergedOrigin(tag: Option<Origin>, es: seq<Entry<Option<Origin>>>)
    ensures var origin := JoinTags(tag, es, OrOrigin);
            && (tag.Some? ==> origin == tag)
            && (tag.None? ==>
                  || (origin.None? && forall i | 0 <= i < |es| :: es[i].tag.None?)
                  || (exists i | 0 <= i < |es| ::
                        es[i].tag.Some? && origin == es[i].tag && forall j | 0 <= j < i :: es[j].tag.None?))
    decreases |es|
  {
    if es != [] {
      MergedOrigin(OrOrigin(tag, es[0].tag), es[1..]);
      if tag.None? && es[0].tag.None? {
        var origin := JoinTags(tag, es, OrOrigin);
        if origin.Some? {
          var i :| 0 <= i < |es[1..]| && es[1..][i].tag.Some? && origin == es[1..][i].tag
                   && forall j | 0 <= j < i :: es[1..][j].tag.None?;
          assert forall j | 1 <= j < i + 1 :: es[j] == es[1..][j - 1];
          assert es[i + 1] == es[1..][i];
        } else {
          assert forall j | 1 <= j < |es| :: es[j] == es[1..][j - 1];
        }
      }
    }
  }
}
