/** Token estimates of a context snapshot: the estimate of a materialised request, and
    the fast path that skips materialising the snapshot's own request.

    The source claims the two are equal for the snapshot's own request.  They are equal
    when normalising the request again is without effect.  The exact conditions, without
    and with an anchor, are `UnanchoredFastPathExact` and `AnchoredFastPathExact`.
 */
module ContextEstimate {
  import opened Machine
  import opened Transcript
  import opened TranscriptLaws
  import opened TranscriptTheorems
  import opened TranscriptTags
  import opened Wrappers
  import Utf8

  const MESSAGE_BASE_TOKENS: nat := 6
  const TOOL_CALL_BASE_TOKENS: nat := 12
  const CHARS_PER_TOKEN: nat := 4

  // ---------------------------------------------------------------- arithmetic

  function DivCeil(a: nat, b: nat): nat
    requires b > 0
  {
    (a + b - 1) / b
  }

  /** `apply_request_padding`: four thirds, rounded up, saturating before the division. */
  function Padded(raw: nat): nat {
    DivCeil(Saturated(4 * raw), 3)
  }

  function Max(a: nat, b: nat): nat { if a < b then b else a }

  function CharTokens(chars: nat): nat { DivCeil(chars, CHARS_PER_TOKEN) }

  function TextTokens(text: string): nat { Max(CharTokens(|text|), 1) }

  function ContentTokens(c: Content): nat {
    match c
    case Text(text) => TextTokens(text)
    case Image(base64, _, _) => Max(CharTokens(Utf8.Utf8Len(base64)), 1)
    case ToolCall(callId, name, arguments, rawArguments) =>
      TOOL_CALL_BASE_TOKENS + TextTokens(callId) + TextTokens(name)
      + TextTokens(if rawArguments.Some? then rawArguments.value else arguments)
    case ToolResult(toolCallId, output, _) => TextTokens(toolCallId) + TextTokens(output)
  }

  function ContentsTokens(content: seq<Content>): nat {
    if content == [] then 0 else ContentTokens(content[0]) + ContentsTokens(content[1..])
  }

  /** The unpadded estimate of a list of messages. */
  function RawTokens<T>(es: seq<Entry<T>>): nat {
    if es == [] then 0
    else MESSAGE_BASE_TOKENS + ContentsTokens(es[0].message.content) + RawTokens(es[1..])
  }

  /** `estimate_provider_message_tokens` */
  function MessageTokens<T>(es: seq<Entry<T>>): nat {
    Padded(RawTokens(es))
  }

  // ---------------------------------------------------------------- snapshots

  type Plain = Entry<()>

  datatype Anchor = Anchor(contextTokens: nat, modelContextWindow: nat, coveredMessageCount: nat)

  /** `system` is what `system_messages_from_prompt` makes of the snapshot's prompt. */
  datatype ContextSnapshot = ContextSnapshot(
    system: seq<Plain>, messages: seq<Plain>, origins: seq<Option<Origin>>, anchor: Option<Anchor>)

  ghost predicate SystemMessages(es: seq<Plain>) {
    forall i | 0 <= i < |es| :: es[i].IsSystem() && Visible(es[i].message)
  }

  function FromTranscript(system: seq<Plain>, es: seq<Entry<Option<Origin>>>): ContextSnapshot {
    var kept := ProviderTranscript(es, OrOrigin);
    ContextSnapshot(system, Relabel(kept, Forget),
                    seq(|kept|, i requires 0 <= i < |kept| => kept[i].tag), None)
  }

  function WithInputTokenAnchor(s: ContextSnapshot, a: Anchor): ContextSnapshot {
    if a.coveredMessageCount <= |s.messages| then s.(anchor := Some(a)) else s
  }

  ghost predicate AnchorInRange(s: ContextSnapshot) {
    s.anchor.Some? ==> s.anchor.value.coveredMessageCount <= |s.messages|
  }

  function RequestMessages(s: ContextSnapshot, messages: seq<Plain>): seq<Plain> {
    Normalise(s.system + messages, NoTag)
  }

  function EstimateInputTokens(s: ContextSnapshot, request: seq<Plain>, tools: nat, window: nat): nat {
    var full := SaturatingAdd(MessageTokens(request), tools);
    if s.anchor.None? || s.anchor.value.modelContextWindow != window then full
    else
      var a := s.anchor.value;
      if a.coveredMessageCount > |s.messages| then full
      else
        var prefixLen := |s.system| + a.coveredMessageCount;
        if prefixLen > |request| then full
        else if request[..|s.system|] != s.system then full
        else if request[|s.system|..prefixLen] != s.messages[..a.coveredMessageCount] then full
        else SaturatingAdd(SaturatingAdd(a.contextTokens, MessageTokens(request[prefixLen..])), tools)
  }

  function EstimateOwnInputTokens(s: ContextSnapshot, tools: nat, window: nat): nat {
    var full := SaturatingAdd(MessageTokens(s.system + s.messages), tools);
    if s.anchor.None? || s.anchor.value.modelContextWindow != window then full
    else
      var a := s.anchor.value;
      if a.coveredMessageCount > |s.messages| then full
      else SaturatingAdd(SaturatingAdd(a.contextTokens, MessageTokens(s.messages[a.coveredMessageCount..])), tools)
  }

  // ---------------------------------------------------------------- the own request

  lemma {:induction false} LegalBehindSystem(system: seq<Plain>, es: seq<Plain>)
    requires SystemMessages(system)
    ensures LegalFrom(system + es) <==> LegalFrom(es)
    decreases |system|
  {
    hide Settle, Visible;
    if system == [] {
      assert system + es == es;
    } else {
      LegalBehindSystem(system[1..], es);
      assert (system + es)[0] == system[0] && (system + es)[1..] == system[1..] + es;
    }
  }

  /** The request built from the snapshot's own messages is those messages behind the
      system messages exactly when they are visible, merged and legal. */
  lemma OwnRequestIsVerbatim(s: ContextSnapshot)
    requires SystemMessages(s.system)
    ensures RequestMessages(s, s.messages) == s.system + s.messages
       <==> AllVisible(s.messages) && MergedForm(s.messages) && Legal(s.messages)
  {
    hide Settle, Visible, Truncate, Merge, Filter, Legal, LegalFrom, Normalise;
    var es := s.system + s.messages;
    NormaliseFixesExactly(es, NoTag);
    LegalBehindSystem(s.system, s.messages);
    LegalBothWays(es);
    LegalBothWays(s.messages);
    MergedFormSplits(s.system, s.messages);
    forall i | 0 <= i < |s.messages| && AllVisible(es) ensures Visible(s.messages[i].message) {
      assert s.messages[i] == es[|s.system| + i];
    }
  }

  lemma LegalBothWays<T>(es: seq<Entry<T>>)
    ensures Legal(es) <==> LegalFrom(es)
  {
    hide Legal, LegalFrom;
    if Legal(es) { LegalIsLegalFrom(es); }
    if LegalFrom(es) { LegalFromIsLegal(es); }
  }

  /** The fast path agrees with the estimate of the materialised request: with or without
      anchor, and for every model window. */
  lemma FastPathAgrees(s: ContextSnapshot, tools: nat, window: nat)
    requires SystemMessages(s.system) && AnchorInRange(s)
    requires AllVisible(s.messages) && MergedForm(s.messages) && Legal(s.messages)
    ensures EstimateOwnInputTokens(s, tools, window)
         == EstimateInputTokens(s, RequestMessages(s, s.messages), tools, window)
  {
    hide MessageTokens, Legal, MergedForm, Visible, RequestMessages;
    OwnRequestIsVerbatim(s);
    var request := s.system + s.messages;
    if s.anchor.Some? {
      var covered := s.anchor.value.coveredMessageCount;
      var prefixLen := |s.system| + covered;
      assert request[..|s.system|] == s.system;
      assert request[|s.system|..prefixLen] == s.messages[..covered];
      assert request[prefixLen..] == s.messages[covered..];
    }
  }

  lemma AnchoringKeepsRange(s: ContextSnapshot, a: Anchor)
    requires AnchorInRange(s)
    ensures AnchorInRange(WithInputTokenAnchor(s, a))
    ensures WithInputTokenAnchor(s, a).anchor
         == if a.coveredMessageCount <= |s.messages| then Some(a) else s.anchor
    ensures WithInputTokenAnchor(s, a).messages == s.messages && WithInputTokenAnchor(s, a).system == s.system
  {
  }

  // ---------------------------------------------------------------- snapshots of transcripts

  ghost predicate NoSystem<T>(es: seq<Entry<T>>) {
    forall i | 0 <= i < |es| :: !es[i].IsSystem()
  }

  lemma {:induction false} WithoutSystemKeeps<T>(es: seq<Entry<T>>)
    requires NoSystem(es)
    ensures WithoutSystem(es) == es
  {
    if es != [] {
      WithoutSystemKeeps(es[1..]);
    }
  }

  lemma WithoutSystemFront<T>(e: Entry<T>, es: seq<Entry<T>>)
    ensures WithoutSystem([e] + es) == if e.IsSystem() then WithoutSystem(es) else [e] + WithoutSystem(es)
  {
    assert ([e] + es)[0] == e && ([e] + es)[1..] == es;
    assert [] + WithoutSystem(es) == WithoutSystem(es);
  }

  lemma {:induction false} NoSystemMerge<T>(es: seq<Entry<T>>, join: (T, T) -> T)
    requires NoSystem(es)
    ensures NoSystem(Merge(es, join)) && NoSystem(Filter(es))
    decreases |es|
  {
    hide Visible;
    if es != [] {
      NoSystemMerge(es[1..], join);
    }
    if |es| > 1 && Mergeable(es[0], es[1]) {
      NoSystemMerge([Absorb(es[0], es[1], join)] + es[2..], join);
    }
  }

  lemma NoSystemNormalise<T>(es: seq<Entry<T>>, join: (T, T) -> T)
    requires NoSystem(es)
    ensures NoSystem(Normalise(es, join))
  {
    hide Truncate, Merge, Filter;
    NoSystemMerge(es, join);
    NoSystemMerge(Filter(es), join);
    var m := Merge(Filter(es), join);
    forall i | 0 <= i < |Truncate(m)| ensures !Truncate(m)[i].IsSystem() {
      TruncateMembers(m, Truncate(m)[i]);
    }
  }

  /** Dropping tags changes none of the three conditions. */
  lemma ConditionsIgnoreTags<T, U>(es: seq<Entry<T>>, h: T -> U)
    ensures AllVisible(es) ==> AllVisible(Relabel(es, h))
    ensures MergedForm(es) ==> MergedForm(Relabel(es, h))
    ensures Legal(es) ==> Legal(Relabel(es, h))
  {
    hide Visible, Legal, Truncate;
    var rs := Relabel(es, h);
    assert AllVisible(es) ==> AllVisible(rs);
    if MergedForm(es) {
      forall i | 0 < i < |rs| ensures !Mergeable(rs[i - 1], rs[i]) {
        assert !Mergeable(es[i - 1], es[i]);
      }
    }
    TruncateFixesExactlyLegal(es);
    TruncateFixesExactlyLegal(rs);
    TruncateCommutes(es, h);
  }

  /** A snapshot keeps the normalised messages and, beside each, where it comes from. */
  lemma SnapshotKeepsOrigins(system: seq<Plain>, es: seq<Entry<Option<Origin>>>)
    ensures var s := FromTranscript(system, es);
            var kept := ProviderTranscript(es, OrOrigin);
            && s.system == system && s.anchor.None?
            && |s.messages| == |s.origins| == |kept|
            && forall i | 0 <= i < |kept| :: s.messages[i].message == kept[i].message && s.origins[i] == kept[i].tag
  {
    hide ProviderTranscript;
  }

  /** For a transcript without system messages, in which the assistant does not speak
      while its tools run and strands no text, the fast path is exact. */
  lemma TranscriptFastPath(system: seq<Plain>, es: seq<Entry<Option<Origin>>>, a: Option<Anchor>,
                           tools: nat, window: nat)
    requires SystemMessages(system) && NoSystem(es)
    requires OnlyOthersInterject(Merge(Filter(es), OrOrigin)) && !Stranded(Filter(es))
    ensures var plain := FromTranscript(system, es);
            var s := if a.Some? then WithInputTokenAnchor(plain, a.value) else plain;
            EstimateOwnInputTokens(s, tools, window) == EstimateInputTokens(s, RequestMessages(s, s.messages), tools, window)
  {
    hide EstimateOwnInputTokens, EstimateInputTokens, RequestMessages, Visible, Legal, MergedForm,
         Truncate, Merge, Filter, OnlyOthersInterject, Stranded, Relabel;
    var out := Normalise(es, OrOrigin);
    NoSystemNormalise(es, OrOrigin);
    WithoutSystemKeeps(out);
    SilentAssistantIsEnough(es, OrOrigin);
    NormaliseFixesExactly(out, OrOrigin);
    ConditionsIgnoreTags(out, Forget);
    var plain := FromTranscript(system, es);
    var s := if a.Some? then WithInputTokenAnchor(plain, a.value) else plain;
    FastPathAgrees(s, tools, window);
  }

  // ---------------------------------------------------------------- exactness

  lemma {:induction false} ContentsTokensSplit(a: seq<Content>, b: seq<Content>)
    ensures ContentsTokens(a + b) == ContentsTokens(a) + ContentsTokens(b)
  {
    if a == [] {
      assert a + b == b;
    } else {
      ContentsTokensSplit(a[1..], b);
      assert (a + b)[1..] == a[1..] + b;
    }
  }

  lemma {:induction false} RawTokensSplit<T>(a: seq<Entry<T>>, b: seq<Entry<T>>)
    ensures RawTokens(a + b) == RawTokens(a) + RawTokens(b)
  {
    if a == [] {
      assert a + b == b;
    } else {
      RawTokensSplit(a[1..], b);
      assert (a + b)[1..] == a[1..] + b;
    }
  }

  lemma {:induction false} RawTokensAtLeast<T>(es: seq<Entry<T>>)
    ensures RawTokens(es) >= MESSAGE_BASE_TOKENS * |es|
  {
    if es != [] {
      RawTokensAtLeast(es[1..]);
    }
  }

  /** Each merge saves exactly the overhead of one message. */
  lemma {:induction false} MergeTokens<T>(es: seq<Entry<T>>, join: (T, T) -> T)
    ensures |Merge(es, join)| <= |es|
    ensures RawTokens(Merge(es, join)) == RawTokens(es) - MESSAGE_BASE_TOKENS * (|es| - |Merge(es, join)|)
    decreases |es|
  {
    if |es| > 1 {
      if Mergeable(es[0], es[1]) {
        var ab := Absorb(es[0], es[1], join);
        MergeTokens([ab] + es[2..], join);
        ContentsTokensSplit(es[0].message.content, es[1].message.content);
        assert ([ab] + es[2..])[1..] == es[2..];
        assert es[1..][1..] == es[2..];
      } else {
        MergeTokens(es[1..], join);
        assert ([es[0]] + Merge(es[1..], join))[1..] == Merge(es[1..], join);
      }
    }
  }

  lemma {:induction false} TokensByKind<T>(es: seq<Entry<T>>)
    ensures RawTokens(es) == RawTokens(Tools(es)) + RawTokens(NonTools(es))
    decreases |es|
  {
    hide RawTokens;
    NoTokens<T>();
    if es != [] {
      var e, tail := es[0], es[1..];
      var tool, other := if e.IsTool() then [e] else [], if e.IsTool() then [] else [e];
      TokensByKind(tail);
      RawTokensSplit([e], tail);
      RawTokensSplit(tool, Tools(tail));
      RawTokensSplit(other, NonTools(tail));
      assert es == [e] + tail;
      assert Tools(es) == tool + Tools(tail) && NonTools(es) == other + NonTools(tail);
    }
  }

  lemma NoTokens<T>()
    ensures RawTokens<T>([]) == 0
  {
  }

  /** Truncation costs at least the overhead of every entry it drops. */
  lemma TruncateTokens<T>(es: seq<Entry<T>>)
    ensures |Truncate(es)| <= |es|
    ensures RawTokens(Truncate(es)) + MESSAGE_BASE_TOKENS * (|es| - |Truncate(es)|) <= RawTokens(es)
    ensures |Truncate(es)| == |es| ==> RawTokens(Truncate(es)) == RawTokens(es)
  {
    hide Truncate, Tools, NonTools;
    TruncateIsStableReordering(es);
    var n := Kept(es);
    TokensByKind(Truncate(es));
    TokensByKind(es[..n]);
    assert es == es[..n] + es[n..];
    RawTokensSplit(es[..n], es[n..]);
    RawTokensAtLeast(es[n..]);
  }

  /** Normalising visible messages saves tokens exactly when it shortens the list. */
  lemma NormaliseTokens(es: seq<Plain>)
    requires AllVisible(es)
    ensures |Normalise(es, NoTag)| <= |es|
    ensures RawTokens(Normalise(es, NoTag)) + MESSAGE_BASE_TOKENS * (|es| - |Normalise(es, NoTag)|) <= RawTokens(es)
    ensures |Normalise(es, NoTag)| == |es| ==> RawTokens(Normalise(es, NoTag)) == RawTokens(es)
  {
    hide Truncate, Merge, Filter;
    FilterFixesExactlyVisible(es);
    MergeTokens(es, NoTag);
    TruncateTokens(Merge(es, NoTag));
  }

  lemma {:induction false} KeptBehindSystem(system: seq<Plain>, es: seq<Plain>)
    requires SystemMessages(system)
    ensures Kept(system + es) == |system| + Kept(es)
    decreases |system|
  {
    hide Settle, Visible;
    if system == [] {
      assert system + es == es;
    } else {
      KeptBehindSystem(system[1..], es);
      assert (system + es)[0] == system[0] && (system + es)[1..] == system[1..] + es;
    }
  }

  /** The own request is as long as system prompt and snapshot together exactly when
      nothing is left to merge and every round settles. */
  lemma OwnRequestLength(s: ContextSnapshot)
    requires SystemMessages(s.system) && AllVisible(s.messages)
    ensures |RequestMessages(s, s.messages)| == |s.system + s.messages|
       <==> MergedForm(s.messages) && Kept(s.messages) == |s.messages|
  {
    hide Truncate, Merge, Filter, Kept, Visible;
    var es := s.system + s.messages;
    assert AllVisible(es);
    FilterFixesExactlyVisible(es);
    MergeFixesExactlyMerged(es, NoTag);
    MergeShrinks(es, NoTag);
    TruncateShrinks(Merge(es, NoTag));
    TruncateIsStableReordering(es);
    KeptBehindSystem(s.system, s.messages);
    MergedFormSplits(s.system, s.messages);
  }

  /** The padding: the least number of tokens that is at least four thirds of the raw count. */
  lemma PaddedIsFourThirds(raw: nat)
    requires 4 * raw <= USIZE_MAX
    ensures 3 * Padded(raw) >= 4 * raw && forall n: nat | 3 * n >= 4 * raw :: n >= Padded(raw)
  {
  }

  /** A text counts for the least number of tokens, and at least one, that has four characters
      to each. */
  lemma TextTokensAreQuarters(text: string)
    ensures TextTokens(text) >= 1 && 4 * TextTokens(text) >= |text|
    ensures forall n: nat | n >= 1 && 4 * n >= |text| :: n >= TextTokens(text)
  {
  }

  /** The raw estimate is six tokens for every message and what its blocks cost: twelve for
      the form of a call, and every text that is sent. */
  lemma MessageCost<T>(e: Entry<T>)
    ensures RawTokens([e]) == 6 + ContentsTokens(e.message.content)
    ensures forall c: Content ::
              ContentsTokens([c]) ==
                match c
                case Text(text) => TextTokens(text)
                case Image(base64, _, _) => if base64 == [] then 1 else DivCeil(Utf8.Utf8Len(base64), 4)
                case ToolCall(callId, name, arguments, rawArguments) =>
                  12 + TextTokens(callId) + TextTokens(name)
                  + TextTokens(if rawArguments.None? then arguments else rawArguments.value)
                case ToolResult(toolCallId, output, _) => TextTokens(toolCallId) + TextTokens(output)
  {
    assert [e][1..] == [];
    forall c: Content
      ensures ContentsTokens([c]) == ContentTokens(c)
    {
      assert [c][1..] == [];
    }
    forall c: Content | c.Image? && c.base64 != []
      ensures Utf8.Utf8Len(c.base64) >= 1
    {
      NotFree(c.base64);
    }
  }

  lemma NotFree(text: string)
    requires text != []
    ensures Utf8.Utf8Len(text) >= 1
  {
  }

  lemma PaddedGrows(a: nat, b: nat)
    requires 4 * b <= USIZE_MAX
    ensures a < b ==> Padded(a) < Padded(b)
    ensures a <= b ==> Padded(a) <= Padded(b)
  {
  }

  /** Where no anchor is used, for want of one or because it is of another model, and below
      saturation, the two estimates agree exactly when nothing of the snapshot is left to
      merge and every round in it settles. */
  lemma UnanchoredFastPathExact(s: ContextSnapshot, tools: nat, window: nat)
    requires SystemMessages(s.system) && AllVisible(s.messages)
    requires s.anchor.None? || s.anchor.value.modelContextWindow != window
    requires 4 * RawTokens(s.system + s.messages) <= USIZE_MAX
    requires MessageTokens(s.system + s.messages) + tools <= USIZE_MAX
    ensures EstimateOwnInputTokens(s, tools, window)
         == EstimateInputTokens(s, RequestMessages(s, s.messages), tools, window)
       <==> MergedForm(s.messages) && Kept(s.messages) == |s.messages|
  {
    hide RawTokens, Normalise, Kept, MergedForm, Visible;
    var es := s.system + s.messages;
    assert AllVisible(es);
    NormaliseTokens(es);
    OwnRequestLength(s);
  }

  // ---------------------------------------------------------------- exactness with an anchor

  /** Both estimates in numbers, below saturation: the padded cost of everything that is sent,
      or what the anchor stands for and the padded cost of what follows it; and the tools. */
  lemma EstimatesInNumbers(s: ContextSnapshot, request: seq<Plain>, tools: nat, window: nat)
    requires MessageTokens(s.system + s.messages) + tools <= USIZE_MAX && MessageTokens(request) + tools <= USIZE_MAX
    ensures s.anchor.None? || s.anchor.value.modelContextWindow != window ==>
              && EstimateOwnInputTokens(s, tools, window) == MessageTokens(s.system + s.messages) + tools
              && EstimateInputTokens(s, request, tools, window) == MessageTokens(request) + tools
    ensures s.anchor.Some? && AnchorInRange(s) && s.anchor.value.modelContextWindow == window ==>
              var a := s.anchor.value;
              var rest := s.messages[a.coveredMessageCount..];
              a.contextTokens + MessageTokens(rest) + tools <= USIZE_MAX ==>
                EstimateOwnInputTokens(s, tools, window) == a.contextTokens + MessageTokens(rest) + tools
  {
    hide MessageTokens;
  }

  /** What the materialising estimate verifies and the fast path takes for granted: the
      own request begins with the system messages and the covered messages. */
  ghost predicate CoveredIsPrefix(s: ContextSnapshot)
    requires s.anchor.Some? && AnchorInRange(s)
  {
    s.system + s.messages[..s.anchor.value.coveredMessageCount] <= RequestMessages(s, s.messages)
  }

  /** Whether the two estimates agree when the anchor stands for `n` tokens. */
  ghost predicate AgreeAt(s: ContextSnapshot, n: nat, tools: nat, window: nat)
    requires s.anchor.Some?
  {
    var t := s.(anchor := Some(s.anchor.value.(contextTokens := n)));
    EstimateOwnInputTokens(t, tools, window) == EstimateInputTokens(t, RequestMessages(t, t.messages), tools, window)
  }

  /** The estimate of the own request, by what its prefix check finds. */
  lemma AnchoredEstimate(s: ContextSnapshot, n: nat, tools: nat, window: nat)
    requires s.anchor.Some? && AnchorInRange(s) && s.anchor.value.modelContextWindow == window
    requires s.anchor.value.contextTokens == n
    ensures var request := RequestMessages(s, s.messages);
            var prefix := s.system + s.messages[..s.anchor.value.coveredMessageCount];
            EstimateInputTokens(s, request, tools, window) ==
              if prefix <= request
              then SaturatingAdd(SaturatingAdd(n, MessageTokens(request[|prefix|..])), tools)
              else SaturatingAdd(MessageTokens(request), tools)
  {
    hide MessageTokens, RequestMessages, SaturatingAdd;
    var request := RequestMessages(s, s.messages);
    var covered := s.messages[..s.anchor.value.coveredMessageCount];
    var prefix, k := s.system + covered, |s.system|;
    if |prefix| <= |request| && request[..k] == s.system && request[k..|prefix|] == covered {
      assert request[..|prefix|] == request[..k] + request[k..|prefix|];
    }
    if prefix <= request {
      assert request[..|prefix|] == prefix;
      assert request[..k] == prefix[..k] == s.system;
      assert request[k..|prefix|] == prefix[k..] == covered;
    }
  }

  /** The tokens behind the covered messages: the request has as many of them as the
      snapshot exactly when nothing is left to merge and every round settles. */
  lemma TrailingTokens(s: ContextSnapshot)
    requires SystemMessages(s.system) && AllVisible(s.messages)
    requires s.anchor.Some? && AnchorInRange(s)
    ensures var request := RequestMessages(s, s.messages);
            var covered := s.anchor.value.coveredMessageCount;
            var n := |s.system| + covered;
            && RawTokens(request) <= RawTokens(s.system + s.messages)
            && RawTokens(s.messages[covered..]) <= RawTokens(s.system + s.messages)
            && (CoveredIsPrefix(s) ==>
                  && RawTokens(request[n..]) <= RawTokens(s.messages[covered..])
                  && (RawTokens(request[n..]) == RawTokens(s.messages[covered..])
                      <==> MergedForm(s.messages) && Kept(s.messages) == |s.messages|))
  {
    hide RawTokens, Normalise, Kept, MergedForm, Visible;
    var es, covered := s.system + s.messages, s.anchor.value.coveredMessageCount;
    var prefix, request := s.system + s.messages[..covered], RequestMessages(s, s.messages);
    assert AllVisible(es);
    NormaliseTokens(es);
    OwnRequestLength(s);
    assert es == prefix + s.messages[covered..];
    RawTokensSplit(prefix, s.messages[covered..]);
    if CoveredIsPrefix(s) {
      assert request == prefix + request[|prefix|..];
      RawTokensSplit(prefix, request[|prefix|..]);
    }
  }

  /** With an anchor, and below saturation: if the covered messages are a prefix of the own
      request, the estimates agree exactly when nothing is left to merge and every round
      settles; if they are not, exactly when the anchor happens to make up the difference,
      so at two successive token counts they never both agree. */
  lemma AnchoredFastPathExact(s: ContextSnapshot, n: nat, tools: nat, window: nat)
    requires SystemMessages(s.system) && AllVisible(s.messages)
    requires s.anchor.Some? && AnchorInRange(s) && s.anchor.value.modelContextWindow == window
    requires 4 * RawTokens(s.system + s.messages) <= USIZE_MAX
    requires n + 1 + MessageTokens(s.system + s.messages) + tools <= USIZE_MAX
    ensures CoveredIsPrefix(s) ==>
              (AgreeAt(s, n, tools, window) <==> MergedForm(s.messages) && Kept(s.messages) == |s.messages|)
    ensures !CoveredIsPrefix(s) ==>
              (AgreeAt(s, n, tools, window) <==>
                 n + MessageTokens(s.messages[s.anchor.value.coveredMessageCount..])
                 == MessageTokens(RequestMessages(s, s.messages)))
    ensures AgreeAt(s, n, tools, window) && AgreeAt(s, n + 1, tools, window)
       <==> CoveredIsPrefix(s) && MergedForm(s.messages) && Kept(s.messages) == |s.messages|
  {
    AgreeAtExactly(s, n, tools, window);
    AgreeAtExactly(s, n + 1, tools, window);
  }

  lemma AgreeAtExactly(s: ContextSnapshot, n: nat, tools: nat, window: nat)
    requires SystemMessages(s.system) && AllVisible(s.messages)
    requires s.anchor.Some? && AnchorInRange(s) && s.anchor.value.modelContextWindow == window
    requires 4 * RawTokens(s.system + s.messages) <= USIZE_MAX
    requires n + MessageTokens(s.system + s.messages) + tools <= USIZE_MAX
    ensures CoveredIsPrefix(s) ==>
              (AgreeAt(s, n, tools, window) <==> MergedForm(s.messages) && Kept(s.messages) == |s.messages|)
    ensures !CoveredIsPrefix(s) ==>
              (AgreeAt(s, n, tools, window) <==>
                 n + MessageTokens(s.messages[s.anchor.value.coveredMessageCount..])
                 == MessageTokens(RequestMessages(s, s.messages)))
  {
    hide RawTokens, Normalise, Kept, MergedForm, Visible, Padded, EstimateInputTokens;
    var covered := s.anchor.value.coveredMessageCount;
    var t := s.(anchor := Some(s.anchor.value.(contextTokens := n)));
    var request := RequestMessages(s, s.messages);
    assert RequestMessages(t, t.messages) == request;
    AnchoredEstimate(t, n, tools, window);
    TrailingTokens(s);
    var all, rest := RawTokens(s.system + s.messages), RawTokens(s.messages[covered..]);
    PaddedGrows(rest, all);
    PaddedGrows(RawTokens(request), all);
    if CoveredIsPrefix(s) {
      PaddedGrows(RawTokens(request[|s.system| + covered..]), rest);
    }
  }
}
