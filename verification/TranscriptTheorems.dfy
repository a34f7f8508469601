/** What the three passes and the whole normalisation guarantee, for every transcript: what
    they never lose, invent or reorder, which inputs they leave alone, and the exact
    conditions under which the output is legal and normalising again is without effect.
    Inputs outside of those conditions are in module `TranscriptExamples`.
 */
module TranscriptTheorems {
  import opened Transcript
  import opened TranscriptLaws
  import opened Wrappers

  // ---------------------------------------------------------------- truncation moves, never loses

  /** How many entries truncation keeps. */
  function Kept<T>(es: seq<Entry<T>>): nat
    decreases |es|
  {
    if es == [] || es[0].IsTool() then 0
    else if !es[0].Calls() then 1 + Kept(es[1..])
    else
      var round := Opened(es);
      if round.Unsettled? then 0
      else
        SettleShrinks(es[0].Asked(), {}, es[1..]);
        1 + |round.tools| + |round.bystanders| + Kept(round.rest)
  }

  /** The kept entries end where the input ends, or before a result that no round
      awaits, or before a call whose round never settles. */
  ghost predicate CutHere<T>(es: seq<Entry<T>>, n: nat)
    requires n <= |es|
  {
    || n == |es|
    || es[n].IsTool()
    || (es[n].Calls() && Opened(es[n..]).Unsettled?)
  }

  lemma {:induction false} ToolsSplit<T>(a: seq<Entry<T>>, b: seq<Entry<T>>)
    ensures Tools(a + b) == Tools(a) + Tools(b)
    ensures NonTools(a + b) == NonTools(a) + NonTools(b)
  {
    if a == [] {
      assert a + b == b;
    } else {
      assert (a + b)[0] == a[0] && (a + b)[1..] == a[1..] + b;
      ToolsSplit(a[1..], b);
      Assoc(if a[0].IsTool() then [a[0]] else [], Tools(a[1..]), Tools(b));
      Assoc(if a[0].IsTool() then [] else [a[0]], NonTools(a[1..]), NonTools(b));
    }
  }

  /** Truncation keeps one prefix of its input: its tool messages in their order and
      its other messages in their order.  The prefix ends only where it has to. */
  lemma {:induction false} TruncateIsStableReordering<T>(es: seq<Entry<T>>)
    ensures var n := Kept(es);
            && n <= |es| && CutHere(es, n) && |Truncate(es)| == n
            && Tools(Truncate(es)) == Tools(es[..n])
            && NonTools(Truncate(es)) == NonTools(es[..n])
    decreases |es|
  {
    hide Settle, Tools, NonTools;
    if es == [] || es[0].IsTool() {
      assert es[..0] == [];
    } else if !es[0].Calls() {
      TruncateIsStableReordering(es[1..]);
      var n := Kept(es[1..]);
      assert es[..1 + n] == [es[0]] + es[1..][..n];
      assert es[1..][n..] == es[1 + n..];
      ToolsSplit([es[0]], es[1..][..n]);
      ToolsSplit([es[0]], Truncate(es[1..]));
    } else if Opened(es).Unsettled? {
      assert es[..0] == [] && es[0..] == es;
    } else {
      ReorderRound(es);
    }
  }

  lemma {:induction false} ReorderRound<T>(es: seq<Entry<T>>)
    requires es != [] && es[0].Calls() && Opened(es).Settled?
    ensures var n := Kept(es);
            && n <= |es| && CutHere(es, n) && |Truncate(es)| == n
            && Tools(Truncate(es)) == Tools(es[..n])
            && NonTools(Truncate(es)) == NonTools(es[..n])
    decreases |es|, 0
  {
    hide Settle, Tools, NonTools, Truncate, CutHere, Kept;
    TruncateUnfolds(es);
    KeptRound(es);
    var round := Opened(es);
    var k, m := |round.tools| + |round.bystanders|, Kept(round.rest);
    SettleSplits(es[0].Asked(), {}, es[1..]);
    SettleConsumes(es[0].Asked(), {}, es[1..]);
    TruncateIsStableReordering(round.rest);
    assert round.rest == es[1 + k..];
    CutShifts(es, 1 + k, m);
    RoundSlices(es, k, m);
    Regroup([es[0]], es[1..][..k], Truncate(round.rest), round.rest[..m]);
  }

  lemma KeptRound<T>(es: seq<Entry<T>>)
    requires es != [] && es[0].Calls() && Opened(es).Settled?
    ensures Kept(es) == 1 + |Opened(es).tools| + |Opened(es).bystanders| + Kept(Opened(es).rest)
  {
    hide Settle;
  }

  lemma {:induction false} RoundSlices<T>(es: seq<Entry<T>>, k: nat, m: nat)
    requires 1 + k + m <= |es|
    ensures es[..1 + k + m] == [es[0]] + (es[1..][..k] + es[1 + k..][..m])
  {
  }

  lemma CutShifts<T>(es: seq<Entry<T>>, k: nat, m: nat)
    requires k + m <= |es| && CutHere(es[k..], m)
    ensures CutHere(es, k + m)
  {
    hide Settle;
    assert es[k..][m..] == es[k + m..];
  }

  /** Moving the tool messages of a stretch to its front changes neither order. */
  lemma Regroup<T>(e: seq<Entry<T>>, stretch: seq<Entry<T>>, x: seq<Entry<T>>, y: seq<Entry<T>>)
    requires Tools(x) == Tools(y) && NonTools(x) == NonTools(y)
    requires AllTools(Tools(stretch)) && NoTools(NonTools(stretch))
    ensures Tools(e + (Tools(stretch) + (NonTools(stretch) + x))) == Tools(e + (stretch + y))
    ensures NonTools(e + (Tools(stretch) + (NonTools(stretch) + x))) == NonTools(e + (stretch + y))
  {
    hide Tools, NonTools;
    var t, b := Tools(stretch), NonTools(stretch);
    ToolsSplit(e, stretch + y);
    ToolsSplit(stretch, y);
    ToolsSplit(e, t + (b + x));
    ToolsSplit(t, b + x);
    ToolsSplit(b, x);
    ToolsOfTools(t);
    ToolsOfTools(b);
    assert [] + Tools(x) == Tools(x);
    assert [] + (b + NonTools(x)) == b + NonTools(x);
  }

  // ---------------------------------------------------------------- merging

  /** The content blocks of a transcript in order, each with the role it is sent under. */
  function Blocks<T>(es: seq<Entry<T>>): seq<(Role, Content)> {
    if es == [] then []
    else seq(|es[0].message.content|, i requires 0 <= i < |es[0].message.content| =>
                                        (es[0].message.role, es[0].message.content[i])) + Blocks(es[1..])
  }

  ghost predicate MergedForm<T>(es: seq<Entry<T>>) {
    forall i | 0 < i < |es| :: !Mergeable(es[i - 1], es[i])
  }

  ghost predicate AllVisible<T>(es: seq<Entry<T>>) {
    forall i | 0 <= i < |es| :: Visible(es[i].message)
  }

  /** Merging regroups content blocks; it neither loses nor reorders any. */
  lemma {:induction false} MergeConservesBlocks<T>(es: seq<Entry<T>>, join: (T, T) -> T)
    ensures Blocks(Merge(es, join)) == Blocks(es)
    decreases |es|
  {
    if |es| > 1 {
      if Mergeable(es[0], es[1]) {
        var ab := Absorb(es[0], es[1], join);
        MergeConservesBlocks([ab] + es[2..], join);
        BlocksUnfold(es);
        BlocksUnfold(es[1..]);
        assert es[1..][1..] == es[2..];
        BlocksUnfold([ab] + es[2..]);
        assert ([ab] + es[2..])[1..] == es[2..];
        assert Blocks([ab]) == Blocks([es[0]]) + Blocks([es[1]]) by {
          BlocksUnfold([ab]); BlocksUnfold([es[0]]); BlocksUnfold([es[1]]);
        }
        Assoc(Blocks([es[0]]), Blocks([es[1]]), Blocks(es[2..]));
      } else {
        MergeConservesBlocks(es[1..], join);
      }
    }
  }

  lemma BlocksUnfold<T>(es: seq<Entry<T>>)
    requires es != []
    ensures Blocks(es) == Blocks([es[0]]) + Blocks(es[1..])
  {
    assert [es[0]][1..] == [];
    assert Blocks([es[0]]) + Blocks(es[1..]) == Blocks(es);
  }

  lemma MergeShrinks<T>(es: seq<Entry<T>>, join: (T, T) -> T)
    ensures |Merge(es, join)| <= |es|
    decreases |es|
  {
  }

  lemma MergedFormSplits<T>(a: seq<Entry<T>>, b: seq<Entry<T>>)
    ensures MergedForm(a + b) <==>
              && MergedForm(a) && MergedForm(b)
              && (a == [] || b == [] || !Mergeable(a[|a| - 1], b[0]))
  {
    var c := a + b;
    if MergedForm(c) {
      forall i | 0 < i < |a| ensures !Mergeable(a[i - 1], a[i]) { assert a[i - 1] == c[i - 1] && a[i] == c[i]; }
      forall i | 0 < i < |b| ensures !Mergeable(b[i - 1], b[i]) {
        assert b[i - 1] == c[i + |a| - 1] && b[i] == c[i + |a|];
      }
      if a != [] && b != [] { assert a[|a| - 1] == c[|a| - 1] && b[0] == c[|a|]; }
    }
  }

  /** Merging leaves a transcript alone exactly when no two neighbours are mergeable. */
  lemma {:induction false} MergeFixesExactlyMerged<T>(es: seq<Entry<T>>, join: (T, T) -> T)
    ensures Merge(es, join) == es <==> MergedForm(es)
    ensures |Merge(es, join)| == |es| ==> Merge(es, join) == es
    decreases |es|
  {
    if |es| > 1 {
      MergedFormSplits([es[0]], es[1..]);
      assert [es[0]] + es[1..] == es;
      if Mergeable(es[0], es[1]) {
        MergeShrinks([Absorb(es[0], es[1], join)] + es[2..], join);
      } else {
        MergeFixesExactlyMerged(es[1..], join);
        assert Merge(es, join)[1..] == Merge(es[1..], join);
      }
    }
  }

  /** A text message between an assistant message and a tool call: the call is merged
      into the text, and the two into the message before only on the next pass. */
  ghost predicate StrandsAt<T>(es: seq<Entry<T>>, i: int) {
    0 <= i < |es| - 2 && es[i].IsAssistant() && es[i + 1].IsAssistant() && !es[i + 1].Calls() && es[i + 2].Calls()
  }

  ghost predicate Stranded<T>(es: seq<Entry<T>>) {
    exists i :: StrandsAt(es, i)
  }

  lemma StrandedUnfolds<T>(es: seq<Entry<T>>)
    requires |es| >= 1
    ensures Stranded(es) <==> StrandsAt(es, 0) || Stranded(es[1..])
  {
    forall i ensures StrandsAt(es[1..], i) <==> 0 <= i && StrandsAt(es, i + 1) {}
    if i :| StrandsAt(es, i) && i > 0 {
      assert StrandsAt(es[1..], i - 1);
    }
  }

  lemma AbsorbCalls<T>(a: Entry<T>, b: Entry<T>, join: (T, T) -> T)
    requires Mergeable(a, b)
    ensures Absorb(a, b, join).Calls()
  {
    var id :| id in b.Asked();
    var c :| c in b.message.content && c.ToolCall? && c.callId == id;
    assert c in Absorb(a, b, join).message.content;
    assert id in Absorb(a, b, join).Asked();
  }

  /** One merge pass is enough exactly when no text message is stranded. */
  lemma {:induction false} MergeOnceIsEnough<T>(es: seq<Entry<T>>, join: (T, T) -> T)
    ensures MergedForm(Merge(es, join)) <==> !Stranded(es)
    ensures es != [] ==>
              && Merge(es, join) != []
              && Merge(es, join)[0].IsAssistant() == es[0].IsAssistant()
              && (Merge(es, join)[0].Calls() <==> es[0].Calls() || (|es| > 1 && Mergeable(es[0], es[1])))
    decreases |es|
  {
    if |es| > 1 {
      StrandedUnfolds(es);
      if Mergeable(es[0], es[1]) {
        var ab := Absorb(es[0], es[1], join);
        var next := [ab] + es[2..];
        AbsorbCalls(es[0], es[1], join);
        MergeOnceIsEnough(next, join);
        StrandedUnfolds(next);
        StrandedUnfolds(es[1..]);
        assert next[1..] == es[1..][1..];
      } else {
        MergeOnceIsEnough(es[1..], join);
        MergedFormSplits([es[0]], Merge(es[1..], join));
      }
    }
  }

  // ---------------------------------------------------------------- filtering

  lemma {:induction false} FilterFixesExactlyVisible<T>(es: seq<Entry<T>>)
    ensures AllVisible(Filter(es))
    ensures |Filter(es)| <= |es|
    ensures |Filter(es)| == |es| <==> AllVisible(es)
    ensures AllVisible(es) ==> Filter(es) == es
  {
    if es != [] {
      FilterFixesExactlyVisible(es[1..]);
      assert AllVisible(es) <==> Visible(es[0].message) && AllVisible(es[1..]) by {
        assert forall i | 0 < i < |es| :: es[i] == es[1..][i - 1];
      }
    }
  }

  lemma AbsorbVisible<T>(a: Entry<T>, b: Entry<T>, join: (T, T) -> T)
    requires Visible(a.message)
    ensures Visible(Absorb(a, b, join).message)
  {
    var m := Absorb(a, b, join).message;
    if i :| 0 <= i < |a.message.content| && ContentIsVisible(a.message.content[i]) {
      assert m.content[i] == a.message.content[i];
    }
  }

  lemma {:induction false} MergeVisible<T>(es: seq<Entry<T>>, join: (T, T) -> T)
    requires AllVisible(es)
    ensures AllVisible(Merge(es, join))
    decreases |es|
  {
    if |es| > 1 {
      if Mergeable(es[0], es[1]) {
        AbsorbVisible(es[0], es[1], join);
        MergeVisible([Absorb(es[0], es[1], join)] + es[2..], join);
      } else {
        MergeVisible(es[1..], join);
      }
    }
  }

  /** Everything truncation keeps was there. */
  lemma {:induction false} TruncateMembers<T>(es: seq<Entry<T>>, e: Entry<T>)
    requires e in Truncate(es)
    ensures e in es
  {
    TruncateIsStableReordering(es);
    var n := Kept(es);
    if e.IsTool() {
      ToolsMember(Truncate(es), e);
      ToolsMember(es[..n], e);
    } else {
      ToolsMember(Truncate(es), e);
      ToolsMember(es[..n], e);
    }
  }

  lemma {:induction false} ToolsMember<T>(es: seq<Entry<T>>, e: Entry<T>)
    ensures e in es <==> (if e.IsTool() then e in Tools(es) else e in NonTools(es))
  {
    if es != [] {
      ToolsMember(es[1..], e);
      assert e in es <==> e == es[0] || e in es[1..];
    }
  }

  lemma NormaliseVisible<T>(es: seq<Entry<T>>, join: (T, T) -> T)
    ensures AllVisible(Normalise(es, join))
  {
    hide Truncate, Merge, Filter, Visible;
    FilterFixesExactlyVisible(es);
    var m := Merge(Filter(es), join);
    MergeVisible(Filter(es), join);
    forall i | 0 <= i < |Truncate(m)|
      ensures Visible(Truncate(m)[i].message)
    {
      TruncateMembers(m, Truncate(m)[i]);
    }
  }

  // ---------------------------------------------------------------- seams

  /** The next kept message, if any, is a tool call. */
  ghost predicate CallFollows<T>(es: seq<Entry<T>>) {
    es != [] && es[0].Calls() && Opened(es).Settled?
  }

  /** No kept tool call comes to stand behind an assistant message: neither directly, nor
      among the bystanders of a round, nor because that message waited out the end of the
      round before it. */
  ghost predicate SeamFree<T>(es: seq<Entry<T>>)
    decreases |es|
  {
    if es == [] || es[0].IsTool() then true
    else if !es[0].Calls() then
      !(es[0].IsAssistant() && CallFollows(es[1..])) && SeamFree(es[1..])
    else
      var round := Opened(es);
      round.Settled? ==>
        (SettleShrinks(es[0].Asked(), {}, es[1..]);
         var b := round.bystanders;
         && MergedForm(b)
         && !(b != [] && b[|b| - 1].IsAssistant() && CallFollows(round.rest))
         && SeamFree(round.rest))
  }

  lemma CallFollowsTruncate<T>(es: seq<Entry<T>>)
    ensures CallFollows(es) <==> Truncate(es) != [] && Truncate(es)[0].Calls()
  {
    hide Settle;
  }

  /** Truncation leaves mergeable neighbours exactly at the seams. */
  lemma {:induction false} TruncateMergedForm<T>(es: seq<Entry<T>>)
    ensures MergedForm(Truncate(es)) <==> SeamFree(es)
    decreases |es|
  {
    hide Settle;
    if es == [] || es[0].IsTool() {
    } else if !es[0].Calls() {
      TruncateMergedForm(es[1..]);
      CallFollowsTruncate(es[1..]);
      MergedFormSplits([es[0]], Truncate(es[1..]));
    } else if Opened(es).Settled? {
      var round := Opened(es);
      SettleConsumes(es[0].Asked(), {}, es[1..]);
      TruncateMergedForm(round.rest);
      CallFollowsTruncate(round.rest);
      MergedRound(es[0], round.tools, round.bystanders, Truncate(round.rest));
    }
  }

  lemma MergedRound<T>(e: Entry<T>, t: seq<Entry<T>>, b: seq<Entry<T>>, more: seq<Entry<T>>)
    requires t != [] && AllTools(t) && NoTools(b)
    ensures MergedForm([e] + (t + (b + more))) <==>
              MergedForm(b) && MergedForm(more) && !(b != [] && more != [] && Mergeable(b[|b| - 1], more[0]))
  {
    MergedFormSplits(b, more);
    assert MergedForm(t);
    MergedFormSplits(t, b + more);
    assert b + more != [] ==> !Mergeable(t[|t| - 1], (b + more)[0]);
    MergedFormSplits([e], t + (b + more));
    assert (t + (b + more))[0] == t[0];
  }

  // ---------------------------------------------------------------- the theorems

  /** The output satisfies the tool-call protocol exactly when, after merging, no tool
      call is made in the course of a round that settles. */
  lemma NormaliseIsLegal<T>(es: seq<Entry<T>>, join: (T, T) -> T)
    ensures Legal(Normalise(es, join)) <==> QuietRounds(Merge(Filter(es), join))
  {
    TruncateIsLegal(Merge(Filter(es), join));
  }

  /** Normalisation returns a transcript unchanged exactly when it is visible, merged and
      legal. */
  lemma NormaliseFixesExactly<T>(es: seq<Entry<T>>, join: (T, T) -> T)
    ensures Normalise(es, join) == es <==> AllVisible(es) && MergedForm(es) && Legal(es)
  {
    hide Truncate, Merge, Filter, Legal, MergedForm;
    FilterFixesExactlyVisible(es);
    MergeShrinks(Filter(es), join);
    MergeFixesExactlyMerged(Filter(es), join);
    TruncateShrinks(Merge(Filter(es), join));
    TruncateFixesExactlyLegal(es);
  }

  /** Normalising twice is normalising once exactly when no tool call is made inside a
      settled round and no seam remains. */
  lemma NormaliseIsIdempotent<T>(es: seq<Entry<T>>, join: (T, T) -> T)
    ensures Normalise(Normalise(es, join), join) == Normalise(es, join)
       <==> QuietRounds(Merge(Filter(es), join)) && SeamFree(Merge(Filter(es), join))
  {
    hide Truncate, Merge, Filter, Legal, MergedForm, QuietRounds, SeamFree;
    var m := Merge(Filter(es), join);
    NormaliseFixesExactly(Normalise(es, join), join);
    NormaliseVisible(es, join);
    TruncateIsLegal(m);
    TruncateMergedForm(m);
  }

  /** Only messages that are not the assistant's arrive while a round that settles is open. */
  ghost predicate OnlyOthersInterject<T>(es: seq<Entry<T>>)
    decreases |es|
  {
    if es == [] || es[0].IsTool() then true
    else if !es[0].Calls() then OnlyOthersInterject(es[1..])
    else
      var round := Opened(es);
      round.Settled? ==>
        (SettleShrinks(es[0].Asked(), {}, es[1..]);
         (forall i | 0 <= i < |round.bystanders| :: !round.bystanders[i].IsAssistant())
         && OnlyOthersInterject(round.rest))
  }

  lemma {:induction false} InterjectionsAreQuiet<T>(es: seq<Entry<T>>)
    requires OnlyOthersInterject(es)
    ensures QuietRounds(es)
    ensures MergedForm(es) ==> SeamFree(es)
    decreases |es|
  {
    hide Settle;
    if es == [] || es[0].IsTool() {
    } else if !es[0].Calls() {
      MergedFormSplits([es[0]], es[1..]);
      assert es == [es[0]] + es[1..];
      InterjectionsAreQuiet(es[1..]);
    } else if Opened(es).Settled? {
      var round := Opened(es);
      SettleConsumes(es[0].Asked(), {}, es[1..]);
      var k := 1 + |round.tools| + |round.bystanders|;
      assert es[1..][k - 1..] == es[k..];
      MergedFormSplits(es[..k], es[k..]);
      assert es == es[..k] + es[k..];
      InterjectionsAreQuiet(round.rest);
    }
  }

  /** When the assistant does not speak while its tools run, the output is legal; when
      moreover no text message is stranded in the input, normalising again is without
      effect. */
  lemma SilentAssistantIsEnough<T>(es: seq<Entry<T>>, join: (T, T) -> T)
    requires OnlyOthersInterject(Merge(Filter(es), join))
    ensures Legal(Normalise(es, join))
    ensures !Stranded(Filter(es)) ==> Normalise(Normalise(es, join), join) == Normalise(es, join)
  {
    hide Truncate, Merge, Filter, Legal, MergedForm, QuietRounds, SeamFree, Stranded, OnlyOthersInterject;
    InterjectionsAreQuiet(Merge(Filter(es), join));
    NormaliseIsLegal(es, join);
    MergeOnceIsEnough(Filter(es), join);
    NormaliseIsIdempotent(es, join);
  }
}
