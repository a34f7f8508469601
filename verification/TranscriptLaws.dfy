/** The tool-call protocol.

    `Legal` states it by positions only, `LegalFrom` by recursion; they agree.  The lemmas
    show what a settled round consumes, when truncation leaves a legal transcript, and which
    transcripts it leaves alone.
 */
module TranscriptLaws {
  import opened Transcript

  // ---------------------------------------------------------------- the protocol

  ghost predicate Answered<T>(ts: seq<Entry<T>>, id: string) {
    exists j :: 0 <= j < |ts| && id in ts[j].Results()
  }

  /** The tool messages `ts` answer the calls `ids`: each has results, no two share an
      id, and the ids answered are exactly the ids called. */
  ghost predicate AnswersExactly<T>(ids: set<string>, ts: seq<Entry<T>>) {
    && (forall j | 0 <= j < |ts| :: ts[j].IsTool() && ts[j].Results() != {})
    && (forall j, k | 0 <= j < k < |ts| ::
          ts[j].Results() !! ts[k].Results())
    && (forall j | 0 <= j < |ts| :: ts[j].Results() <= ids)
    && (forall id | id in ids :: Answered(ts, id))
  }

  /** The calling message at `i` is answered by exactly the messages between `i` and `k`. */
  ghost predicate IsRound<T>(es: seq<Entry<T>>, i: int, k: int) {
    && 0 <= i < k <= |es|
    && es[i].Calls()
    && AnswersExactly(es[i].Asked(), es[i + 1..k])
  }

  ghost predicate HasRound<T>(es: seq<Entry<T>>, i: int) {
    exists k :: IsRound(es, i, k)
  }

  ghost predicate InRound<T>(es: seq<Entry<T>>, j: int) {
    exists i, k :: i < j < k && IsRound(es, i, k)
  }

  /** The tool-call protocol: every calling message is followed at once by its answers,
      and every tool message is one of the answers of such a round. */
  ghost predicate Legal<T>(es: seq<Entry<T>>) {
    && (forall i | 0 <= i < |es| && es[i].Calls() :: HasRound(es, i))
    && (forall j | 0 <= j < |es| && es[j].IsTool() :: InRound(es, j))
  }

  /** The same, read from the front. */
  ghost predicate LegalFrom<T>(es: seq<Entry<T>>)
    decreases |es|
  {
    if es == [] then true
    else if es[0].IsTool() then false
    else if !es[0].Calls() then LegalFrom(es[1..])
    else
      var round := Opened(es);
      round.Settled? && round.bystanders == [] &&
      (SettleShrinks(es[0].Asked(), {}, es[1..]);
       LegalFrom(round.rest))
  }

  // ---------------------------------------------------------------- how rounds settle

  function Tools<T>(es: seq<Entry<T>>): seq<Entry<T>> {
    if es == [] then [] else (if es[0].IsTool() then [es[0]] else []) + Tools(es[1..])
  }

  function NonTools<T>(es: seq<Entry<T>>): seq<Entry<T>> {
    if es == [] then [] else (if es[0].IsTool() then [] else [es[0]]) + NonTools(es[1..])
  }

  ghost predicate AllTools<T>(es: seq<Entry<T>>) {
    forall i | 0 <= i < |es| :: es[i].IsTool()
  }

  ghost predicate NoTools<T>(es: seq<Entry<T>>) {
    forall i | 0 <= i < |es| :: !es[i].IsTool()
  }

  lemma {:induction false} SettleConsumes<T>(ids: set<string>, answered: set<string>, es: seq<Entry<T>>)
    requires Settle(ids, answered, es).Settled?
    ensures var r := Settle(ids, answered, es);
            var n := |r.tools| + |r.bystanders|;
            && 1 <= n <= |es| && es[n - 1].IsTool()
            && r.rest == es[n..]
            && r.tools != [] && AllTools(r.tools) && NoTools(r.bystanders)
    decreases |es|
  {
    if !es[0].IsTool() {
      SettleConsumes(ids, answered, es[1..]);
    } else {
      var now := answered + es[0].Results();
      if !(ids <= now) {
        SettleConsumes(ids, now, es[1..]);
      }
    }
  }

  /** A settled round has consumed a stretch of the transcript that ends in a tool
      message, and split it into its tool messages and the others. */
  lemma {:induction false} SettleSplits<T>(ids: set<string>, answered: set<string>, es: seq<Entry<T>>)
    requires Settle(ids, answered, es).Settled?
    ensures var r := Settle(ids, answered, es);
            var n := |r.tools| + |r.bystanders|;
            && n <= |es|
            && r.tools == Tools(es[..n]) && r.bystanders == NonTools(es[..n])
    decreases |es|
  {
    SettleConsumes(ids, answered, es);
    var r := Settle(ids, answered, es);
    ConsumeFirst(es, |r.tools| + |r.bystanders| - 1);
    if !es[0].IsTool() {
      SettleSplits(ids, answered, es[1..]);
    } else {
      var now := answered + es[0].Results();
      if !(ids <= now) {
        SettleSplits(ids, now, es[1..]);
      }
    }
  }

  lemma ConsumeFirst<T>(es: seq<Entry<T>>, n: nat)
    requires n < |es|
    ensures Tools(es[..n + 1]) == (if es[0].IsTool() then [es[0]] else []) + Tools(es[1..][..n])
    ensures NonTools(es[..n + 1]) == (if es[0].IsTool() then [] else [es[0]]) + NonTools(es[1..][..n])
  {
    assert es[..n + 1][1..] == es[1..][..n];
  }

  /** The tool messages of a settled round settle it without the bystanders. */
  lemma {:induction false} ToolsSettleAlone<T>(ids: set<string>, answered: set<string>, es: seq<Entry<T>>,
                                               more: seq<Entry<T>>)
    requires Settle(ids, answered, es).Settled?
    ensures Settle(ids, answered, Settle(ids, answered, es).tools + more)
         == Settled(Settle(ids, answered, es).tools, [], more)
    decreases |es|
  {
    var tools := Settle(ids, answered, es).tools;
    if !es[0].IsTool() {
      ToolsSettleAlone(ids, answered, es[1..], more);
    } else {
      var now := answered + es[0].Results();
      assert (tools + more)[0] == es[0] && (tools + more)[1..] == tools[1..] + more;
      if !(ids <= now) {
        ToolsSettleAlone(ids, now, es[1..], more);
      }
    }
  }

  /** A message that is no tool message leaves an open round with a bystander, or
      without settlement. */
  lemma BystanderFirst<T>(ids: set<string>, answered: set<string>, es: seq<Entry<T>>)
    requires es == [] || !es[0].IsTool()
    ensures var r := Settle(ids, answered, es); r.Unsettled? || r.bystanders != []
  {
  }

  /** Ids still open: answers that continue a round in which `answered` is done. */
  ghost predicate AnswersRest<T>(ids: set<string>, answered: set<string>, ts: seq<Entry<T>>) {
    && ts != []
    && (forall j | 0 <= j < |ts| ::
          && ts[j].IsTool()
          && ts[j].Results() != {}
          && ts[j].Results() <= ids
          && ts[j].Results() !! answered)
    && (forall j, k | 0 <= j < k < |ts| ::
          ts[j].Results() !! ts[k].Results())
    && (forall id | id in ids - answered :: Answered(ts, id))
  }

  lemma {:induction false} AnswersSettle<T>(ids: set<string>, answered: set<string>, ts: seq<Entry<T>>,
                                            more: seq<Entry<T>>)
    requires AnswersRest(ids, answered, ts)
    ensures Settle(ids, answered, ts + more) == Settled(ts, [], more)
    decreases |ts|
  {
    var now := answered + ts[0].Results();
    var es := ts + more;
    assert es[0] == ts[0] && es[1..] == ts[1..] + more;
    assert Answers(ts[0], ids, answered);
    if |ts| == 1 {
      forall id | id in ids ensures id in now {
        if id !in answered { assert Answered(ts, id); }
      }
      assert ts[1..] + more == more;
    } else {
      var id :| id in ts[1].Results();
      assert ts[0].Results() !! ts[1].Results();
      assert id in ids && id !in now;
      forall id | id in ids - now
        ensures Answered(ts[1..], id)
      {
        assert Answered(ts, id);
        var j :| 0 <= j < |ts| && id in ts[j].Results();
        assert ts[1..][j - 1] == ts[j];
      }
      AnswersSettle(ids, now, ts[1..], more);
      assert [ts[0]] + ts[1..] == ts;
    }
  }

  lemma AnsweredByFirstOrRest<T>(e: Entry<T>, tail: seq<Entry<T>>, id: string)
    requires id in e.Results() || Answered(tail, id)
    ensures Answered([e] + tail, id)
  {
    var ts := [e] + tail;
    if id in e.Results() {
      assert id in ts[0].Results();
    } else {
      var j :| 0 <= j < |tail| && id in tail[j].Results();
      assert ts[j + 1] == tail[j];
    }
  }

  lemma {:induction false} SettledAnswers<T>(ids: set<string>, answered: set<string>, es: seq<Entry<T>>)
    requires Settle(ids, answered, es).Settled?
    ensures AnswersRest(ids, answered, Settle(ids, answered, es).tools)
    decreases |es|
  {
    if !es[0].IsTool() {
      SettledAnswers(ids, answered, es[1..]);
    } else {
      var now := answered + es[0].Results();
      if !(ids <= now) {
        var tail := Settle(ids, now, es[1..]).tools;
        SettledAnswers(ids, now, es[1..]);
        forall id | id in ids - answered
          ensures Answered([es[0]] + tail, id)
        {
          assert id !in now ==> Answered(tail, id);
          AnsweredByFirstOrRest(es[0], tail, id);
        }
      } else {
        forall id | id in ids - answered
          ensures Answered([es[0]], id)
        {
          assert id in [es[0]][0].Results();
        }
      }
    }
  }

  // ---------------------------------------------------------------- Legal, both readings

  /** An answered call at the front, followed by `more`. */
  lemma RoundAtFront<T>(e: Entry<T>, ts: seq<Entry<T>>, more: seq<Entry<T>>)
    requires e.Calls()
    ensures AnswersExactly(e.Asked(), ts) <==> Settle(e.Asked(), {}, ts + more) == Settled(ts, [], more)
  {
    hide Settle;
    var ids := e.Asked();
    if AnswersExactly(ids, ts) {
      var id :| id in ids;
      assert Answered(ts, id);
      AnswersSettle(ids, {}, ts, more);
    }
    if Settle(ids, {}, ts + more) == Settled(ts, [], more) {
      SettledAnswers(ids, {}, ts + more);
      NothingAnswered(ids, ts);
    }
  }

  lemma NothingAnswered<T>(ids: set<string>, ts: seq<Entry<T>>)
    requires AnswersRest(ids, {}, ts)
    ensures AnswersExactly(ids, ts)
  {
    forall id | id in ids ensures Answered(ts, id) { assert id in ids - {}; }
  }

  lemma OpenedAsRound<T>(es: seq<Entry<T>>, k: int)
    requires es != [] && es[0].Calls() && 1 <= k <= |es|
    ensures IsRound(es, 0, k) <==> Opened(es) == Settled(es[1..k], [], es[k..])
  {
    hide Settle, AnswersExactly;
    assert es[1..] == es[1..k] + es[k..];
    RoundAtFront(es[0], es[1..k], es[k..]);
  }

  lemma IsRoundShifts<T>(es: seq<Entry<T>>, n: nat, i: int, k: int)
    requires n <= |es| && 0 <= i
    ensures IsRound(es[n..], i, k) <==> IsRound(es, i + n, k + n)
  {
    hide AnswersExactly;
    if i < k <= |es| - n {
      assert es[n..][i + 1..k] == es[i + n + 1..k + n];
    }
  }

  lemma HasRoundShifts<T>(es: seq<Entry<T>>, n: nat, i: nat)
    requires n <= |es|
    ensures HasRound(es[n..], i) <==> HasRound(es, i + n)
  {
    hide IsRound;
    if HasRound(es[n..], i) {
      var k :| IsRound(es[n..], i, k);
      IsRoundShifts(es, n, i, k);
    }
    if HasRound(es, i + n) {
      var k :| IsRound(es, i + n, k);
      IsRoundShifts(es, n, i, k - n);
    }
  }

  lemma InRoundLifts<T>(es: seq<Entry<T>>, n: nat, j: nat)
    requires n <= |es| && InRound(es[n..], j)
    ensures InRound(es, j + n)
  {
    hide AnswersExactly;
    var i, k :| i < j < k && IsRound(es[n..], i, k);
    IsRoundShifts(es, n, i, k);
  }

  lemma InRoundDrops<T>(es: seq<Entry<T>>, n: nat, j: nat)
    requires n <= |es| && InRound(es, j + n)
    requires forall i, k | i < n < k :: !IsRound(es, i, k)
    ensures InRound(es[n..], j)
  {
    hide AnswersExactly;
    var i, k :| i < j + n < k && IsRound(es, i, k);
    if n <= i {
      IsRoundShifts(es, n, i - n, k - n);
    }
  }

  /** Dropping a front that no round reaches across keeps the rest legal. */
  lemma LegalSuffix<T>(es: seq<Entry<T>>, n: nat)
    requires n <= |es| && Legal(es)
    requires forall i, k | i < n < k :: !IsRound(es, i, k)
    ensures Legal(es[n..])
  {
    hide IsRound, HasRound, InRound;
    var rest := es[n..];
    forall i | 0 <= i < |rest| && rest[i].Calls()
      ensures HasRound(rest, i)
    {
      assert es[i + n].Calls();
      HasRoundShifts(es, n, i);
    }
    forall j | 0 <= j < |rest| && rest[j].IsTool()
      ensures InRound(rest, j)
    {
      assert es[j + n].IsTool();
      InRoundDrops(es, n, j);
    }
  }

  lemma LegalPrepend<T>(es: seq<Entry<T>>, n: nat)
    requires n <= |es| && Legal(es[n..])
    requires forall i | 0 <= i < n && es[i].Calls() :: HasRound(es, i)
    requires forall j | 0 <= j < n && es[j].IsTool() :: InRound(es, j)
    ensures Legal(es)
  {
    hide IsRound, HasRound, InRound;
    var rest := es[n..];
    forall i | 0 <= i < |es| && es[i].Calls()
      ensures HasRound(es, i)
    {
      if n <= i {
        assert rest[i - n].Calls();
        HasRoundShifts(es, n, i - n);
      }
    }
    forall j | 0 <= j < |es| && es[j].IsTool()
      ensures InRound(es, j)
    {
      if n <= j {
        assert rest[j - n].IsTool();
        InRoundLifts(es, n, j - n);
      }
    }
  }

  /** The stretch that a round without bystanders consumed is its tool messages. */
  lemma CleanRound<T>(es: seq<Entry<T>>)
    requires es != [] && es[0].Calls() && Opened(es).Settled? && Opened(es).bystanders == []
    ensures var k := 1 + |Opened(es).tools|;
            && k <= |es|
            && Opened(es) == Settled(es[1..k], [], es[k..])
            && IsRound(es, 0, k) && AllTools(es[1..k])
  {
    hide Settle, AnswersExactly;
    var round := Opened(es);
    SettleConsumes(es[0].Asked(), {}, es[1..]);
    SettleSplits(es[0].Asked(), {}, es[1..]);
    var n := |round.tools|;
    assert es[1..][..n] == es[1..n + 1] && es[1..][n..] == es[n + 1..];
    NonToolsEmpty(es[1..n + 1]);
    OpenedAsRound(es, n + 1);
  }

  lemma {:induction false} LegalFromIsLegal<T>(es: seq<Entry<T>>)
    requires LegalFrom(es)
    ensures Legal(es)
    decreases |es|
  {
    hide Settle, AnswersExactly;
    if es == [] {
    } else if !es[0].Calls() {
      LegalFromIsLegal(es[1..]);
      LegalPrepend(es, 1);
    } else {
      CleanRound(es);
      var k := 1 + |Opened(es).tools|;
      LegalFromIsLegal(es[k..]);
      assert HasRound(es, 0);
      forall i | 0 < i < k ensures es[i].IsTool() && InRound(es, i) {
        assert es[i] == es[1..k][i - 1];
      }
      LegalPrepend(es, k);
    }
  }

  /** No two rounds overlap. */
  lemma RoundsDoNotOverlap<T>(es: seq<Entry<T>>, k: int, i: int, m: int)
    requires IsRound(es, 0, k) && i < k < m
    ensures !IsRound(es, i, m)
  {
    hide Settle;
    assert 0 < i ==> es[1..k][i - 1] == es[i];
    assert m <= |es| ==> |es[k..]| != |es[m..]|;
    if i == 0 && m <= |es| {
      OpenedAsRound(es, k);
      OpenedAsRound(es, m);
    }
  }

  lemma {:induction false} NonToolsEmpty<T>(es: seq<Entry<T>>)
    requires NonTools(es) == []
    ensures AllTools(es) && Tools(es) == es
  {
    if es != [] {
      NonToolsEmpty(es[1..]);
    }
  }

  lemma {:induction false} ToolsOfTools<T>(es: seq<Entry<T>>)
    ensures AllTools(es) ==> Tools(es) == es && NonTools(es) == []
    ensures NoTools(es) ==> Tools(es) == [] && NonTools(es) == es
  {
    if es != [] {
      ToolsOfTools(es[1..]);
      assert AllTools(es) ==> AllTools(es[1..]);
      assert NoTools(es) ==> NoTools(es[1..]);
    }
  }

  lemma {:induction false} LegalIsLegalFrom<T>(es: seq<Entry<T>>)
    requires Legal(es)
    ensures LegalFrom(es)
    decreases |es|
  {
    hide Settle, AnswersExactly;
    if es == [] {
    } else if es[0].IsTool() {
      assert false;
    } else if !es[0].Calls() {
      LegalSuffix(es, 1);
      LegalIsLegalFrom(es[1..]);
    } else {
      assert HasRound(es, 0);
      var k :| IsRound(es, 0, k);
      OpenedAsRound(es, k);
      forall i, m | i < k < m
        ensures !IsRound(es, i, m)
      {
        RoundsDoNotOverlap(es, k, i, m);
      }
      LegalSuffix(es, k);
      LegalIsLegalFrom(es[k..]);
    }
  }

  // ---------------------------------------------------------------- truncation

  /** Settled rounds in whose course no further tool call was made. */
  ghost predicate QuietRounds<T>(es: seq<Entry<T>>)
    decreases |es|
  {
    if es == [] || es[0].IsTool() then true
    else if !es[0].Calls() then QuietRounds(es[1..])
    else
      var round := Opened(es);
      round.Settled? ==>
        (SettleShrinks(es[0].Asked(), {}, es[1..]);
         (forall i | 0 <= i < |round.bystanders| :: !round.bystanders[i].Calls()) && QuietRounds(round.rest))
  }

  lemma TruncateShrinks<T>(es: seq<Entry<T>>)
    ensures |Truncate(es)| <= |es|
    decreases |es|
  {
    hide Settle;
    if es != [] && es[0].Calls() && Opened(es).Settled? {
      SettleShrinks(es[0].Asked(), {}, es[1..]);
      TruncateShrinks(Opened(es).rest);
    } else if es != [] {
      TruncateShrinks(es[1..]);
    }
  }

  /** What truncation keeps begins with the first message, or is empty. */
  lemma TruncateFront<T>(es: seq<Entry<T>>)
    ensures Truncate(es) != [] ==> es != [] && Truncate(es)[0] == es[0] && !es[0].IsTool()
  {
    hide Settle;
  }

  /** The bystanders of a round, then legal text: legal exactly if none of them calls. */
  lemma {:induction false} LegalAfterBystanders<T>(b: seq<Entry<T>>, more: seq<Entry<T>>)
    requires NoTools(b)
    requires more != [] ==> !more[0].IsTool()
    ensures LegalFrom(b + more) <==> (forall i | 0 <= i < |b| :: !b[i].Calls()) && LegalFrom(more)
    decreases |b|
  {
    hide Settle;
    if b == [] {
      assert b + more == more;
    } else {
      var es := b + more;
      assert es[0] == b[0] && es[1..] == b[1..] + more;
      if b[0].Calls() {
        BystanderFirst(b[0].Asked(), {}, es[1..]);
      } else {
        LegalAfterBystanders(b[1..], more);
        assert forall i | 0 < i < |b| :: b[i] == b[1..][i - 1];
      }
    }
  }

  lemma LegalFromRound<T>(e: Entry<T>, ts: seq<Entry<T>>, more: seq<Entry<T>>)
    requires e.Calls() && Settle(e.Asked(), {}, ts + more) == Settled(ts, [], more)
    ensures LegalFrom([e] + (ts + more)) <==> LegalFrom(more)
  {
    hide Settle;
    var es := [e] + (ts + more);
    assert es[0] == e && es[1..] == ts + more;
  }

  lemma {:induction false} TruncateLegalFrom<T>(es: seq<Entry<T>>)
    ensures LegalFrom(Truncate(es)) <==> QuietRounds(es)
    decreases |es|
  {
    hide Settle;
    if es == [] || es[0].IsTool() {
    } else if !es[0].Calls() {
      TruncateLegalFrom(es[1..]);
      assert ([es[0]] + Truncate(es[1..]))[1..] == Truncate(es[1..]);
    } else if Opened(es).Settled? {
      var ids, round := es[0].Asked(), Opened(es);
      SettleConsumes(ids, {}, es[1..]);
      var more := Truncate(round.rest);
      ToolsSettleAlone(ids, {}, es[1..], round.bystanders + more);
      LegalFromRound(es[0], round.tools, round.bystanders + more);
      TruncateLegalFrom(round.rest);
      TruncateFront(round.rest);
      LegalAfterBystanders(round.bystanders, more);
    }
  }

  /** Truncation leaves a legal transcript exactly when no tool call is made in the
      course of a round that settles. */
  lemma TruncateIsLegal<T>(es: seq<Entry<T>>)
    ensures Legal(Truncate(es)) <==> QuietRounds(es)
  {
    hide Settle, Truncate;
    TruncateLegalFrom(es);
    if Legal(Truncate(es)) { LegalIsLegalFrom(Truncate(es)); }
    if LegalFrom(Truncate(es)) { LegalFromIsLegal(Truncate(es)); }
  }

  lemma TruncateRound<T>(e: Entry<T>, ts: seq<Entry<T>>, more: seq<Entry<T>>)
    requires e.Calls() && Settle(e.Asked(), {}, ts + more) == Settled(ts, [], more)
    ensures Truncate([e] + (ts + more)) == [e] + (ts + Truncate(more))
  {
    hide Settle;
    var es := [e] + (ts + more);
    assert es[0] == e && es[1..] == ts + more;
    assert [] + Truncate(more) == Truncate(more);
  }

  lemma TruncateKeepsRound<T>(es: seq<Entry<T>>)
    requires es != [] && es[0].Calls() && Opened(es).Settled? && Opened(es).bystanders == []
    requires Truncate(Opened(es).rest) == Opened(es).rest
    ensures Truncate(es) == es
  {
    hide Settle, IsRound, AllTools, Truncate;
    CleanRound(es);
    var e, ts, more := es[0], Opened(es).tools, Opened(es).rest;
    assert es[1..] == ts + more;
    TruncateRound(e, ts, more);
    assert es == [e] + (ts + more);
  }

  lemma {:induction false} TruncateKeepsLegal<T>(es: seq<Entry<T>>)
    requires LegalFrom(es)
    ensures Truncate(es) == es
    decreases |es|
  {
    hide Settle;
    if es == [] {
    } else if !es[0].Calls() {
      TruncateKeepsLegal(es[1..]);
    } else {
      SettleConsumes(es[0].Asked(), {}, es[1..]);
      TruncateKeepsLegal(Opened(es).rest);
      TruncateKeepsRound(es);
    }
  }

  lemma {:induction false} KeptIsLegal<T>(es: seq<Entry<T>>)
    requires Truncate(es) == es
    ensures LegalFrom(es)
    decreases |es|
  {
    hide Settle;
    if es == [] {
    } else if !es[0].Calls() {
      assert Truncate(es)[1..] == Truncate(es[1..]);
      KeptIsLegal(es[1..]);
    } else {
      var round := Opened(es);
      SettleConsumes(es[0].Asked(), {}, es[1..]);
      TruncateShrinks(round.rest);
      var n := |round.tools| + |round.bystanders|;
      assert es[1..][n..] == round.rest;
      assert Truncate(es)[1 + n..] == Truncate(round.rest);
      KeptIsLegal(round.rest);
      assert es[n] == es[1..][n - 1];
      var consumed := round.tools + round.bystanders;
      assert Truncate(es)[n] == consumed[n - 1];
    }
  }

  /** Truncation leaves a transcript alone exactly when it is legal. */
  lemma TruncateFixesExactlyLegal<T>(es: seq<Entry<T>>)
    ensures Truncate(es) == es <==> Legal(es)
  {
    hide Settle, Truncate;
    if Truncate(es) == es { KeptIsLegal(es); LegalFromIsLegal(es); }
    if Legal(es) { LegalIsLegalFrom(es); TruncateKeepsLegal(es); }
  }
}
