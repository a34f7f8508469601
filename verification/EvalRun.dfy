/** Whole evaluation runs, over every order in which the cases can finish. */
module EvalRun {
  import opened EvalRunner
  import opened Wrappers

  // ---------------------------------------------------------------- what a run may report

  ghost predicate DistinctIds(cases: seq<EvalCase>) {
    forall i, j | 0 <= i < j < |cases| :: cases[i].id != cases[j].id
  }

  /** A result as kept: the outcome itself, or the outcome without its patch where keeping
      the patch would have passed the limit.  `total` is what the whole run keeps, so that
      a dropped patch does not fit beside the others even at the end. */
  predicate Settled(outcome: EvalResult, kept: EvalResult, total: nat) {
    || kept == outcome
    || (outcome.prediction.Some? && kept == Dropped(outcome) && total + PatchBytes(outcome) > MAX_RETAINED_PATCH_BYTES)
  }

  /** One result per case, in case order, with the resumed ones verbatim and within the limit. */
  ghost predicate Reports(cases: seq<EvalCase>, resumed: seq<EvalResult>, outcomes: seq<EvalResult>, report: seq<EvalResult>)
    requires |outcomes| == |cases|
  {
    && |report| == |cases|
    && (forall i | 0 <= i < |cases| :: report[i].caseId == cases[i].id)
    && (forall r | r in resumed :: r in report)
    && (forall i | 0 <= i < |cases| && cases[i].id !in Ids(resumed) :: Settled(outcomes[i], report[i], Total(report)))
    && Total(report) <= MAX_RETAINED_PATCH_BYTES
  }

  /** The checkpoint grows by reported results, and misses only those whose write failed. */
  ghost predicate Checkpoints(resumed: seq<EvalResult>, report: seq<EvalResult>, failed: set<nat>, file: seq<EvalResult>) {
    && resumed <= file
    && (forall r | r in file :: r in report)
    && (forall i | 0 <= i < |report| && i !in failed :: report[i] in file)
  }

  // ---------------------------------------------------------------- results as they arrive

  /** The results collected so far: first the resumed ones, then those of finished cases. */
  ghost predicate Collected(cases: seq<EvalCase>, resumed: seq<EvalResult>, outcomes: seq<EvalResult>, tasks: set<nat>,
                            indexed: seq<Indexed>, retained: nat)
    requires |outcomes| == |cases|
  {
    && |resumed| <= |indexed| && Results(indexed[..|resumed|]) == resumed
    && DistinctKeys(indexed)
    && (forall k | 0 <= k < |indexed| :: Placed(cases, indexed[k]))
    && (forall k | |resumed| <= k < |indexed| :: Finished(cases, resumed, outcomes, tasks, indexed[k], retained))
    && (forall i | 0 <= i < |cases| && cases[i].id !in Ids(resumed) && i !in tasks :: HasKey(indexed, i))
    && Total(Results(indexed)) == retained <= MAX_RETAINED_PATCH_BYTES
  }

  predicate Placed(cases: seq<EvalCase>, p: Indexed) {
    p.index < |cases| && p.result.caseId == cases[p.index].id
  }

  predicate Finished(cases: seq<EvalCase>, resumed: seq<EvalResult>, outcomes: seq<EvalResult>, tasks: set<nat>, p: Indexed,
                     retained: nat)
    requires |outcomes| == |cases|
  {
    p.index < |cases| && cases[p.index].id !in Ids(resumed) && p.index !in tasks && Settled(outcomes[p.index], p.result, retained)
  }

  predicate HasKey(xs: seq<Indexed>, i: nat) {
    exists k | 0 <= k < |xs| :: xs[k].index == i
  }

  /** Those of the finished results whose write to the checkpoint succeeds. */
  function Logged(xs: seq<Indexed>, failed: set<nat>): seq<Indexed> {
    if xs == [] then []
    else
      var last := xs[|xs| - 1];
      Logged(xs[..|xs| - 1], failed) + (if last.index in failed then [] else [last])
  }

  // ---------------------------------------------------------------- the run

  /** `run_all`.  `outcomes` are the results the cases would give, `failed` the cases whose
      checkpoint write fails; the finished task is chosen freely each time.  `file` is the
      checkpoint at the end, which began as `resumed`. */
  method RunAll(cases: seq<EvalCase>, resumed: seq<EvalResult>, outcomes: seq<EvalResult>, failed: set<nat>)
    returns (report: Result<seq<EvalResult>, SetupError>, file: seq<EvalResult>)
    requires |outcomes| == |cases| && forall i | 0 <= i < |cases| :: outcomes[i].caseId == cases[i].id
    ensures report.Ok? <==> Acceptable(cases, resumed)
    ensures report.Err? ==> Refuses(cases, resumed, report.error) && file == resumed
    ensures report.Ok? ==> Total(report.value) <= MAX_RETAINED_PATCH_BYTES
    ensures report.Ok? ==> (|report.value| == |cases| <==> ResumedOnce(cases, resumed))
    ensures report.Ok? && ResumedOnce(cases, resumed) ==>
              Reports(cases, resumed, outcomes, report.value) && Checkpoints(resumed, report.value, failed, file)
    ensures report.Ok? ==> (Acceptable(cases, file) <==> WritesDistinct(cases, resumed, failed))
  {
    hide *;
    var indices := IndexCases(cases);
    var start := TakeResumed(cases, indices, resumed);
    file := resumed;
    if start.Err? {
      return Err(start.error), file;
    }
    var (completed, indexed, retained) := start.value;

    var tasks: set<nat> := {};
    for i := 0 to |cases|
      invariant forall j: nat :: j in tasks <==> j < i && cases[j].id !in completed
    {
      if cases[i].id !in completed {
        tasks := tasks + {i};
      }
    }

    StartIsCollected(cases, resumed, outcomes, indices, tasks, indexed);
    StartLogsNothing(resumed, indices, indexed, failed);
    while tasks != {}
      invariant forall j | j in tasks :: j < |cases| && cases[j].id !in Ids(resumed)
      invariant Collected(cases, resumed, outcomes, tasks, indexed, retained)
      invariant |resumed| <= |indexed| && file == resumed + Results(Logged(indexed[|resumed|..], failed))
      decreases |tasks|
    {
      var caseIndex :| caseIndex in tasks;
      CollectedWithin(cases, resumed, outcomes, tasks, indexed, retained);
      var result, nowRetained := EnforcePatchBudget(outcomes[caseIndex], retained);
      LoggedGrows(indexed, |resumed|, Indexed(caseIndex, result), failed);
      Collect(cases, resumed, outcomes, tasks, indexed, retained, caseIndex, result, nowRetained);
      if caseIndex !in failed {
        Assoc(resumed, Results(Logged(indexed[|resumed|..], failed)), [result]);
        file := file + [result];
      }
      indexed := indexed + [Indexed(caseIndex, result)];
      retained := nowRetained;
      tasks := tasks - {caseIndex};
    }

    report := Ok(Results(SortByIndex(indexed)));
    RunIsRight(cases, resumed, outcomes, indexed, retained, failed);
  }

  lemma RunIsRight(cases: seq<EvalCase>, resumed: seq<EvalResult>, outcomes: seq<EvalResult>, indexed: seq<Indexed>,
                   retained: nat, failed: set<nat>)
    requires |outcomes| == |cases| && Collected(cases, resumed, outcomes, {}, indexed, retained)
    requires Acceptable(cases, resumed) && |resumed| <= |indexed|
    ensures var report, file := Results(SortByIndex(indexed)), resumed + Results(Logged(indexed[|resumed|..], failed));
            && Total(report) <= MAX_RETAINED_PATCH_BYTES
            && (|report| == |cases| <==> ResumedOnce(cases, resumed))
            && (ResumedOnce(cases, resumed) ==>
                  Reports(cases, resumed, outcomes, report) && Checkpoints(resumed, report, failed, file))
            && (Acceptable(cases, file) <==> WritesDistinct(cases, resumed, failed))
  {
    hide Total, Collected, Clean, ResumedOnce, Reports, Checkpoints, WritesDistinct, Logged, SortByIndex;
    SortAdds(indexed);
    CollectedWithin(cases, resumed, outcomes, {}, indexed, retained);
    LengthExactly(cases, resumed, outcomes, indexed, retained);
    if ResumedOnce(cases, resumed) {
      ReportIsRight(cases, resumed, outcomes, indexed, retained);
      CheckpointIsRight(cases, resumed, outcomes, indexed, retained, failed);
    }
    FileAcceptableExactly(cases, resumed, outcomes, indexed, retained, failed);
  }

  lemma CollectedWithin(cases: seq<EvalCase>, resumed: seq<EvalResult>, outcomes: seq<EvalResult>, tasks: set<nat>,
                        indexed: seq<Indexed>, retained: nat)
    requires |outcomes| == |cases| && Collected(cases, resumed, outcomes, tasks, indexed, retained)
    ensures Total(Results(indexed)) == retained <= MAX_RETAINED_PATCH_BYTES
  {
  }

  lemma StartIsCollected(cases: seq<EvalCase>, resumed: seq<EvalResult>, outcomes: seq<EvalResult>,
                         indices: map<string, nat>, tasks: set<nat>, indexed: seq<Indexed>)
    requires |outcomes| == |cases| && Places(cases, indices) && Acceptable(cases, resumed)
    requires Resumes(resumed, indices, indexed)
    requires forall j: nat :: j in tasks <==> j < |cases| && cases[j].id !in Ids(resumed)
    ensures Collected(cases, resumed, outcomes, tasks, indexed, Total(resumed))
  {
    hide Total, Known, Ids, Settled;
    assert indexed[..|resumed|] == indexed;
    StartIsDistinct(cases, resumed, indices, indexed);
  }

  lemma StartIsDistinct(cases: seq<EvalCase>, resumed: seq<EvalResult>, indices: map<string, nat>, indexed: seq<Indexed>)
    requires Places(cases, indices) && Clean(cases, resumed) && Resumes(resumed, indices, indexed)
    ensures DistinctKeys(indexed) && forall k | 0 <= k < |indexed| :: Placed(cases, indexed[k])
  {
    hide Known;
    forall i, j | 0 <= i < j < |indexed|
      ensures indexed[i].index != indexed[j].index
    {
      assert resumed[i].caseId != resumed[j].caseId;
    }
  }

  lemma StartLogsNothing(resumed: seq<EvalResult>, indices: map<string, nat>, indexed: seq<Indexed>, failed: set<nat>)
    requires Resumes(resumed, indices, indexed)
    ensures |resumed| == |indexed| && resumed == resumed + Results(Logged(indexed[|resumed|..], failed))
  {
    assert indexed[|resumed|..] == [];
  }

  lemma LoggedGrows(indexed: seq<Indexed>, n: nat, p: Indexed, failed: set<nat>)
    requires n <= |indexed|
    ensures Results(Logged((indexed + [p])[n..], failed))
         == Results(Logged(indexed[n..], failed)) + (if p.index in failed then [] else [p.result])
  {
    var all := (indexed + [p])[n..];
    assert all[..|all| - 1] == indexed[n..] && all[|all| - 1] == p;
  }

  /** One finished case joins the collected results. */
  lemma Collect(cases: seq<EvalCase>, resumed: seq<EvalResult>, outcomes: seq<EvalResult>, tasks: set<nat>,
                indexed: seq<Indexed>, retained: nat, i: nat, kept: EvalResult, nowRetained: nat)
    requires |outcomes| == |cases| && forall j | 0 <= j < |cases| :: outcomes[j].caseId == cases[j].id
    requires Collected(cases, resumed, outcomes, tasks, indexed, retained)
    requires i in tasks && i < |cases| && cases[i].id !in Ids(resumed)
    requires nowRetained == retained + PatchBytes(kept) <= MAX_RETAINED_PATCH_BYTES
    requires kept == outcomes[i] || (outcomes[i].prediction.Some? && kept == Dropped(outcomes[i])
                                     && retained + PatchBytes(outcomes[i]) > MAX_RETAINED_PATCH_BYTES)
    ensures Collected(cases, resumed, outcomes, tasks - {i}, indexed + [Indexed(i, kept)], nowRetained)
  {
    hide Total, PatchBytes, Settled, Dropped, Ids, HasKey;
    var after, left := indexed + [Indexed(i, kept)], tasks - {i};
    assert after[..|resumed|] == indexed[..|resumed|];
    assert Results(after) == Results(indexed) + [kept];
    SettledNow(outcomes[i], kept, retained, nowRetained);
    TotalGrows(Results(indexed), kept);
    OthersElsewhere(cases, resumed, outcomes, tasks, indexed, retained, i);
    forall k | |resumed| <= k < |after|
      ensures Finished(cases, resumed, outcomes, left, after[k], nowRetained)
    {
      if k < |indexed| {
        assert Finished(cases, resumed, outcomes, tasks, indexed[k], retained);
        SettledStays(outcomes[indexed[k].index], indexed[k].result, retained, nowRetained);
      }
    }
    KeysGrow(indexed, Indexed(i, kept));
  }

  lemma KeysGrow(xs: seq<Indexed>, x: Indexed)
    ensures forall j: nat :: HasKey(xs + [x], j) <==> j == x.index || HasKey(xs, j)
  {
    var all := xs + [x];
    assert all[|xs|] == x;
    forall j: nat
      ensures HasKey(all, j) <==> j == x.index || HasKey(xs, j)
    {
      if HasKey(xs, j) {
        var k :| 0 <= k < |xs| && xs[k].index == j;
        assert all[k].index == j;
      }
    }
  }

  lemma SettledStays(outcome: EvalResult, kept: EvalResult, total: nat, later: nat)
    requires Settled(outcome, kept, total) && total <= later
    ensures Settled(outcome, kept, later)
  {
    hide PatchBytes, Dropped;
  }

  lemma SettledNow(outcome: EvalResult, kept: EvalResult, total: nat, later: nat)
    requires total <= later
    requires kept == outcome || (outcome.prediction.Some? && kept == Dropped(outcome)
                                 && total + PatchBytes(outcome) > MAX_RETAINED_PATCH_BYTES)
    ensures Settled(outcome, kept, later) && kept.caseId == outcome.caseId
  {
    hide PatchBytes;
  }

  lemma OthersElsewhere(cases: seq<EvalCase>, resumed: seq<EvalResult>, outcomes: seq<EvalResult>, tasks: set<nat>,
                        indexed: seq<Indexed>, retained: nat, i: nat)
    requires |outcomes| == |cases| && Collected(cases, resumed, outcomes, tasks, indexed, retained)
    requires i in tasks && i < |cases| && cases[i].id !in Ids(resumed)
    ensures forall k | 0 <= k < |indexed| :: indexed[k].index != i
  {
    hide Total, Settled;
    forall k | 0 <= k < |indexed|
      ensures indexed[k].index != i
    {
      assert Placed(cases, indexed[k]);
      if k < |resumed| {
        assert indexed[..|resumed|][k].result == resumed[k];
        assert resumed[k].caseId in Ids(resumed);
      } else {
        assert Finished(cases, resumed, outcomes, tasks, indexed[k], retained);
      }
    }
  }

  // ---------------------------------------------------------------- how many results there are

  /** No resumed id is shared by two cases. */
  ghost predicate ResumedOnce(cases: seq<EvalCase>, resumed: seq<EvalResult>) {
    forall i, j | 0 <= i < j < |cases| && cases[i].id == cases[j].id :: cases[i].id !in Ids(resumed)
  }

  /** No two cases with the same id are both run and both written to the checkpoint. */
  ghost predicate WritesDistinct(cases: seq<EvalCase>, resumed: seq<EvalResult>, failed: set<nat>) {
    forall i, j | 0 <= i < j < |cases| && cases[i].id == cases[j].id ::
      cases[i].id in Ids(resumed) || i in failed || j in failed
  }

  /** Distinct case ids are enough for both. */
  lemma DistinctIdsAreEnough(cases: seq<EvalCase>, resumed: seq<EvalResult>, failed: set<nat>)
    requires DistinctIds(cases)
    ensures ResumedOnce(cases, resumed) && WritesDistinct(cases, resumed, failed)
  {
  }

  function Keys(xs: seq<Indexed>): set<nat> { set p | p in xs :: p.index }

  lemma {:induction false} KeyCount(xs: seq<Indexed>)
    requires DistinctKeys(xs)
    ensures |Keys(xs)| == |xs|
  {
    if xs != [] {
      KeyCount(xs[1..]);
      assert xs == [xs[0]] + xs[1..];
      assert Keys(xs) == Keys(xs[1..]) + {xs[0].index};
      assert xs[0].index !in Keys(xs[1..]);
    }
  }

  function Below(n: nat): (s: set<nat>)
    ensures |s| == n && forall i: nat :: i in s <==> i < n
  {
    if n == 0 then {} else Below(n - 1) + {n - 1}
  }

  lemma SubsetCount(a: set<nat>, b: set<nat>)
    requires a <= b
    ensures |a| == |b| <==> a == b
    ensures |a| <= |b|
  {
    assert b == a + (b - a);
  }

  /** Distinct indices below `n` number `n` exactly when none is missing. */
  lemma FullIffAllKeys(xs: seq<Indexed>, n: nat)
    requires DistinctKeys(xs) && forall k | 0 <= k < |xs| :: xs[k].index < n
    ensures |xs| == n <==> forall i | 0 <= i < n :: HasKey(xs, i)
  {
    KeyCount(xs);
    SubsetCount(Keys(xs), Below(n));
    forall i: nat
      ensures i in Keys(xs) <==> HasKey(xs, i)
    {
      if HasKey(xs, i) {
        var k :| 0 <= k < |xs| && xs[k].index == i;
        assert xs[k] in xs;
      }
    }
    assert Keys(xs) == Below(n) <==> forall i: nat | i < n :: i in Keys(xs);
  }

  /** The report has one result per case exactly when no resumed id is shared. */
  lemma LengthExactly(cases: seq<EvalCase>, resumed: seq<EvalResult>, outcomes: seq<EvalResult>, indexed: seq<Indexed>,
                      retained: nat)
    requires |outcomes| == |cases| && Collected(cases, resumed, outcomes, {}, indexed, retained)
    requires Clean(cases, resumed)
    ensures |Results(SortByIndex(indexed))| == |indexed|
    ensures |indexed| == |cases| <==> ResumedOnce(cases, resumed)
  {
    hide Total, Settled, Known, SortByIndex;
    SortKeeps(indexed);
    assert forall k | 0 <= k < |indexed| :: Placed(cases, indexed[k]);
    FullIffAllKeys(indexed, |cases|);
    if |indexed| == |cases| {
      forall i, j | 0 <= i < j < |cases| && cases[i].id == cases[j].id
        ensures cases[i].id !in Ids(resumed)
      {
        assert HasKey(indexed, i) && HasKey(indexed, j);
        SharedIdIsFree(cases, resumed, outcomes, indexed, retained, i, j);
      }
    }
    if ResumedOnce(cases, resumed) {
      forall i | 0 <= i < |cases|
        ensures HasKey(indexed, i)
      {
        if cases[i].id in Ids(resumed) {
          ResumedHasPlace(cases, resumed, outcomes, indexed, retained, i);
        }
      }
    }
  }

  lemma SharedIdIsFree(cases: seq<EvalCase>, resumed: seq<EvalResult>, outcomes: seq<EvalResult>, indexed: seq<Indexed>,
                       retained: nat, i: nat, j: nat)
    requires |outcomes| == |cases| && Collected(cases, resumed, outcomes, {}, indexed, retained)
    requires Clean(cases, resumed)
    requires i < j < |cases| && cases[i].id == cases[j].id && HasKey(indexed, i) && HasKey(indexed, j)
    ensures cases[i].id !in Ids(resumed)
  {
    hide Total, Settled, Known;
    IdOfKey(cases, resumed, outcomes, indexed, retained);
    var k :| 0 <= k < |indexed| && indexed[k].index == i;
    var l :| 0 <= l < |indexed| && indexed[l].index == j;
    assert k != l;
  }

  /** Which cases the resumed and which the finished results are of. */
  lemma IdOfKey(cases: seq<EvalCase>, resumed: seq<EvalResult>, outcomes: seq<EvalResult>, indexed: seq<Indexed>,
                retained: nat)
    requires |outcomes| == |cases| && Collected(cases, resumed, outcomes, {}, indexed, retained)
    ensures forall k | 0 <= k < |indexed| :: indexed[k].index < |cases|
    ensures forall k | 0 <= k < |resumed| :: cases[indexed[k].index].id == resumed[k].caseId
    ensures forall k | |resumed| <= k < |indexed| :: cases[indexed[k].index].id !in Ids(resumed)
  {
    hide Total, Settled, Ids;
    forall k | 0 <= k < |indexed|
      ensures Placed(cases, indexed[k])
      ensures k < |resumed| ==> indexed[k].result == resumed[k]
      ensures k >= |resumed| ==> cases[indexed[k].index].id !in Ids(resumed)
    {
      if k < |resumed| {
        assert indexed[..|resumed|][k].result == resumed[k];
      } else {
        assert Finished(cases, resumed, outcomes, {}, indexed[k], retained);
      }
    }
  }

  lemma ResumedHasPlace(cases: seq<EvalCase>, resumed: seq<EvalResult>, outcomes: seq<EvalResult>, indexed: seq<Indexed>,
                        retained: nat, i: nat)
    requires |outcomes| == |cases| && Collected(cases, resumed, outcomes, {}, indexed, retained)
    requires ResumedOnce(cases, resumed) && i < |cases| && cases[i].id in Ids(resumed)
    ensures HasKey(indexed, i)
  {
    hide Total, Settled;
    var k :| 0 <= k < |resumed| && resumed[k].caseId == cases[i].id;
    assert indexed[..|resumed|][k].result == resumed[k];
    assert Placed(cases, indexed[k]);
    var j := indexed[k].index;
    assert cases[j].id == cases[i].id;
  }

  // ---------------------------------------------------------------- the report

  /** Whatever the order of completion, the report is right. */
  lemma ReportIsRight(cases: seq<EvalCase>, resumed: seq<EvalResult>, outcomes: seq<EvalResult>, indexed: seq<Indexed>,
                      retained: nat)
    requires |outcomes| == |cases| && Collected(cases, resumed, outcomes, {}, indexed, retained)
    requires Clean(cases, resumed) && ResumedOnce(cases, resumed)
    ensures Reports(cases, resumed, outcomes, Results(SortByIndex(indexed)))
  {
    hide Total, Settled, Known, SortByIndex;
    var sorted := SortByIndex(indexed);
    SortKeeps(indexed);
    SortAdds(indexed);
    LengthExactly(cases, resumed, outcomes, indexed, retained);
    forall i | 0 <= i < |cases|
      ensures sorted[i].index == i && Placed(cases, sorted[i])
      ensures cases[i].id !in Ids(resumed) ==> Settled(outcomes[i], sorted[i].result, retained)
    {
      InCaseOrder(cases, indexed, i);
      SettledInPlace(cases, resumed, outcomes, indexed, retained, sorted[i]);
    }
    forall r | r in resumed
      ensures r in Results(sorted)
    {
      var k :| 0 <= k < |resumed| && resumed[k] == r;
      assert indexed[..|resumed|][k].result == r && indexed[k] in indexed;
      var i :| 0 <= i < |sorted| && sorted[i] == indexed[k];
      assert Results(sorted)[i] == r;
    }
  }

  lemma InCaseOrder(cases: seq<EvalCase>, indexed: seq<Indexed>, i: nat)
    requires DistinctKeys(indexed) && forall k | 0 <= k < |indexed| :: Placed(cases, indexed[k])
    requires |indexed| == |cases| && i < |cases|
    ensures |SortByIndex(indexed)| == |indexed|
    ensures SortByIndex(indexed)[i].index == i && SortByIndex(indexed)[i] in indexed
  {
    hide SortByIndex;
    var sorted := SortByIndex(indexed);
    SortKeeps(indexed);
    SortAscends(indexed);
    forall k | 0 <= k < |sorted|
      ensures 0 <= sorted[k].index < |sorted|
    {
      assert sorted[k] in sorted;
    }
    FullIsIdentity(sorted, 0, i);
    assert sorted[i] in sorted;
  }

  lemma SettledInPlace(cases: seq<EvalCase>, resumed: seq<EvalResult>, outcomes: seq<EvalResult>, indexed: seq<Indexed>,
                       retained: nat, p: Indexed)
    requires |outcomes| == |cases| && Collected(cases, resumed, outcomes, {}, indexed, retained) && p in indexed
    ensures Placed(cases, p)
    ensures cases[p.index].id !in Ids(resumed) ==> Settled(outcomes[p.index], p.result, retained)
  {
    hide Total, Settled;
    var k :| 0 <= k < |indexed| && indexed[k] == p;
    assert Placed(cases, indexed[k]);
    if k < |resumed| {
      assert indexed[..|resumed|][k].result == resumed[k];
    } else {
      assert Finished(cases, resumed, outcomes, {}, indexed[k], retained);
    }
  }

  // ---------------------------------------------------------------- the checkpoint

  lemma {:induction false} LoggedKeeps(xs: seq<Indexed>, failed: set<nat>)
    ensures forall p :: p in Logged(xs, failed) <==> p in xs && p.index !in failed
  {
    if xs != [] {
      var before, last := xs[..|xs| - 1], xs[|xs| - 1];
      LoggedKeeps(before, failed);
      assert xs == before + [last];
    }
  }

  lemma {:induction false} LoggedIsDistinct(xs: seq<Indexed>, failed: set<nat>)
    requires DistinctKeys(xs)
    ensures DistinctKeys(Logged(xs, failed))
  {
    if xs != [] {
      var before, last := xs[..|xs| - 1], xs[|xs| - 1];
      LoggedIsDistinct(before, failed);
      LoggedKeeps(before, failed);
      var logged := Logged(before, failed);
      forall i | 0 <= i < |logged|
        ensures logged[i].index != last.index
      {
        assert logged[i] in before;
      }
    }
  }

  lemma {:induction false} LoggedIsSmaller(xs: seq<Indexed>, failed: set<nat>)
    ensures Total(Results(Logged(xs, failed))) <= Total(Results(xs))
  {
    hide PatchBytes, Total;
    if xs != [] {
      var before, last := xs[..|xs| - 1], xs[|xs| - 1];
      LoggedIsSmaller(before, failed);
      assert Results(xs) == Results(before) + [last.result];
      TotalGrows(Results(before), last.result);
      var logged := Logged(before, failed);
      assert Results(logged + [last]) == Results(logged) + [last.result];
      TotalGrows(Results(logged), last.result);
      assert logged + [] == logged;
    }
  }

  /** The checkpoint that a run leaves behind: the resumed results, and then every result
      whose write succeeded. */
  lemma CheckpointIsRight(cases: seq<EvalCase>, resumed: seq<EvalResult>, outcomes: seq<EvalResult>, indexed: seq<Indexed>,
                          retained: nat, failed: set<nat>)
    requires |outcomes| == |cases| && Collected(cases, resumed, outcomes, {}, indexed, retained)
    requires Reports(cases, resumed, outcomes, Results(SortByIndex(indexed)))
    ensures Checkpoints(resumed, Results(SortByIndex(indexed)), failed,
                        resumed + Results(Logged(indexed[|resumed|..], failed)))
  {
    hide Total, Settled, SortByIndex, Logged, Ids;
    SortKeeps(indexed);
    var report := Results(SortByIndex(indexed));
    var file := resumed + Results(Logged(indexed[|resumed|..], failed));
    LoggedIsReported(resumed, indexed, failed);
    forall i | 0 <= i < |report| && i !in failed
      ensures report[i] in file
    {
      InCaseOrder(cases, indexed, i);
      ReportedIsLogged(resumed, indexed, failed, SortByIndex(indexed)[i]);
    }
  }

  lemma LoggedIsReported(resumed: seq<EvalResult>, indexed: seq<Indexed>, failed: set<nat>)
    requires |resumed| <= |indexed|
    ensures forall r | r in Results(Logged(indexed[|resumed|..], failed)) :: r in Results(SortByIndex(indexed))
  {
    hide SortByIndex, Logged;
    var logged, sorted := Logged(indexed[|resumed|..], failed), SortByIndex(indexed);
    SortKeeps(indexed);
    LoggedKeeps(indexed[|resumed|..], failed);
    forall r | r in Results(logged)
      ensures r in Results(sorted)
    {
      var k :| 0 <= k < |logged| && logged[k].result == r;
      assert logged[k] in logged && logged[k] in indexed;
      var i :| 0 <= i < |sorted| && sorted[i] == logged[k];
      assert Results(sorted)[i] == r;
    }
  }

  lemma ReportedIsLogged(resumed: seq<EvalResult>, indexed: seq<Indexed>, failed: set<nat>, p: Indexed)
    requires |resumed| <= |indexed| && Results(indexed[..|resumed|]) == resumed
    requires p in indexed && p.index !in failed
    ensures p.result in resumed + Results(Logged(indexed[|resumed|..], failed))
  {
    hide Logged;
    var tail := indexed[|resumed|..];
    var k :| 0 <= k < |indexed| && indexed[k] == p;
    if k < |resumed| {
      assert indexed[..|resumed|][k].result == resumed[k];
    } else {
      LoggedKeeps(tail, failed);
      assert tail[k - |resumed|] == p;
      var logged := Logged(tail, failed);
      var l :| 0 <= l < |logged| && logged[l] == p;
      assert Results(logged)[l] == p.result;
    }
  }

  /** The checkpoint left behind is acceptable exactly when no two results written to it are
      of cases with the same id. */
  lemma FileAcceptableExactly(cases: seq<EvalCase>, resumed: seq<EvalResult>, outcomes: seq<EvalResult>,
                              indexed: seq<Indexed>, retained: nat, failed: set<nat>)
    requires |outcomes| == |cases| && Collected(cases, resumed, outcomes, {}, indexed, retained)
    requires Clean(cases, resumed)
    ensures Acceptable(cases, resumed + Results(Logged(indexed[|resumed|..], failed)))
       <==> WritesDistinct(cases, resumed, failed)
  {
    hide Total, Settled, Logged, Clean, Ids, Known, WritesDistinct;
    var tail := indexed[|resumed|..];
    var logged := Logged(tail, failed);
    LoggedIsSmaller(tail, failed);
    TotalSplits(resumed, Results(logged));
    TotalSplits(resumed, Results(tail));
    assert Results(indexed) == Results(indexed[..|resumed|]) + Results(tail);
    forall k | 0 <= k < |logged|
      ensures Placed(cases, logged[k]) && logged[k].result.caseId !in Ids(resumed)
    {
      LoggedIsFinished(cases, resumed, outcomes, indexed, retained, failed, k);
    }
    CleanExactly(cases, resumed, logged);
    LoggedIdsDistinctExactly(cases, resumed, outcomes, indexed, retained, failed);
  }

  ghost predicate LoggedIdsDistinct(logged: seq<Indexed>) {
    forall k, l | 0 <= k < l < |logged| :: logged[k].result.caseId != logged[l].result.caseId
  }

  lemma LoggedIdsDistinctExactly(cases: seq<EvalCase>, resumed: seq<EvalResult>, outcomes: seq<EvalResult>,
                                 indexed: seq<Indexed>, retained: nat, failed: set<nat>)
    requires |outcomes| == |cases| && Collected(cases, resumed, outcomes, {}, indexed, retained)
    ensures LoggedIdsDistinct(Logged(indexed[|resumed|..], failed)) <==> WritesDistinct(cases, resumed, failed)
  {
    hide Total, Settled, Logged, Ids;
    var logged := Logged(indexed[|resumed|..], failed);
    if LoggedIdsDistinct(logged) {
      forall i, j | 0 <= i < j < |cases| && cases[i].id == cases[j].id
        ensures cases[i].id in Ids(resumed) || i in failed || j in failed
      {
        if cases[i].id !in Ids(resumed) && i !in failed && j !in failed {
          var k := WhereLogged(cases, resumed, outcomes, indexed, retained, failed, i);
          var l := WhereLogged(cases, resumed, outcomes, indexed, retained, failed, j);
        }
      }
    }
    if WritesDistinct(cases, resumed, failed) {
      LoggedIsDistinct(indexed[|resumed|..], failed);
      LoggedKeeps(indexed[|resumed|..], failed);
      forall k, l | 0 <= k < l < |logged|
        ensures logged[k].result.caseId != logged[l].result.caseId
      {
        LoggedIsFinished(cases, resumed, outcomes, indexed, retained, failed, k);
        LoggedIsFinished(cases, resumed, outcomes, indexed, retained, failed, l);
        assert logged[k] in logged && logged[l] in logged;
        assert logged[k].index != logged[l].index;
      }
    }
  }

  /** A case that is run and whose write succeeds is in the checkpoint. */
  lemma WhereLogged(cases: seq<EvalCase>, resumed: seq<EvalResult>, outcomes: seq<EvalResult>, indexed: seq<Indexed>,
                    retained: nat, failed: set<nat>, i: nat) returns (k: nat)
    requires |outcomes| == |cases| && Collected(cases, resumed, outcomes, {}, indexed, retained)
    requires i < |cases| && cases[i].id !in Ids(resumed) && i !in failed
    ensures var logged := Logged(indexed[|resumed|..], failed);
            k < |logged| && logged[k].index == i && logged[k].result.caseId == cases[i].id
  {
    hide Total, Settled, Logged, Ids;
    var tail := indexed[|resumed|..];
    var logged := Logged(tail, failed);
    IdOfKey(cases, resumed, outcomes, indexed, retained);
    assert HasKey(indexed, i);
    var l :| 0 <= l < |indexed| && indexed[l].index == i;
    assert Placed(cases, indexed[l]);
    assert l >= |resumed| by { NotResumed(cases, resumed, indexed, i, l); }
    LoggedKeeps(tail, failed);
    assert tail[l - |resumed|] == indexed[l];
    assert indexed[l] in logged;
    k :| 0 <= k < |logged| && logged[k] == indexed[l];
  }

  lemma NotResumed(cases: seq<EvalCase>, resumed: seq<EvalResult>, indexed: seq<Indexed>, i: nat, l: nat)
    requires |resumed| <= |indexed| && l < |indexed| && i < |cases| && indexed[l].index == i
    requires forall k | 0 <= k < |indexed| :: indexed[k].index < |cases|
    requires forall k | 0 <= k < |resumed| :: cases[indexed[k].index].id == resumed[k].caseId
    requires cases[i].id !in Ids(resumed)
    ensures l >= |resumed|
  {
  }

  lemma LoggedIsFinished(cases: seq<EvalCase>, resumed: seq<EvalResult>, outcomes: seq<EvalResult>, indexed: seq<Indexed>,
                         retained: nat, failed: set<nat>, k: nat)
    requires |outcomes| == |cases| && Collected(cases, resumed, outcomes, {}, indexed, retained)
    requires k < |Logged(indexed[|resumed|..], failed)|
    ensures var p := Logged(indexed[|resumed|..], failed)[k];
            Placed(cases, p) && p.result.caseId !in Ids(resumed)
  {
    hide Total, Settled, Logged, Ids, DistinctKeys;
    var tail := indexed[|resumed|..];
    var logged := Logged(tail, failed);
    LoggedKeeps(tail, failed);
    assert logged[k] in tail;
    var l :| 0 <= l < |tail| && tail[l] == logged[k];
    assert Placed(cases, indexed[|resumed| + l]);
    assert Finished(cases, resumed, outcomes, {}, indexed[|resumed| + l], retained);
  }

  lemma CleanExactly(cases: seq<EvalCase>, resumed: seq<EvalResult>, logged: seq<Indexed>)
    requires Clean(cases, resumed)
    requires forall k | 0 <= k < |logged| :: Placed(cases, logged[k]) && logged[k].result.caseId !in Ids(resumed)
    ensures Clean(cases, resumed + Results(logged)) <==> LoggedIdsDistinct(logged)
  {
    hide Clean, LoggedIdsDistinct, Placed, Ids;
    if LoggedIdsDistinct(logged) {
      IdsStayDistinct(cases, resumed, logged);
      AllKnown(cases, resumed, logged);
      CleanIs(cases, resumed + Results(logged));
    }
    if Clean(cases, resumed + Results(logged)) {
      IdsWereDistinct(cases, resumed, logged);
    }
  }

  lemma CleanIs(cases: seq<EvalCase>, file: seq<EvalResult>)
    requires forall r | r in file :: Known(cases, r.caseId)
    requires forall i, j | 0 <= i < j < |file| :: file[i].caseId != file[j].caseId
    ensures Clean(cases, file)
  {
    hide Known;
  }

  lemma {:induction false} IdsStayDistinct(cases: seq<EvalCase>, resumed: seq<EvalResult>, logged: seq<Indexed>)
    requires Clean(cases, resumed) && LoggedIdsDistinct(logged)
    requires forall k | 0 <= k < |logged| :: logged[k].result.caseId !in Ids(resumed)
    ensures var file := resumed + Results(logged);
            forall i, j | 0 <= i < j < |file| :: file[i].caseId != file[j].caseId
  {
    hide Known;
    var n, file := |resumed|, resumed + Results(logged);
    forall i, j | 0 <= i < j < |file|
      ensures file[i].caseId != file[j].caseId
    {
      if j < n {
        assert file[i] == resumed[i] && file[j] == resumed[j];
      } else if i < n {
        assert file[i] == resumed[i] && resumed[i] in resumed && file[j] == logged[j - n].result;
      } else {
        assert file[i] == logged[i - n].result && file[j] == logged[j - n].result;
      }
    }
  }

  lemma {:induction false} AllKnown(cases: seq<EvalCase>, resumed: seq<EvalResult>, logged: seq<Indexed>)
    requires Clean(cases, resumed) && forall k | 0 <= k < |logged| :: Placed(cases, logged[k])
    ensures forall r | r in resumed + Results(logged) :: Known(cases, r.caseId)
  {
    hide Known, Placed;
    forall r | r in resumed + Results(logged)
      ensures Known(cases, r.caseId)
    {
      if r !in resumed {
        assert r in Results(logged);
        var k :| 0 <= k < |logged| && Results(logged)[k] == r;
        PlacedIsKnown(cases, logged[k]);
      }
    }
  }

  lemma {:induction false} IdsWereDistinct(cases: seq<EvalCase>, resumed: seq<EvalResult>, logged: seq<Indexed>)
    requires Clean(cases, resumed + Results(logged))
    ensures LoggedIdsDistinct(logged)
  {
    hide Known;
    var n, file := |resumed|, resumed + Results(logged);
    forall k, l | 0 <= k < l < |logged|
      ensures logged[k].result.caseId != logged[l].result.caseId
    {
      assert file[n + k] == logged[k].result && file[n + l] == logged[l].result;
    }
  }

  lemma PlacedIsKnown(cases: seq<EvalCase>, p: Indexed)
    requires Placed(cases, p)
    ensures Known(cases, p.result.caseId)
  {
  }

  // ---------------------------------------------------------------- interrupted runs

  /** A run cut short and resumed from whatever its checkpoint held reports every
      checkpointed result as the first run did, whatever the remaining cases give this time. */
  lemma ResumeKeepsResults(cases: seq<EvalCase>, resumed: seq<EvalResult>, report: seq<EvalResult>, failed: set<nat>,
                           file: seq<EvalResult>, k: nat, outcomes: seq<EvalResult>, again: seq<EvalResult>)
    requires DistinctIds(cases) && |report| == |cases| && |outcomes| == |cases|
    requires forall i | 0 <= i < |cases| :: report[i].caseId == cases[i].id
    requires Checkpoints(resumed, report, failed, file) && Acceptable(cases, file) && k <= |file|
    requires Reports(cases, file[..k], outcomes, again)
    ensures Acceptable(cases, file[..k])
    ensures forall i | 0 <= i < |cases| && report[i] in file[..k] :: again[i] == report[i]
    ensures k == |file| && failed == {} ==> again == report
  {
    hide Total, Settled, Acceptable;
    PrefixIsAcceptable(cases, file, k);
    forall i | 0 <= i < |cases| && report[i] in file[..k]
      ensures again[i] == report[i]
    {
      assert report[i] in again;
      var j :| 0 <= j < |again| && again[j] == report[i];
      assert cases[j].id == cases[i].id;
    }
    assert file[..|file|] == file;
  }
}
