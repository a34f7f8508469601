/** The evaluation runner: cases are run concurrently, finish in any order, and are written to a
    checkpoint as they finish; a later run resumes from the checkpoint.  Patches are kept up to
    a limit on their total size.
 */
module EvalRunner {
  import opened Machine
  import opened Utf8
  import opened Wrappers

  const MAX_RETAINED_PATCH_BYTES := 256 * 1024 * 1024

  datatype EvalCase = EvalCase(id: string, description: string)

  datatype Verdict = Pass | Fail(reason: string)

  datatype Prediction = Prediction(instanceId: string, modelName: string, modelPatch: string)

  datatype EvalResult = EvalResult(
    caseId: string, sessionId: string, passed: bool, verdicts: seq<Verdict>, durationMs: nat,
    prediction: Option<Prediction>, error: Option<string>)

  datatype SetupError = UnknownCase(id: string) | DuplicateCase(id: string) | PatchesTooLarge

  datatype Indexed = Indexed(index: nat, result: EvalResult)

  // ---------------------------------------------------------------- the patch budget

  function PatchBytes(r: EvalResult): nat {
    if r.prediction.None? then 0 else Utf8Len(r.prediction.value.modelPatch)
  }

  function Total(results: seq<EvalResult>): nat {
    if results == [] then 0 else PatchBytes(results[0]) + Total(results[1..])
  }

  const OVER_LIMIT := "aggregate SWE-bench patches exceed the 268435456-byte audit limit"

  /** A result whose patch was dropped: it fails, and says why. */
  function Dropped(r: EvalResult): EvalResult
    requires r.prediction.Some?
  {
    r.(prediction := Some(r.prediction.value.(modelPatch := "")), passed := false,
       verdicts := [Fail(OVER_LIMIT)], error := Some("aggregate SWE-bench patch audit limit exceeded"))
  }

  /** The result counts as failed, says why, and brings no patch. */
  predicate Failed(r: EvalResult) {
    && !r.passed && r.error.Some? && r.error.value != []
    && |r.verdicts| == 1 && r.verdicts[0].Fail? && r.verdicts[0].reason != []
    && r.prediction.Some? && r.prediction.value.modelPatch == []
  }

  /** Both are of one run of one case by one model. */
  predicate SameRun(a: EvalResult, b: EvalResult) {
    && b.caseId == a.caseId && b.sessionId == a.sessionId && b.durationMs == a.durationMs
    && a.prediction.Some? == b.prediction.Some?
    && (a.prediction.Some? ==>
          && b.prediction.value.instanceId == a.prediction.value.instanceId
          && b.prediction.value.modelName == a.prediction.value.modelName)
  }

  lemma DroppedFails(r: EvalResult)
    requires r.prediction.Some?
    ensures Failed(Dropped(r)) && SameRun(r, Dropped(r)) && PatchBytes(Dropped(r)) == 0
  {
  }

  method EnforcePatchBudget(result: EvalResult, retained: nat) returns (kept: EvalResult, retainedNow: nat)
    requires retained <= MAX_RETAINED_PATCH_BYTES
    ensures retainedNow == retained + PatchBytes(kept) <= MAX_RETAINED_PATCH_BYTES
    ensures retained + PatchBytes(result) <= MAX_RETAINED_PATCH_BYTES ==> kept == result
    ensures retained + PatchBytes(result) > MAX_RETAINED_PATCH_BYTES ==>
              result.prediction.Some? && kept == Dropped(result)
    ensures kept != result ==> Failed(kept) && SameRun(result, kept)
  {
    if result.prediction.None? {
      return result, retained;
    }
    var patchBytes := Utf8Len(result.prediction.value.modelPatch);
    if SaturatingAdd(retained, patchBytes) <= MAX_RETAINED_PATCH_BYTES {
      return result, retained + patchBytes;
    }
    kept := result;
    kept := kept.(prediction := Some(kept.prediction.value.(modelPatch := "")));
    kept := kept.(passed := false);
    kept := kept.(verdicts := [Fail(OVER_LIMIT)]);
    kept := kept.(error := Some("aggregate SWE-bench patch audit limit exceeded"));
    retainedNow := retained;
  }

  // ---------------------------------------------------------------- sorting by case

  /** `sort_unstable_by_key` on the case index. */
  function Insert(x: Indexed, xs: seq<Indexed>): seq<Indexed> {
    if xs == [] || x.index <= xs[0].index then [x] + xs else [xs[0]] + Insert(x, xs[1..])
  }

  function SortByIndex(xs: seq<Indexed>): seq<Indexed> {
    if xs == [] then [] else Insert(xs[0], SortByIndex(xs[1..]))
  }

  function Results(xs: seq<Indexed>): (rs: seq<EvalResult>)
    ensures |rs| == |xs| && forall i | 0 <= i < |xs| :: rs[i] == xs[i].result
  {
    seq(|xs|, i requires 0 <= i < |xs| => xs[i].result)
  }

  predicate DistinctKeys(xs: seq<Indexed>) {
    forall i, j | 0 <= i < j < |xs| :: xs[i].index != xs[j].index
  }

  predicate Ascending(xs: seq<Indexed>) {
    forall i, j | 0 <= i < j < |xs| :: xs[i].index < xs[j].index
  }

  lemma {:induction false} InsertKeeps(x: Indexed, xs: seq<Indexed>)
    ensures |Insert(x, xs)| == |xs| + 1
    ensures forall p :: p in Insert(x, xs) <==> p == x || p in xs
  {
    if xs != [] && x.index > xs[0].index {
      InsertKeeps(x, xs[1..]);
      assert xs == [xs[0]] + xs[1..];
    }
  }

  lemma {:induction false} InsertAdds(x: Indexed, xs: seq<Indexed>)
    ensures Total(Results(Insert(x, xs))) == PatchBytes(x.result) + Total(Results(xs))
  {
    hide PatchBytes;
    if xs == [] || x.index <= xs[0].index {
      assert Results([x] + xs)[1..] == Results(xs);
    } else {
      InsertAdds(x, xs[1..]);
      var rest := Insert(x, xs[1..]);
      assert Results([xs[0]] + rest)[1..] == Results(rest);
      assert Results(xs)[1..] == Results(xs[1..]);
    }
  }

  lemma {:induction false} InsertAscends(x: Indexed, xs: seq<Indexed>)
    requires Ascending(xs) && forall p | p in xs :: p.index != x.index
    ensures Ascending(Insert(x, xs))
  {
    hide Ascending;
    if xs == [] || x.index <= xs[0].index {
      AscendsFrom(x, xs);
    } else {
      assert forall p | p in xs[1..] :: p in xs;
      TailAscends(xs);
      InsertAscends(x, xs[1..]);
      AscendsFrom(xs[0], Insert(x, xs[1..]));
    }
  }

  lemma AscendsFrom(head: Indexed, rest: seq<Indexed>)
    requires Ascending(rest) && (rest == [] || head.index < rest[0].index)
    ensures Ascending([head] + rest)
  {
    var all := [head] + rest;
    assert forall i | 0 <= i < |rest| :: all[i + 1] == rest[i] && head.index < rest[i].index;
  }

  lemma TailAscends(xs: seq<Indexed>)
    requires Ascending(xs) && xs != []
    ensures Ascending(xs[1..]) && (|xs| > 1 ==> xs[0].index < xs[1].index)
  {
  }

  /** Sorting loses nothing and adds nothing. */
  lemma {:induction false} SortKeeps(xs: seq<Indexed>)
    ensures |SortByIndex(xs)| == |xs|
    ensures forall p :: p in SortByIndex(xs) <==> p in xs
  {
    hide Insert;
    if xs != [] {
      SortKeeps(xs[1..]);
      InsertKeeps(xs[0], SortByIndex(xs[1..]));
      assert xs == [xs[0]] + xs[1..];
    }
  }

  lemma {:induction false} SortAdds(xs: seq<Indexed>)
    ensures Total(Results(SortByIndex(xs))) == Total(Results(xs))
  {
    hide PatchBytes, Insert;
    if xs != [] {
      SortAdds(xs[1..]);
      InsertAdds(xs[0], SortByIndex(xs[1..]));
      assert Results(xs)[1..] == Results(xs[1..]);
    }
  }

  lemma {:induction false} SortAscends(xs: seq<Indexed>)
    requires DistinctKeys(xs)
    ensures Ascending(SortByIndex(xs))
  {
    hide Insert;
    if xs != [] {
      SortAscends(xs[1..]);
      SortKeeps(xs[1..]);
      assert forall p | p in xs[1..] :: p.index != xs[0].index;
      InsertAscends(xs[0], SortByIndex(xs[1..]));
    }
  }

  /** As many distinct indices as there are cases fill every place. */
  lemma {:induction false} FullIsIdentity(xs: seq<Indexed>, low: nat, i: nat)
    requires Ascending(xs) && i < |xs|
    requires forall j | 0 <= j < |xs| :: low <= xs[j].index < low + |xs|
    ensures xs[i].index == low + i
  {
    if i == 0 {
      Climbs(xs, 0);
    } else {
      Climbs(xs, 0);
      assert forall j | 0 <= j < |xs[1..]| :: xs[0].index < xs[1..][j].index;
      FullIsIdentity(xs[1..], low + 1, i - 1);
    }
  }

  lemma {:induction false} Climbs(xs: seq<Indexed>, i: nat)
    requires Ascending(xs) && i < |xs|
    ensures xs[|xs| - 1].index >= xs[i].index + (|xs| - 1 - i)
    decreases |xs| - i
  {
    if i + 1 < |xs| {
      Climbs(xs, i + 1);
    }
  }

  // ---------------------------------------------------------------- resuming

  function Ids(results: seq<EvalResult>): set<string> {
    set r | r in results :: r.caseId
  }

  predicate Known(cases: seq<EvalCase>, id: string) {
    exists i | 0 <= i < |cases| :: cases[i].id == id
  }

  /** Each result of a checkpoint is of a case of this run, and of a different one. */
  predicate Clean(cases: seq<EvalCase>, checkpoint: seq<EvalResult>) {
    && (forall r | r in checkpoint :: Known(cases, r.caseId))
    && (forall i, j | 0 <= i < j < |checkpoint| :: checkpoint[i].caseId != checkpoint[j].caseId)
  }

  predicate Acceptable(cases: seq<EvalCase>, checkpoint: seq<EvalResult>) {
    Clean(cases, checkpoint) && Total(checkpoint) <= MAX_RETAINED_PATCH_BYTES
  }

  lemma {:induction false} TotalSplits(a: seq<EvalResult>, b: seq<EvalResult>)
    ensures Total(a + b) == Total(a) + Total(b)
  {
    hide PatchBytes;
    if a == [] {
      assert a + b == b;
    } else {
      assert (a + b)[1..] == a[1..] + b;
      TotalSplits(a[1..], b);
    }
  }

  /** A checkpoint cut short anywhere is still acceptable. */
  lemma PrefixIsAcceptable(cases: seq<EvalCase>, checkpoint: seq<EvalResult>, k: nat)
    requires Acceptable(cases, checkpoint) && k <= |checkpoint|
    ensures Acceptable(cases, checkpoint[..k])
  {
    hide Total, Known;
    TotalSplits(checkpoint[..k], checkpoint[k..]);
    assert checkpoint[..k] + checkpoint[k..] == checkpoint;
  }

  /** The place of each case id; of equal ids, the last. */
  ghost predicate Places(cases: seq<EvalCase>, indices: map<string, nat>) {
    && (forall id | id in indices :: indices[id] < |cases| && cases[indices[id]].id == id)
    && (forall i | 0 <= i < |cases| :: cases[i].id in indices && i <= indices[cases[i].id])
  }

  method IndexCases(cases: seq<EvalCase>) returns (indices: map<string, nat>)
    ensures Places(cases, indices)
  {
    indices := map[];
    for i := 0 to |cases|
      invariant Places(cases[..i], indices)
    {
      indices := indices[cases[i].id := i];
    }
    assert cases[..|cases|] == cases;
  }

  /** What resuming from an acceptable checkpoint starts with. */
  ghost predicate Resumes(resumed: seq<EvalResult>, indices: map<string, nat>, indexed: seq<Indexed>) {
    && Results(indexed) == resumed
    && (forall i | 0 <= i < |resumed| :: resumed[i].caseId in indices && indexed[i].index == indices[resumed[i].caseId])
  }

  /** Why a checkpoint is refused: its first result that cannot take a place, or, where
      all can, the size of its patches. */
  ghost predicate Refuses(cases: seq<EvalCase>, checkpoint: seq<EvalResult>, error: SetupError) {
    match error
    case UnknownCase(id) =>
      exists k | 0 <= k < |checkpoint| ::
        Clean(cases, checkpoint[..k]) && checkpoint[k].caseId == id && !Known(cases, id)
    case DuplicateCase(id) =>
      exists k | 0 <= k < |checkpoint| ::
        Clean(cases, checkpoint[..k]) && checkpoint[k].caseId == id && Known(cases, id) && id in Ids(checkpoint[..k])
    case PatchesTooLarge =>
      Clean(cases, checkpoint) && Total(checkpoint) > MAX_RETAINED_PATCH_BYTES
  }

  /** The first loop of `run_all`: the checkpoint's results take their places, or the
      first that cannot is reported. */
  method TakeResumed(cases: seq<EvalCase>, indices: map<string, nat>, resumed: seq<EvalResult>)
    returns (r: Result<(set<string>, seq<Indexed>, nat), SetupError>)
    requires Places(cases, indices)
    ensures r.Ok? <==> Acceptable(cases, resumed)
    ensures r.Ok? ==> r.value.0 == Ids(resumed) && Resumes(resumed, indices, r.value.1) && r.value.2 == Total(resumed)
    ensures r.Err? ==> Refuses(cases, resumed, r.error)
  {
    hide Total, PatchBytes, Places, Known;
    var completed: set<string>, indexed: seq<Indexed>, retained: nat := {}, [], 0;
    assert Total([]) == 0 by { NothingRetained(); }
    for i := 0 to |resumed|
      invariant Clean(cases, resumed[..i]) && completed == Ids(resumed[..i])
      invariant Resumes(resumed[..i], indices, indexed)
      invariant retained == Saturated(Total(resumed[..i]))
    {
      var result := resumed[i];
      assert resumed[..i + 1] == resumed[..i] + [result];
      KnownIffPlaced(cases, indices, result.caseId);
      CleanGrows(cases, resumed, i);
      if result.caseId !in indices {
        return Err(UnknownCase(result.caseId));
      }
      if result.caseId in completed {
        return Err(DuplicateCase(result.caseId));
      }
      completed := completed + {result.caseId};
      TotalGrows(resumed[..i], result);
      retained := SaturatingAdd(retained, PatchBytes(result));
      indexed := indexed + [Indexed(indices[result.caseId], result)];
    }
    assert resumed[..|resumed|] == resumed;
    if retained > MAX_RETAINED_PATCH_BYTES {
      return Err(PatchesTooLarge);
    }
    return Ok((completed, indexed, retained));
  }

  lemma NothingRetained()
    ensures Total([]) == 0
  {
  }

  lemma TotalGrows(results: seq<EvalResult>, r: EvalResult)
    ensures Total(results + [r]) == Total(results) + PatchBytes(r)
    ensures SaturatingAdd(Saturated(Total(results)), PatchBytes(r)) == Saturated(Total(results + [r]))
  {
    hide PatchBytes;
    TotalSplits(results, [r]);
    assert [r][1..] == [];
  }

  lemma KnownIffPlaced(cases: seq<EvalCase>, indices: map<string, nat>, id: string)
    requires Places(cases, indices)
    ensures id in indices <==> Known(cases, id)
  {
  }

  lemma CleanGrows(cases: seq<EvalCase>, resumed: seq<EvalResult>, i: nat)
    requires i < |resumed| && Clean(cases, resumed[..i])
    ensures Clean(cases, resumed[..i + 1]) <==> Known(cases, resumed[i].caseId) && resumed[i].caseId !in Ids(resumed[..i])
    ensures Clean(cases, resumed) ==> Clean(cases, resumed[..i + 1])
  {
    hide Known;
    assert resumed[..i + 1] == resumed[..i] + [resumed[i]];
  }
}
