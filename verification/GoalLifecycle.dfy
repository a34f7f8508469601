/** Every sequence of operations on one session's goal, with fresh identifiers: which
    prompts can be pending, which acknowledgements take effect, and when automatic
    continuation ends.
 */
module GoalLifecycle {
  import opened GoalStore
  import opened Machine
  import opened Text
  import opened Wrappers

  /** The saved goal, and the first identifier not yet drawn. */
  datatype World = World(file: Saved, next: nat)

  const INIT := World(None, 0)

  /** `total` is the session's token usage at that moment, when it can be read. */
  datatype Op =
    | Create(objective: string, budget: Option<nat>, total: Option<nat>)
    | Finish(complete: bool)
    | Pause
    | Resume
    | AdjustBudget(newBudget: nat)
    | Clear
    | Acknowledge(id: ContributionId)
    | Stop(total: Option<nat>)

  /** Whether acknowledging `id` now has an effect. */
  predicate Effective(w: World, id: ContributionId) {
    w.file.Some? && w.file.value.Awaits(id)
  }

  predicate Granted(w: World, op: Op) {
    op.Stop? && w.file.Some? && w.file.value.status.Active?
  }

  function NewFile(w: World, op: Op): Saved {
    match op
    case Create(objective, budget, total) => AfterSave(w.file, CreateResult(w.file, w.next, objective, budget, total))
    case Finish(complete) => AfterSave(w.file, SetStatusResult(w.file, if complete then Complete else Blocked))
    case Pause => AfterSave(w.file, SetStatusResult(w.file, Paused))
    case Resume => AfterSave(w.file, ResumeResult(w.file))
    case AdjustBudget(budget) => AfterSave(w.file, AdjustBudgetResult(w.file, budget))
    case Clear => None
    case Acknowledge(id) => if Effective(w, id) then Some(w.file.value.Acknowledge(id)) else w.file
    case Stop(total) => if Granted(w, op) then Some(Continued(w.file.value, total, w.next)) else w.file
  }

  function Step(w: World, op: Op): World {
    World(NewFile(w, op), w.next + 1)
  }

  function Run(w: World, ops: seq<Op>): World
    decreases |ops|
  {
    if ops == [] then w else Run(Step(w, ops[0]), ops[1..])
  }

  // ---------------------------------------------------------------- pending prompts

  ghost predicate Drawn(w: World, id: Option<ContributionId>) {
    id.Some? ==> id.value.Uuid? && id.value.n < w.next
  }

  /** A continuation prompt is pending only for an active goal, a budget prompt only for a
      budget-limited one; every identifier in the file has been drawn. */
  ghost predicate Inv(w: World) {
    w.file.Some? ==>
      var g := w.file.value;
      && (g.continuationPending.Some? ==> g.status.Active?)
      && (g.budgetPending.Some? ==> g.status.BudgetLimited?)
      && Drawn(w, g.continuationPending) && Drawn(w, g.budgetPending)
      && g.goalId < w.next && 1 <= g.revision <= U64_MAX
  }

  lemma StepKeeps(w: World, op: Op)
    requires Inv(w)
    ensures Inv(Step(w, op))
  {
  }

  lemma {:induction false} EveryRunKeeps(w: World, ops: seq<Op>)
    requires Inv(w)
    ensures Inv(Run(w, ops))
    decreases |ops|
  {
    hide Inv, Step;
    if ops != [] {
      StepKeeps(w, ops[0]);
      EveryRunKeeps(Step(w, ops[0]), ops[1..]);
    }
  }

  // ---------------------------------------------------------------- revisions

  /** An operation that changes a goal raises its revision; none lowers it. */
  lemma RevisionRises(w: World, op: Op)
    requires Inv(w) && w.file.Some? && Step(w, op).file.Some?
    requires Step(w, op).file.value.goalId == w.file.value.goalId
    ensures Step(w, op).file.value.revision >= w.file.value.revision
    ensures Step(w, op).file != w.file && w.file.value.revision < U64_MAX ==>
              Step(w, op).file.value.revision > w.file.value.revision
  {
  }

  /** The revision counts operations, so no run of feasible length exhausts it. */
  lemma {:induction false} RevisionBounded(w: World, ops: seq<Op>, bound: nat)
    requires Inv(w) && (w.file.Some? ==> w.file.value.revision <= bound) && bound >= 1
    ensures Run(w, ops).file.Some? ==> Run(w, ops).file.value.revision <= bound + 2 * |ops|
    decreases |ops|
  {
    if ops != [] {
      StepKeeps(w, ops[0]);
      RevisionBounded(Step(w, ops[0]), ops[1..], bound + 2);
    }
  }

  // ---------------------------------------------------------------- acknowledgements

  /** `id` can never take effect again: its UUID is drawn and pending nowhere, or its goal
      is past that revision or gone for good. */
  ghost predicate Spent(w: World, id: ContributionId) {
    match id
    case Uuid(n) =>
      && n < w.next
      && (w.file.Some? ==> w.file.value.continuationPending != Some(id) && w.file.value.budgetPending != Some(id))
    case Transition(goalId, revision) =>
      && goalId < w.next
      && (w.file.Some? && w.file.value.goalId == goalId ==> w.file.value.revision > revision)
  }

  lemma SpentStays(w: World, op: Op, id: ContributionId)
    requires Inv(w) && Spent(w, id)
    ensures Spent(Step(w, op), id)
  {
  }

  lemma EffectSpends(w: World, id: ContributionId)
    requires Inv(w) && Effective(w, id)
    requires id.Transition? ==> w.file.value.revision < U64_MAX
    ensures Spent(Step(w, Acknowledge(id)), id)
  {
  }

  lemma {:induction false} SpentForGood(w: World, ops: seq<Op>, id: ContributionId)
    requires Inv(w) && Spent(w, id)
    ensures !Effective(Run(w, ops), id)
    decreases |ops|
  {
    if ops == [] {
    } else {
      hide Inv, Step, Spent, Effective;
      StepKeeps(w, ops[0]);
      SpentStays(w, ops[0], id);
      SpentForGood(Step(w, ops[0]), ops[1..], id);
    }
  }

  /** A contribution takes effect at most once, whatever happens afterwards, unless it is a
      budget transition at the largest revision. */
  lemma AcknowledgedOnce(w: World, id: ContributionId, ops: seq<Op>)
    requires Inv(w) && Effective(w, id)
    requires id.Transition? ==> w.file.value.revision < U64_MAX
    ensures !Effective(Run(Step(w, Acknowledge(id)), ops), id)
  {
    hide Step, Spent;
    EffectSpends(w, id);
    StepKeeps(w, Acknowledge(id));
    SpentForGood(Step(w, Acknowledge(id)), ops, id);
  }

  /** At the largest revision the promise fails: a budget transition acknowledged there
      takes effect again after a resume. */
  lemma SaturatedRevisionRepeats(w: World)
    requires Inv(w) && w.file.Some? && w.file.value.status.Active? && w.file.value.revision == U64_MAX
    ensures var id := w.file.value.TransitionId();
            && Effective(w, id)
            && Effective(Run(Step(w, Acknowledge(id)), [Resume]), id)
  {
    var id := w.file.value.TransitionId();
    var w1 := Step(w, Acknowledge(id));
    assert w1.file.value.status == BudgetLimited && w1.file.value.revision == U64_MAX;
    assert Run(w1, [Resume]) == Run(Step(w1, Resume), [Resume][1..]) == Step(w1, Resume);
  }

  /** What an acknowledgement may settle: the very prompt that is pending under its id in
      the same goal, or, for a budget transition, the unchanged goal it was prepared for. */
  ghost predicate SettlesSame(before: Goal, now: Goal, id: ContributionId) {
    && now.goalId == before.goalId
    && match id
       case Uuid(_) =>
         && (before.continuationPending == Some(id) ==> now.continuationPending == Some(id))
         && (before.budgetPending == Some(id) ==> now.budgetPending == Some(id))
       case Transition(_, revision) => now == before
  }

  /** While `id` can still take effect, the goal it was prepared for is still there, with
      that prompt pending or, for a transition, entirely unchanged. */
  ghost predicate Traces(before: Goal, w: World, id: ContributionId) {
    && before.goalId < w.next
    && (id.Uuid? ==> id.n < w.next)
    && (Effective(w, id) ==> SettlesSame(before, w.file.value, id))
    && (id.Transition? ==> Spent(w, id) || (w.file == Some(before) && id == before.TransitionId()))
  }

  lemma TracesStays(before: Goal, w: World, op: Op, id: ContributionId)
    requires Inv(w) && Traces(before, w, id)
    requires before.revision < U64_MAX
    requires id.Uuid? ==> (before.continuationPending == Some(id)) != (before.budgetPending == Some(id))
    ensures Traces(before, Step(w, op), id)
  {
    if id.Transition? {
      TransitionTraceStays(before, w, op, id);
    } else {
      UuidTraceStays(before, w, op, id);
    }
  }

  lemma TransitionTraceStays(before: Goal, w: World, op: Op, id: ContributionId)
    requires Inv(w) && Traces(before, w, id) && id.Transition?
    requires before.revision < U64_MAX
    ensures Traces(before, Step(w, op), id)
  {
    if w.file == Some(before) {
      assert Step(w, op).file == w.file || Spent(Step(w, op), id);
    }
  }

  lemma UuidTraceStays(before: Goal, w: World, op: Op, id: ContributionId)
    requires Inv(w) && Traces(before, w, id) && id.Uuid?
    requires (before.continuationPending == Some(id)) != (before.budgetPending == Some(id))
    ensures Traces(before, Step(w, op), id)
  {
  }

  lemma {:induction false} TracesForGood(before: Goal, w: World, ops: seq<Op>, id: ContributionId)
    requires Inv(w) && Traces(before, w, id)
    requires before.revision < U64_MAX
    requires id.Uuid? ==> (before.continuationPending == Some(id)) != (before.budgetPending == Some(id))
    ensures Traces(before, Run(w, ops), id)
    decreases |ops|
  {
    hide Inv, Step, Traces;
    if ops != [] {
      StepKeeps(w, ops[0]);
      TracesStays(before, w, ops[0], id);
      TracesForGood(before, Step(w, ops[0]), ops[1..], id);
    }
  }

  /** A prepared contribution never settles a newer state: if it takes effect at all, the
      goal is still the one it was prepared for, its prompt still the one pending, and for
      a budget transition nothing about the goal has changed. */
  lemma PreparedSettlesOnlyItsOwn(w: World, total: Option<nat>, ops: seq<Op>)
    requires Inv(w) && Prepare(w.file, total).Some?
    requires w.file.value.revision < U64_MAX
    requires Effective(Run(w, ops), Prepare(w.file, total).value)
    ensures SettlesSame(w.file.value, Run(w, ops).file.value, Prepare(w.file, total).value)
  {
    var id := Prepare(w.file, total).value;
    assert Traces(w.file.value, w, id);
    TracesForGood(w.file.value, w, ops, id);
  }

  // ---------------------------------------------------------------- the token budget

  /** Automatic continuations granted in a run. */
  function Grants(w: World, ops: seq<Op>): nat
    decreases |ops|
  {
    if ops == [] then 0
    else (if Granted(w, ops[0]) then 1 else 0) + Grants(Step(w, ops[0]), ops[1..])
  }

  /** Nothing in the run restarts a goal. */
  ghost predicate NoRestart(ops: seq<Op>) {
    forall i | 0 <= i < |ops| :: !(ops[i].Resume? || ops[i].AdjustBudget? || ops[i].Create?)
  }

  /** The usage read at every stop is known and at least `total`. */
  ghost predicate UsageAtLeast(ops: seq<Op>, total: nat) {
    forall i | 0 <= i < |ops| && ops[i].Stop? :: ops[i].total.Some? && ops[i].total.value >= total
  }

  lemma {:induction false} InactiveStaysInactive(w: World, ops: seq<Op>)
    requires NoRestart(ops) && !(w.file.Some? && w.file.value.status.Active?)
    ensures Grants(w, ops) == 0
    decreases |ops|
  {
    if ops != [] {
      assert !(ops[0].Resume? || ops[0].AdjustBudget? || ops[0].Create?);
      InactiveStaysInactive(Step(w, ops[0]), ops[1..]);
    }
  }

  /** Once usage has reached the budget, at most one more step is granted, whichever of
      stop hook and acknowledgement comes first and whatever else happens, until the goal
      is resumed, re-budgeted or replaced. */
  lemma {:induction false} BudgetStopsContinuation(w: World, ops: seq<Op>, total: nat)
    requires Inv(w) && w.file.Some? && w.file.value.BudgetReached(Some(total))
    requires NoRestart(ops) && UsageAtLeast(ops, total)
    ensures Grants(w, ops) <= 1
    decreases |ops|
  {
    hide Inv;
    if ops != [] {
      var w' := Step(w, ops[0]);
      assert !(ops[0].Resume? || ops[0].AdjustBudget? || ops[0].Create?);
      StepKeeps(w, ops[0]);
      if w'.file.Some? && w'.file.value.status.Active? {
        ReachedStays(w, ops[0], total);
        BudgetStopsContinuation(w', ops[1..], total);
      } else {
        InactiveStaysInactive(w', ops[1..]);
      }
    }
  }

  /** An operation that leaves the goal active, other than a restart, was no granted stop
      and left the budget as it was. */
  lemma ReachedStays(w: World, op: Op, total: nat)
    requires w.file.Some? && w.file.value.BudgetReached(Some(total))
    requires !(op.Resume? || op.AdjustBudget? || op.Create?)
    requires op.Stop? ==> op.total.Some? && op.total.value >= total
    requires Step(w, op).file.Some? && Step(w, op).file.value.status.Active?
    ensures !Granted(w, op)
    ensures Step(w, op).file.value.BudgetReached(Some(total))
  {
  }

  /** Stops that nothing interrupts, each with the usage read at that moment. */
  function Stops(totals: seq<Option<nat>>): seq<Op> {
    seq(|totals|, i requires 0 <= i < |totals| => Stop(totals[i]))
  }

  /** An active goal is granted every one of a series of stops exactly when the budget is
      reached at none of them but possibly the last. */
  lemma {:induction false} StopsGrantedExactly(w: World, totals: seq<Option<nat>>)
    requires w.file.Some? && w.file.value.status.Active?
    ensures Grants(w, Stops(totals)) == |totals|
       <==> forall i | 0 <= i < |totals| - 1 :: !w.file.value.BudgetReached(totals[i])
    decreases |totals|
  {
    if totals != [] {
      var g, w' := w.file.value, Step(w, Stop(totals[0]));
      assert Stops(totals)[0] == Stop(totals[0]) && Stops(totals)[1..] == Stops(totals[1..]);
      if g.BudgetReached(totals[0]) {
        InactiveStaysInactive(w', Stops(totals[1..]));
      } else {
        StopsGrantedExactly(w', totals[1..]);
        SameBudget(w, totals[0]);
        assert forall i | 0 <= i < |totals| - 2 :: totals[1..][i] == totals[i + 1];
        assert forall i | 1 <= i < |totals| - 1 :: totals[i] == totals[1..][i - 1];
      }
    }
  }

  lemma SameBudget(w: World, total: Option<nat>)
    requires w.file.Some? && w.file.value.status.Active? && !w.file.value.BudgetReached(total)
    ensures var after := Step(w, Stop(total)).file;
            after.Some? && forall t: Option<nat> :: after.value.BudgetReached(t) == w.file.value.BudgetReached(t)
  {
  }

  /** A goal without a budget, or created while usage could not be read, is never stopped,
      whatever usage is read later; nor is any goal while usage cannot be read. */
  lemma UnmeasuredNeverStops(w: World, totals: seq<Option<nat>>)
    requires w.file.Some? && w.file.value.status.Active?
    requires || w.file.value.tokenBudget.None? || w.file.value.usageBaseline.None?
             || forall i | 0 <= i < |totals| :: totals[i].None?
    ensures Grants(w, Stops(totals)) == |totals|
  {
    StopsGrantedExactly(w, totals);
  }

  /** In numbers: the budget of an active goal is reached once usage has grown by it since the
      goal's baseline. */
  lemma BudgetInNumbers(g: Goal, budget: nat, baseline: nat, total: nat)
    requires g.tokenBudget == Some(budget) && g.usageBaseline == Some(baseline) && budget > 0
    ensures g.BudgetReached(Some(total)) <==> g.status.Active? && total >= baseline + budget
    ensures !g.BudgetReached(None)
  {
  }

  /** A new goal with a budget is granted every one of a series of stops exactly when at none
      but possibly the last the usage has grown by the budget since its creation. */
  lemma NewGoalStopsInNumbers(next: nat, objective: string, budget: nat, start: nat, totals: seq<Option<nat>>)
    requires budget > 0 && !IsBlank(objective)
    ensures var w := Step(World(None, next), Create(objective, Some(budget), Some(start)));
            Grants(w, Stops(totals)) == |totals|
            <==> forall i | 0 <= i < |totals| - 1 :: totals[i].None? || totals[i].value < start + budget
  {
    var w := Step(World(None, next), Create(objective, Some(budget), Some(start)));
    StopsGrantedExactly(w, totals);
    forall i | 0 <= i < |totals| - 1
      ensures w.file.value.BudgetReached(totals[i]) <==> totals[i].Some? && totals[i].value >= start + budget
    {
      if totals[i].Some? { BudgetInNumbers(w.file.value, budget, start, totals[i].value); }
    }
  }

  /** A new budget counts from the old baseline: the goal is active again, and is granted
      every one of a series of stops exactly when at none but possibly the last the usage has
      grown by the new budget since the goal was created. */
  lemma AdjustedStopsInNumbers(w: World, budget: nat, totals: seq<Option<nat>>)
    requires w.file.Some? && !w.file.value.status.Complete? && budget > 0 && w.file.value.usageBaseline.Some?
    ensures var w' := Step(w, AdjustBudget(budget));
            var start := w.file.value.usageBaseline.value;
            Grants(w', Stops(totals)) == |totals|
            <==> forall i | 0 <= i < |totals| - 1 :: totals[i].None? || totals[i].value < start + budget
  {
    var w' := Step(w, AdjustBudget(budget));
    var start := w.file.value.usageBaseline.value;
    StopsGrantedExactly(w', totals);
    forall i | 0 <= i < |totals| - 1
      ensures w'.file.value.BudgetReached(totals[i]) <==> totals[i].Some? && totals[i].value >= start + budget
    {
      if totals[i].Some? { BudgetInNumbers(w'.file.value, budget, start, totals[i].value); }
    }
  }

  // ---------------------------------------------------------------- single operations

  /** What no operation on a goal changes, and what only one does. */
  ghost predicate SameGoal(before: Goal, after: Goal) {
    && after.goalId == before.goalId && after.objective == before.objective
    && after.usageBaseline == before.usageBaseline
  }

  /** A goal is created exactly when its objective says something, its budget is not zero, and
      no unfinished goal is there; it starts active, without prompts, under a fresh id. */
  lemma CreateExactly(w: World, objective: string, budget: Option<nat>, total: Option<nat>)
    ensures var after := Step(w, Create(objective, budget, total)).file;
            if && (exists i | 0 <= i < |objective| :: !IsWhitespace(objective[i]))
               && budget != Some(0) && (w.file.None? || w.file.value.status.Complete?)
            then
              && after.Some? && after.value.goalId == w.next && after.value.revision == 1
              && after.value.objective == Trim(objective) && after.value.status.Active?
              && after.value.tokenBudget == budget && after.value.usageBaseline == total
              && after.value.continuationPending.None? && after.value.budgetPending.None?
              && after.value.continuationCount == 0
            else after == w.file
  {
    BlankIffAllWhitespace(objective);
  }

  /** Exactly paused and budget-limited goals can be resumed, with their budget; a new budget
      activates every goal that is not complete.  Both keep the goal, its baseline and its
      count of continuations. */
  lemma ReactivationExactly(w: World, budget: nat)
    ensures var after := Step(w, Resume).file;
            if w.file.Some? && w.file.value.status in {Paused, BudgetLimited}
            then
              && after.Some? && after.value.status.Active? && SameGoal(w.file.value, after.value)
              && after.value.tokenBudget == w.file.value.tokenBudget
              && after.value.continuationCount == w.file.value.continuationCount
            else after == w.file
    ensures var after := Step(w, AdjustBudget(budget)).file;
            if w.file.Some? && w.file.value.status != Complete && budget > 0
            then
              && after.Some? && after.value.status.Active? && SameGoal(w.file.value, after.value)
              && after.value.tokenBudget == Some(budget)
              && after.value.continuationCount == w.file.value.continuationCount
            else after == w.file
  {
  }

  /** Pausing, finishing and clearing. */
  lemma DeactivationExactly(w: World, complete: bool)
    ensures Step(w, Clear).file == None
    ensures w.file.None? ==> Step(w, Pause).file == None && Step(w, Finish(complete)).file == None
    ensures w.file.Some? ==>
              && Step(w, Pause).file.Some? && Step(w, Pause).file.value.status == Paused
              && SameGoal(w.file.value, Step(w, Pause).file.value)
              && Step(w, Finish(complete)).file.Some?
              && Step(w, Finish(complete)).file.value.status == (if complete then Complete else Blocked)
              && SameGoal(w.file.value, Step(w, Finish(complete)).file.value)
  {
  }

  /** A granted stop leaves a prompt under a fresh id, and that is what the next request is
      offered: the continuation, which is counted, or, when the budget is reached, the last
      word on it, and the goal is limited. */
  lemma GrantedStopIsPrompted(w: World, total: Option<nat>)
    requires w.file.Some? && w.file.value.status.Active?
    ensures var before, after := w.file.value, Step(w, Stop(total)).file;
            && after.Some? && SameGoal(before, after.value) && after.value.tokenBudget == before.tokenBudget
            && Prepare(after, total) == Some(Uuid(w.next))
            && (if before.BudgetReached(total)
                then
                  && after.value.status.BudgetLimited? && after.value.budgetPending == Some(Uuid(w.next))
                  && after.value.continuationPending.None? && after.value.continuationCount == before.continuationCount
                else
                  && after.value.status.Active? && after.value.continuationPending == Some(Uuid(w.next))
                  && after.value.continuationCount == SaturatingInc(before.continuationCount))
  {
  }

  /** What is offered can be acknowledged, and acknowledging it has its effect: the prompt is
      no longer pending, or the goal that had reached its budget is limited. */
  lemma OfferedTakesEffect(w: World, total: Option<nat>)
    requires Inv(w) && Prepare(w.file, total).Some?
    ensures var id := Prepare(w.file, total).value;
            var after := Step(w, Acknowledge(id)).file;
            && Effective(w, id) && after.Some? && SameGoal(w.file.value, after.value)
            && after.value.continuationPending != Some(id) && after.value.budgetPending != Some(id)
            && (if id.Transition?
                then w.file.value.BudgetReached(total) && after.value.status.BudgetLimited? && after.value.budgetPending.None?
                else after.value.status == w.file.value.status)
  {
  }

  /** Nothing is offered exactly when nothing is due. */
  lemma NothingOfferedExactly(w: World, total: Option<nat>)
    requires Inv(w)
    ensures Prepare(w.file, total).None? <==>
              || w.file.None?
              || (&& w.file.value.continuationPending.None? && w.file.value.budgetPending.None?
                  && !w.file.value.BudgetReached(total))
  {
  }

  // ---------------------------------------------------------------- the store at work

  /** One operation, carried out by the store's methods. */
  method Perform(store: Store, next: nat, op: Op) returns (granted: bool)
    modifies store
    ensures World(store.file, next + 1) == Step(World(old(store.file), next), op)
    ensures granted == Granted(World(old(store.file), next), op)
  {
    granted := false;
    match op
    case Create(objective, budget, total) =>
      var _ := store.Create(next, objective, budget, total);
    case Finish(complete) =>
      var _ := store.UpdateStatus(if complete then Complete else Blocked);
    case Pause =>
      var _ := store.UpdateStatus(Paused);
    case Resume =>
      var _ := store.Resume();
    case AdjustBudget(budget) =>
      var _ := store.AdjustBudget(budget);
    case Clear =>
      store.Clear();
    case Acknowledge(id) =>
      store.Acknowledge(id);
    case Stop(total) =>
      granted := store.ContinueAfterStop(total, next);
  }

  /** A whole session: the store's methods follow the run that the theorems are about, so
      at every end prompts and status agree, and the granted steps are those counted. */
  method PerformAll(ops: seq<Op>) returns (store: Store, grants: nat)
    ensures fresh(store) && store.file == Run(INIT, ops).file
    ensures grants == Grants(INIT, ops)
    ensures store.file.Some? ==>
              && (store.file.value.continuationPending.Some? ==> store.file.value.status.Active?)
              && (store.file.value.budgetPending.Some? ==> store.file.value.status.BudgetLimited?)
  {
    store := new Store();
    grants := 0;
    assert ops[0..] == ops;
    for i := 0 to |ops|
      invariant fresh(store)
      invariant Run(World(store.file, i), ops[i..]) == Run(INIT, ops)
      invariant grants + Grants(World(store.file, i), ops[i..]) == Grants(INIT, ops)
    {
      assert ops[i..][0] == ops[i] && ops[i..][1..] == ops[i + 1..];
      var granted := Perform(store, i, ops[i]);
      grants := grants + if granted then 1 else 0;
    }
    EveryRunKeeps(INIT, ops);
  }
}
