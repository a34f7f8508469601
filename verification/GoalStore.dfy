/** The session goal: its transitions, the acknowledgement of prompt contributions, and
    the store that loads, changes and saves it.

    Identifiers that the source draws from UUIDs are numbers handed in by the caller; the
    protocol in module `GoalLifecycle` hands in fresh ones.
 */
module GoalStore {
  import opened Machine
  import opened Text
  import opened Wrappers

  datatype Status = Active | Paused | Blocked | UsageLimited | BudgetLimited | Complete

  /** A UUID, or the string that names a budget transition of one goal at one revision. */
  datatype ContributionId = Uuid(n: nat) | Transition(goalId: nat, revision: nat)

  datatype Goal = Goal(
    revision: nat, goalId: nat, objective: string, status: Status,
    tokenBudget: Option<nat>, usageBaseline: Option<nat>,
    continuationPending: Option<ContributionId>, budgetPending: Option<ContributionId>,
    continuationCount: nat)
  {
    function Touch(): Goal { this.(revision := SaturatingInc(revision)) }

    function SetStatus(s: Status): Goal {
      this.(status := s,
            continuationPending := if s.Active? then continuationPending else None,
            budgetPending := if s.BudgetLimited? then budgetPending else None).Touch()
    }

    function MarkContinuation(uuid: nat): Goal {
      this.(continuationPending := Some(Uuid(uuid)), continuationCount := SaturatingInc(continuationCount)).Touch()
    }

    function MarkBudgetLimit(uuid: nat): Goal {
      this.(budgetPending := Some(Uuid(uuid))).Touch()
    }

    function TransitionId(): ContributionId { Transition(goalId, revision) }

    /** Whether acknowledging `id` has an effect. */
    predicate Awaits(id: ContributionId) {
      || continuationPending == Some(id)
      || budgetPending == Some(id)
      || (status.Active? && TransitionId() == id)
    }

    function Acknowledge(id: ContributionId): Goal
      requires Awaits(id)
    {
      if continuationPending == Some(id) then this.(continuationPending := None).Touch()
      else if budgetPending == Some(id) then this.(budgetPending := None).Touch()
      else SetStatus(BudgetLimited).(budgetPending := None)
    }

    /** `budget_reached` for the session's total usage, when that is known. */
    predicate BudgetReached(total: Option<nat>) {
      && status.Active? && tokenBudget.Some? && usageBaseline.Some? && total.Some?
      && SaturatingSub(total.value, usageBaseline.value) >= tokenBudget.value
    }
  }

  function NewGoal(uuid: nat, objective: string, budget: Option<nat>, baseline: Option<nat>): Goal {
    Goal(1, uuid, objective, Active, budget, baseline, None, None, 0)
  }

  /** The in-memory state that the source's methods change field by field. */
  class GoalState {
    var revision: nat
    const goalId: nat
    const objective: string
    var status: Status
    var tokenBudget: Option<nat>
    const usageBaseline: Option<nat>
    var continuationPending: Option<ContributionId>
    var budgetPending: Option<ContributionId>
    var continuationCount: nat

    function Value(): Goal
      reads this
    {
      Goal(revision, goalId, objective, status, tokenBudget, usageBaseline, continuationPending, budgetPending,
           continuationCount)
    }

    constructor (g: Goal)
      ensures Value() == g
    {
      revision, goalId, objective, status := g.revision, g.goalId, g.objective, g.status;
      tokenBudget, usageBaseline := g.tokenBudget, g.usageBaseline;
      continuationPending, budgetPending := g.continuationPending, g.budgetPending;
      continuationCount := g.continuationCount;
    }

    method Touch()
      modifies this`revision
      ensures Value() == old(Value()).Touch()
    {
      revision := SaturatingInc(revision);
    }

    method SetStatus(s: Status)
      modifies this
      ensures Value() == old(Value()).SetStatus(s)
    {
      status := s;
      if s != Active {
        continuationPending := None;
      }
      if s != BudgetLimited {
        budgetPending := None;
      }
      Touch();
    }

    method MarkContinuationPending(uuid: nat)
      modifies this
      ensures Value() == old(Value()).MarkContinuation(uuid)
    {
      continuationPending := Some(Uuid(uuid));
      continuationCount := SaturatingInc(continuationCount);
      Touch();
    }

    method MarkBudgetLimitPromptPending(uuid: nat)
      modifies this
      ensures Value() == old(Value()).MarkBudgetLimit(uuid)
    {
      budgetPending := Some(Uuid(uuid));
      Touch();
    }

    method AcknowledgeProviderContribution(id: ContributionId) returns (settled: bool)
      modifies this
      ensures settled == old(Value()).Awaits(id)
      ensures Value() == if settled then old(Value()).Acknowledge(id) else old(Value())
    {
      if continuationPending == Some(id) {
        continuationPending := None;
        Touch();
        return true;
      }
      if budgetPending == Some(id) {
        budgetPending := None;
        Touch();
        return true;
      }
      if status == Active && Transition(goalId, revision) == id {
        SetStatus(BudgetLimited);
        budgetPending := None;
        return true;
      }
      settled := false;
    }

    method ApplyBudgetLimit(total: Option<nat>, uuid: nat) returns (limited: bool)
      modifies this
      ensures limited == old(Value()).BudgetReached(total)
      ensures Value() == if limited then old(Value()).SetStatus(BudgetLimited).MarkBudgetLimit(uuid) else old(Value())
    {
      if !Value().BudgetReached(total) {
        return false;
      }
      SetStatus(BudgetLimited);
      MarkBudgetLimitPromptPending(uuid);
      limited := true;
    }
  }

  // ---------------------------------------------------------------- store operations

  datatype StoreError = NoGoal | NotResumable(status: Status) | CompletedGoal | ZeroBudget | EmptyObjective
                      | Unfinished(status: Status)

  type Saved = Option<Goal>

  function CreateResult(file: Saved, uuid: nat, objective: string, budget: Option<nat>, baseline: Option<nat>): Result<Goal, StoreError> {
    if IsBlank(objective) then Err(EmptyObjective)
    else if budget == Some(0) then Err(ZeroBudget)
    else if file.Some? && !file.value.status.Complete? then Err(Unfinished(file.value.status))
    else Ok(NewGoal(uuid, Trim(objective), budget, baseline))
  }

  function SetStatusResult(file: Saved, s: Status): Result<Goal, StoreError> {
    if file.None? then Err(NoGoal) else Ok(file.value.SetStatus(s))
  }

  function ResumeResult(file: Saved): Result<Goal, StoreError> {
    if file.None? then Err(NoGoal)
    else if file.value.status in {Paused, BudgetLimited} then Ok(file.value.SetStatus(Active))
    else Err(NotResumable(file.value.status))
  }

  function AdjustBudgetResult(file: Saved, budget: nat): Result<Goal, StoreError> {
    if budget == 0 then Err(ZeroBudget)
    else if file.None? then Err(NoGoal)
    else if file.value.status.Complete? then Err(CompletedGoal)
    else Ok(file.value.(tokenBudget := Some(budget)).SetStatus(Active))
  }

  /** The stop hook's new state for an active goal. */
  function Continued(g: Goal, total: Option<nat>, uuid: nat): Goal {
    if g.BudgetReached(total) then g.SetStatus(BudgetLimited).MarkBudgetLimit(uuid) else g.MarkContinuation(uuid)
  }

  function AfterSave(file: Saved, r: Result<Goal, StoreError>): Saved {
    if r.Ok? then Some(r.value) else file
  }

  /** What `prepare` offers for the next provider request. */
  function Prepare(file: Saved, total: Option<nat>): Option<ContributionId> {
    if file.None? then None
    else
      var g := file.value;
      if g.status.BudgetLimited? then g.budgetPending
      else if !g.status.Active? then None
      else if g.BudgetReached(total) then Some(g.TransitionId())
      else g.continuationPending
  }

  class Store {
    var file: Saved

    constructor ()
      ensures file == None
    {
      file := None;
    }

    method Create(uuid: nat, objective: string, budget: Option<nat>, baseline: Option<nat>) returns (r: Result<Goal, StoreError>)
      modifies this
      ensures r == CreateResult(old(file), uuid, objective, budget, baseline)
      ensures file == AfterSave(old(file), r)
    {
      if IsBlank(objective) {
        return Err(EmptyObjective);
      }
      if budget == Some(0) {
        return Err(ZeroBudget);
      }
      if file.Some? && file.value.status != Complete {
        return Err(Unfinished(file.value.status));
      }
      var goal := NewGoal(uuid, Trim(objective), budget, baseline);
      file := Some(goal);
      r := Ok(goal);
    }

    /** `update_status` and `pause` */
    method UpdateStatus(s: Status) returns (r: Result<Goal, StoreError>)
      modifies this
      ensures r == SetStatusResult(old(file), s)
      ensures file == AfterSave(old(file), r)
    {
      if file.None? {
        return Err(NoGoal);
      }
      var state := new GoalState(file.value);
      state.SetStatus(s);
      file := Some(state.Value());
      r := Ok(state.Value());
    }

    method Resume() returns (r: Result<Goal, StoreError>)
      modifies this
      ensures r == ResumeResult(old(file))
      ensures file == AfterSave(old(file), r)
    {
      if file.None? {
        return Err(NoGoal);
      }
      if file.value.status != Paused && file.value.status != BudgetLimited {
        return Err(NotResumable(file.value.status));
      }
      var state := new GoalState(file.value);
      state.SetStatus(Active);
      file := Some(state.Value());
      r := Ok(state.Value());
    }

    method AdjustBudget(budget: nat) returns (r: Result<Goal, StoreError>)
      modifies this
      ensures r == AdjustBudgetResult(old(file), budget)
      ensures file == AfterSave(old(file), r)
    {
      if budget == 0 {
        return Err(ZeroBudget);
      }
      if file.None? {
        return Err(NoGoal);
      }
      if file.value.status == Complete {
        return Err(CompletedGoal);
      }
      var state := new GoalState(file.value);
      state.tokenBudget := Some(budget);
      state.SetStatus(Active);
      file := Some(state.Value());
      r := Ok(state.Value());
    }

    method Clear()
      modifies this
      ensures file == None
    {
      file := None;
    }

    method Acknowledge(id: ContributionId)
      modifies this
      ensures file == if old(file).Some? && old(file).value.Awaits(id)
                      then Some(old(file).value.Acknowledge(id)) else old(file)
    {
      if file.None? {
        return;
      }
      var state := new GoalState(file.value);
      var settled := state.AcknowledgeProviderContribution(id);
      if !settled {
        return;
      }
      file := Some(state.Value());
    }

    /** `GoalContinueAfterStopHandler::handle`: whether one more step is granted. */
    method ContinueAfterStop(total: Option<nat>, uuid: nat) returns (granted: bool)
      modifies this
      ensures granted <==> old(file).Some? && old(file).value.status.Active?
      ensures file == if granted then Some(Continued(old(file).value, total, uuid)) else old(file)
      ensures granted && total.Some? && old(file).value.usageBaseline.Some? && old(file).value.tokenBudget.Some?
              && old(file).value.tokenBudget.value > 0 ==>
                (file.value.status.BudgetLimited? <==>
                   total.value >= old(file).value.usageBaseline.value + old(file).value.tokenBudget.value)
    {
      if file.None? || file.value.status != Active {
        return false;
      }
      var goal := new GoalState(file.value);
      var limited := goal.ApplyBudgetLimit(total, uuid);
      if limited {
        file := Some(goal.Value());
        return true;
      }
      goal.MarkContinuationPending(uuid);
      file := Some(goal.Value());
      granted := true;
    }
  }
}
