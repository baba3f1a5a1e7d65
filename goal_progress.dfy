/**
 * Goals: creating one from the form, moving its progress (clamped between
 * zero and the target), deleting it, and the percentage and "completed"
 * state each goal card shows.
 */
module GoalProgress {
  import opened Common
  import opened Seqs
  import opened Entities

  /** The new-goal form. The dialog has no input for the current value, which stays 0. */
  datatype GoalForm = GoalForm(name: string, target: int, current: int, unit: string, deadline: string)

  /** The form as it opens and as it is reset after a goal is added. */
  const EmptyGoalForm: GoalForm := GoalForm("", 100, 0, "", "")

  /** `addGoal`: the form's fields and a fresh id go at the end of the list. */
  function AddGoal(goals: seq<Goal>, form: GoalForm, freshId: Id): (r: seq<Goal>)
    ensures |r| == |goals| + 1 && r[..|goals|] == goals
    ensures r[|goals|].id == freshId && r[|goals|].name == form.name
    ensures r[|goals|].target == form.target && r[|goals|].current == form.current
    ensures r[|goals|].unit == form.unit && r[|goals|].deadline == form.deadline
  {
    goals + [Goal(freshId, form.name, form.target, form.current, form.unit, form.deadline)]
  }

  /** `Math.max(0, Math.min(requested, target))`. */
  function Clamp(requested: int, target: int): (c: int)
    ensures target >= 0 ==> 0 <= c <= target
    ensures target < 0 ==> c == 0
    ensures 0 <= requested <= target ==> c == requested
    ensures target >= 0 && requested > target ==> c == target
    ensures requested <= 0 ==> c == 0
  {
    Max(0, Min(requested, target))
  }

  /** `updateProgress`: each goal with the id gets the clamped value, the rest stay. */
  function UpdateProgress(goals: seq<Goal>, id: Id, requested: int): (r: seq<Goal>)
    ensures |r| == |goals|
    ensures forall i :: 0 <= i < |goals| && goals[i].id != id ==> r[i] == goals[i]
    ensures forall i :: 0 <= i < |goals| && goals[i].id == id ==>
      r[i] == goals[i].(current := Clamp(requested, goals[i].target))
  {
    seq(|goals|, i requires 0 <= i < |goals| =>
      if goals[i].id == id then goals[i].(current := Clamp(requested, goals[i].target)) else goals[i])
  }

  /** `deleteGoal` once confirmed. */
  function DeleteGoal(goals: seq<Goal>, id: Id): (r: seq<Goal>)
    ensures |r| <= |goals|
    ensures forall i :: 0 <= i < |r| ==> r[i] in goals && r[i].id != id
    ensures forall i :: 0 <= i < |goals| && goals[i].id != id ==> goals[i] in r
  {
    Without(goals, GoalId, id)
  }

  /** A goal whose progress lies between zero and its target. */
  predicate InRange(g: Goal)
  {
    0 <= g.current <= g.target
  }

  /**
   * The card's `Math.round(current / target * 100)`; absent when the target
   * is zero, where the division gives no finite number.
   */
  function GoalPercent(g: Goal): (percent: Option<int>)
    ensures g.target == 0 <==> percent.None?
  {
    if g.target == 0 then None else Some(RoundDiv(100 * g.current, g.target))
  }

  /** A goal between zero and a positive target shows 0 to 100 percent. */
  lemma PercentBetween(g: Goal)
    requires g.target > 0 && InRange(g)
    ensures 0 <= GoalPercent(g).value <= 100
  {
    RoundDivBetween(100 * g.current, g.target, 0, 100);
  }

  /** A goal at its positive target shows exactly 100 percent. */
  lemma PercentAtTarget(g: Goal)
    requires g.target > 0 && g.current == g.target
    ensures GoalPercent(g) == Some(100)
  {
    RoundDivUnique(100 * g.current, g.target, 100);
  }

  /** Reaching a positive target rounds to at least 100 percent; nothing done rounds to at most 0. */
  lemma PercentEnds(current: int, target: int)
    ensures target > 0 && current >= target ==> RoundDiv(100 * current, target) >= 100
    ensures target > 0 && current <= 0 ==> RoundDiv(100 * current, target) <= 0
  {
    if target > 0 {
      var r := RoundDiv(100 * current, target);
      if current >= target {
        assert target * 200 < target * (2 * r + 1);
        CancelPositiveStrict(target, 200, 2 * r + 1);
      } else if current <= 0 {
        assert target * (2 * r - 1) <= target * 0;
        CancelPositive(target, 2 * r - 1, 0);
      }
    }
  }

  /**
   * `progress >= 100`. With a zero target the quotient is +Infinity for a
   * positive current value and NaN (never >= 100) otherwise.
   */
  predicate GoalCompleted(g: Goal)
    ensures g.target > 0 && g.current >= g.target ==> GoalCompleted(g)
    ensures g.target >= 0 && g.current <= 0 ==> !GoalCompleted(g)
  {
    PercentEnds(g.current, g.target);
    match GoalPercent(g)
    case None => g.current > 0
    case Some(p) => p >= 100
  }

  /**
   * With a positive target a goal shows as completed exactly when
   * current/target is at least 0.995, so 199 of 200 already counts.
   */
  lemma CompletedIff(g: Goal)
    requires g.target > 0
    ensures GoalCompleted(g) <==> 200 * g.current >= 199 * g.target
  {
    RoundsToHundredIff(g.current, g.target);
  }

  /** The rounded percentage reaches 100 exactly from 99.5 percent on. */
  lemma RoundsToHundredIff(current: int, target: int)
    requires target > 0
    ensures RoundDiv(100 * current, target) >= 100 <==> 200 * current >= 199 * target
  {
    var q, p := target, 100 * current;
    var r := RoundDiv(p, q);
    if r >= 100 {
      assert q * 200 <= q * (2 * r);
    } else {
      assert q * (2 * r + 1) <= q * 199;
    }
  }

  /** Below 200 the target must actually be reached for the goal to show as completed. */
  lemma CompletedSmallTarget(g: Goal)
    requires 0 < g.target < 200 && InRange(g)
    ensures GoalCompleted(g) <==> g.current == g.target
  {
    CompletedIff(g);
  }

  /** Every step the card offers keeps a goal's progress between zero and its target. */
  lemma UpdateKeepsInRange(goals: seq<Goal>, id: Id, requested: int)
    requires forall i :: 0 <= i < |goals| ==> InRange(goals[i])
    ensures forall i :: 0 <= i < |goals| ==> InRange(UpdateProgress(goals, id, requested)[i])
  {
  }

  /** The "-" button at zero leaves the goal at zero. */
  lemma DecrementAtZero(goals: seq<Goal>, k: nat)
    requires k < |goals| && goals[k].current == 0
    ensures UpdateProgress(goals, goals[k].id, goals[k].current - 1)[k].current == 0
  {
  }

  /** A goal created from the reset form starts at 0 of 100 and is not completed. */
  lemma DefaultGoalNotCompleted(goals: seq<Goal>, freshId: Id)
    ensures var g := AddGoal(goals, EmptyGoalForm, freshId)[|goals|];
      g.current == 0 && g.target == 100 && !GoalCompleted(g)
  {
    var g := AddGoal(goals, EmptyGoalForm, freshId)[|goals|];
    CompletedIff(g);
  }

  /** Adding a goal under a fresh id keeps the ids unique. */
  lemma AddGoalKeepsIdsUnique(goals: seq<Goal>, form: GoalForm, freshId: Id)
    requires UniqueBy(goals, GoalId)
    requires forall i :: 0 <= i < |goals| ==> goals[i].id != freshId
    ensures UniqueBy(AddGoal(goals, form, freshId), GoalId)
  {
    AppendKeepsUnique(goals, Goal(freshId, form.name, form.target, form.current, form.unit, form.deadline), GoalId);
  }

  /** With unique ids, deleting a listed goal removes exactly that one. */
  lemma DeleteGoalRemovesOne(goals: seq<Goal>, k: nat)
    requires UniqueBy(goals, GoalId) && k < |goals|
    ensures DeleteGoal(goals, goals[k].id) == goals[..k] + goals[k + 1..]
  {
    WithoutRemovesOne(goals, GoalId, k);
  }
}
