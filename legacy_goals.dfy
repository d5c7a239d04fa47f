/** The older goal routes, kept beside the ledger. They store the same goal
    rows, but adding money is a bare `current_amount = current_amount + ?`:
    no balance is read or written, and nothing stops the amount from going
    negative. */
module LegacyGoals {
  import opened Text
  import opened GoalLedger

  /** `UPDATE goals SET current_amount = current_amount + ? WHERE id = ? AND
      user_id = ?`: every matching row grows by `amount`. */
  function AddToMatching(goals: seq<Goal>, id: nat, userId: nat, amount: real): (r: seq<Goal>)
    ensures |r| == |goals|
    ensures forall k :: 0 <= k < |goals| ==>
      r[k] == if Matches(goals[k], id, userId)
              then goals[k].(currentAmount := goals[k].currentAmount + amount)
              else goals[k]
  {
    seq(|goals|, k requires 0 <= k < |goals| =>
      if Matches(goals[k], id, userId) then goals[k].(currentAmount := goals[k].currentAmount + amount)
      else goals[k])
  }

  /** POST /goals: the row starts at 0 under the next id. */
  function LegacyCreateSpec(goals: seq<Goal>, nextGoalId: nat, userId: nat, title: string,
                            targetAmount: real, category: string, now: int): (r: (seq<Goal>, Goal))
  {
    var g := Goal(nextGoalId, userId, title, targetAmount, 0.0, category, now);
    (goals + [g], g)
  }

  /** PATCH /goals/:id: not found when no row changed, otherwise the refreshed
      row. */
  function LegacyIncrementSpec(goals: seq<Goal>, userId: nat, goalId: nat, amount: real)
    : (r: (seq<Goal>, Result<Goal>))
  {
    var i := FindGoal(goals, goalId, userId);
    if i == |goals| then (goals, Err(NotFound("Goal not found")))
    else
      var updated := AddToMatching(goals, goalId, userId, amount);
      (updated, Ok(updated[i]))
  }

  /** DELETE /goals/:id: scoped by owner; not found when no row went. */
  function LegacyDeleteSpec(goals: seq<Goal>, userId: nat, goalId: nat): (r: (seq<Goal>, Result<()>))
  {
    var remaining := WithoutGoal(goals, goalId, userId);
    if |remaining| == |goals| then (goals, Err(NotFound("Goal not found")))
    else (remaining, Ok(()))
  }

  /** A new goal belongs to the caller and holds nothing. */
  lemma LegacyCreateStartsEmpty(goals: seq<Goal>, nextGoalId: nat, userId: nat, title: string,
                                targetAmount: real, category: string, now: int)
    ensures var r := LegacyCreateSpec(goals, nextGoalId, userId, title, targetAmount, category, now);
            && r.1.currentAmount == 0.0 && r.1.userId == userId && r.1.id == nextGoalId
            && r.0 == goals + [r.1]
            && NewestFirst(r.0, userId) != []
  {
    var r := LegacyCreateSpec(goals, nextGoalId, userId, title, targetAmount, category, now);
    assert r.1 in r.0;
    assert r.1 in NewestFirst(r.0, userId);
  }

  /** The increment is unconditional: whatever the amount, the owned row
      grows by it, and every other row stays. */
  lemma LegacyIncrementUnchecked(goals: seq<Goal>, userId: nat, goalId: nat, amount: real)
    ensures var r := LegacyIncrementSpec(goals, userId, goalId, amount);
            var i := FindGoal(goals, goalId, userId);
            && (r.1.Err? <==> !Owns(goals, goalId, userId))
            && (r.1.Err? ==> r == (goals, Err(NotFound("Goal not found"))))
            && (r.1.Ok? ==>
                  && r.1.value == goals[i].(currentAmount := goals[i].currentAmount + amount)
                  && |r.0| == |goals|
                  && forall k :: 0 <= k < |goals| && !Matches(goals[k], goalId, userId) ==> r.0[k] == goals[k])
  {
    OwnsIffFound(goals, goalId, userId);
  }

  /** Two increments are one increment by the sum. */
  lemma LegacyIncrementsAdd(goals: seq<Goal>, userId: nat, goalId: nat, a: real, b: real)
    ensures var r1 := LegacyIncrementSpec(goals, userId, goalId, a);
            LegacyIncrementSpec(r1.0, userId, goalId, b) == LegacyIncrementSpec(goals, userId, goalId, a + b)
  {
    var r1 := LegacyIncrementSpec(goals, userId, goalId, a);
    var i := FindGoal(goals, goalId, userId);
    if i < |goals| {
      assert forall k :: 0 <= k < |goals| ==> Matches(r1.0[k], goalId, userId) == Matches(goals[k], goalId, userId);
      assert FindGoal(r1.0, goalId, userId) == i;
      var r2 := LegacyIncrementSpec(r1.0, userId, goalId, b);
      var r := LegacyIncrementSpec(goals, userId, goalId, a + b);
      assert forall k :: 0 <= k < |goals| ==> r2.0[k] == r.0[k];
      assert r2.0 == r.0;
    }
  }

  /** Where the ledger refuses to take out more than a goal holds, the older
      route lets the amount go negative; and where the ledger refuses to
      spend more than the balance, the older route never looks at a balance. */
  lemma LegacyAllowsWhatLedgerRefuses()
    ensures var g := Goal(1, 7, "Trip", 500.0, 100.0, "a|Travel", 0);
            && LegacyIncrementSpec([g], 7, 1, -500.0).1 == Ok(g.(currentAmount := -400.0))
            && Fund(100.0, 1000.0, -500.0).Refused?
            && LegacyIncrementSpec([g], 7, 1, 5000.0).1.Ok?
            && Fund(100.0, 1000.0, 5000.0) == Refused(BadRequest("Insufficient balance"))
  {
    var g := Goal(1, 7, "Trip", 500.0, 100.0, "a|Travel", 0);
    assert Matches([g][0], 1, 7);
  }

  /** A deletion never touches another user's goals, and reports not found
      exactly when the caller owns no goal with that id. */
  lemma LegacyDeleteScoped(goals: seq<Goal>, userId: nat, goalId: nat)
    ensures var r := LegacyDeleteSpec(goals, userId, goalId);
            && (r.1.Err? <==> !Owns(goals, goalId, userId))
            && (r.1.Err? ==> r.0 == goals)
            && (forall g :: g in r.0 <==> g in goals && (r.1.Ok? ==> !Matches(g, goalId, userId)))
            && (forall g :: g in goals && g.userId != userId ==> g in r.0)
  {
    OwnsIffFound(goals, goalId, userId);
    WithoutGoalMembers(goals, goalId, userId);
  }

  /** The goals table of the older server. */
  class LegacyGoalStore {
    var goals: seq<Goal>
    var nextGoalId: nat

    ghost predicate Valid()
      reads this
    {
      && (forall i :: 0 <= i < |goals| ==> goals[i].id < nextGoalId)
      && (forall i, j :: 0 <= i < j < |goals| ==> goals[i].id != goals[j].id)
    }

    constructor ()
      ensures Valid() && goals == [] && nextGoalId == 1
    {
      goals := [];
      nextGoalId := 1;
    }

    method List(userId: nat) returns (r: seq<Goal>)
      ensures r == NewestFirst(goals, userId)
    {
      r := NewestFirst(goals, userId);
    }

    method Create(userId: nat, title: string, targetAmount: real, category: string, now: int)
      returns (g: Goal)
      requires Valid()
      modifies this
      ensures Valid()
      ensures (goals, g) == LegacyCreateSpec(old(goals), old(nextGoalId), userId, title, targetAmount, category, now)
      ensures nextGoalId == old(nextGoalId) + 1
    {
      g := Goal(nextGoalId, userId, title, targetAmount, 0.0, category, now);
      goals := goals + [g];
      nextGoalId := nextGoalId + 1;
    }

    method Increment(userId: nat, goalId: nat, amount: real) returns (res: Result<Goal>)
      requires Valid()
      modifies this
      ensures Valid() && nextGoalId == old(nextGoalId)
      ensures (goals, res) == LegacyIncrementSpec(old(goals), userId, goalId, amount)
    {
      var i := FindGoal(goals, goalId, userId);
      if i == |goals| {
        return Err(NotFound("Goal not found"));
      }
      goals := AddToMatching(goals, goalId, userId, amount);
      res := Ok(goals[i]);
    }

    method Delete(userId: nat, goalId: nat) returns (res: Result<()>)
      requires Valid()
      modifies this
      ensures Valid() && nextGoalId == old(nextGoalId)
      ensures (goals, res) == LegacyDeleteSpec(old(goals), userId, goalId)
    {
      var remaining := WithoutGoal(goals, goalId, userId);
      var changes := |goals| - |remaining|;
      if changes == 0 {
        return Err(NotFound("Goal not found"));
      }
      if FindGoal(goals, goalId, userId) < |goals| {
        var i := FindGoal(goals, goalId, userId);
        DeleteOneGoal(goals, goalId, userId);
        assert forall j :: 0 <= j < |remaining| ==> remaining[j] == goals[if j < i then j else j + 1];
      }
      goals := remaining;
      res := Ok(());
    }
  }
}
