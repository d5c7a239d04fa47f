/** The savings-goal ledger of the application server. A user's spendable
    `balance` and the `current_amount` of each of the user's goals are two
    pockets of the same money: funding a goal moves an amount from the balance
    into the goal, withdrawing moves it back. The handlers validate before
    they write, and the transfer writes both rows inside one transaction that
    a failed write rolls back.

    The state is the `goals` and `recurring_payments` tables (sequences of
    rows in rowid order), the users' balances (a map from user id) and the two
    AUTOINCREMENT counters. A request either fails and changes nothing, or
    makes exactly the change its route promises. Storage failures are a
    `fault` parameter, since they come from outside the program. */
module GoalLedger {
  import opened Text
  import opened Calendar
  import opened Sorting

  /** A row of the `goals` table; `createdAt` is the insertion time stamp. */
  datatype Goal = Goal(
    id: nat, userId: nat, title: string, targetAmount: real,
    currentAmount: real, category: string, createdAt: int)

  /** A row of `recurring_payments`: an intent to fund a goal periodically. */
  datatype RecurringPayment = RecurringPayment(
    id: nat, goalId: nat, userId: nat, amount: real, interval: string, nextPaymentDate: Date)

  datatype GoalError =
    | NotFound(message: string)      // status 404
    | BadRequest(message: string)    // status 400
    | ServerError(message: string)   // status 500
    | Crash                          // the handler throws before answering

  datatype Result<T> = Ok(value: T) | Err(error: GoalError)

  /** The whole database state the goal routes touch. */
  datatype Tables = Tables(
    goals: seq<Goal>, balances: map<nat, real>, payments: seq<RecurringPayment>,
    nextGoalId: nat, nextPaymentId: nat)

  predicate Matches(g: Goal, id: nat, userId: nat)
  {
    g.id == id && g.userId == userId
  }

  /** `WHERE id = ? AND user_id = ?`: the first matching row, or `|goals|`. */
  function FindGoal(goals: seq<Goal>, id: nat, userId: nat): (i: nat)
    ensures i <= |goals|
    ensures i < |goals| ==> Matches(goals[i], id, userId)
    ensures forall j :: 0 <= j < i ==> !Matches(goals[j], id, userId)
    decreases |goals|
  {
    if |goals| == 0 then 0
    else if Matches(goals[0], id, userId) then 0
    else 1 + FindGoal(goals[1..], id, userId)
  }

  /** The user owns a goal with this id. */
  ghost predicate Owns(goals: seq<Goal>, id: nat, userId: nat)
  {
    exists j :: 0 <= j < |goals| && Matches(goals[j], id, userId)
  }

  lemma OwnsIffFound(goals: seq<Goal>, id: nat, userId: nat)
    ensures Owns(goals, id, userId) <==> FindGoal(goals, id, userId) < |goals|
  {
  }

  /** What the database keeps true between requests: ids below their
      counters and unique, no goal holding a negative amount, and every
      recurring payment attached to a goal of the same user. */
  ghost predicate Inv(t: Tables)
  {
    && (forall i :: 0 <= i < |t.goals| ==> t.goals[i].id < t.nextGoalId && t.goals[i].currentAmount >= 0.0)
    && (forall i, j :: 0 <= i < j < |t.goals| ==> t.goals[i].id != t.goals[j].id)
    && (forall k :: 0 <= k < |t.payments| ==> t.payments[k].id < t.nextPaymentId)
    && (forall k, l :: 0 <= k < l < |t.payments| ==> t.payments[k].id != t.payments[l].id)
    && (forall k :: 0 <= k < |t.payments| ==> Owns(t.goals, t.payments[k].goalId, t.payments[k].userId))
  }

  // ---------------------------------------------------------------------
  // Money held by a user

  /** The sum of the user's goals' `current_amount`. */
  function GoalSum(goals: seq<Goal>, userId: nat): real
    decreases |goals|
  {
    if |goals| == 0 then 0.0
    else GoalSum(goals[..|goals| - 1], userId)
         + (if goals[|goals| - 1].userId == userId then goals[|goals| - 1].currentAmount else 0.0)
  }

  /** `user.balance || 0`: a user without a row has nothing. */
  function BalanceOf(t: Tables, userId: nat): real
  {
    if userId in t.balances then t.balances[userId] else 0.0
  }

  /** All the money of a user: the spendable balance plus what the goals hold. */
  function TotalHeld(t: Tables, userId: nat): real
  {
    BalanceOf(t, userId) + GoalSum(t.goals, userId)
  }

  lemma {:induction false} GoalSumAppend(a: seq<Goal>, b: seq<Goal>, userId: nat)
    ensures GoalSum(a + b, userId) == GoalSum(a, userId) + GoalSum(b, userId)
    decreases |b|
  {
    if |b| == 0 {
      assert a + b == a;
    } else {
      assert (a + b)[..|a + b| - 1] == a + b[..|b| - 1];
      GoalSumAppend(a, b[..|b| - 1], userId);
    }
  }

  lemma GoalSumSingle(g: Goal, userId: nat)
    ensures GoalSum([g], userId) == if g.userId == userId then g.currentAmount else 0.0
  {
    assert [g][..0] == [];
  }

  /** Replacing one row changes the sum by the difference of the two rows. */
  lemma GoalSumUpdate(goals: seq<Goal>, i: nat, g: Goal, userId: nat)
    requires i < |goals|
    ensures GoalSum(goals[i := g], userId)
            == GoalSum(goals, userId)
               - (if goals[i].userId == userId then goals[i].currentAmount else 0.0)
               + (if g.userId == userId then g.currentAmount else 0.0)
  {
    assert goals == goals[..i] + [goals[i]] + goals[i + 1..];
    assert goals[i := g] == goals[..i] + [g] + goals[i + 1..];
    GoalSumAppend(goals[..i] + [goals[i]], goals[i + 1..], userId);
    GoalSumAppend(goals[..i], [goals[i]], userId);
    GoalSumAppend(goals[..i] + [g], goals[i + 1..], userId);
    GoalSumAppend(goals[..i], [g], userId);
    GoalSumSingle(goals[i], userId);
    GoalSumSingle(g, userId);
  }

  // ---------------------------------------------------------------------
  // PATCH /goals/:id — the transfer

  datatype FundingOutcome =
    | Funded(newGoalAmount: real, newBalance: real)
    | Refused(reason: GoalError)

  /** The checks and arithmetic of a transfer of `amount` (positive to fund,
      negative to withdraw) between a balance and a goal holding `current`. */
  function Fund(current: real, balance: real, amount: real): (r: FundingOutcome)
    ensures r.Refused? <==> (amount > 0.0 && balance - amount < 0.0) || current + amount < 0.0
    ensures amount > 0.0 && balance - amount < 0.0 ==> r == Refused(BadRequest("Insufficient balance"))
    ensures !(amount > 0.0 && balance - amount < 0.0) && current + amount < 0.0 ==>
      r == Refused(BadRequest("Cannot remove more money than current goal amount"))
    ensures r.Funded? ==> r.newBalance == balance - amount && r.newGoalAmount - current == amount
    ensures r.Funded? ==> r.newGoalAmount + r.newBalance == current + balance
    ensures r.Funded? ==> r.newGoalAmount >= 0.0 && (amount > 0.0 ==> r.newBalance >= 0.0)
  {
    var newBalance := balance - amount;
    if amount > 0.0 && newBalance < 0.0 then Refused(BadRequest("Insufficient balance"))
    else
      var newGoalAmount := current + amount;
      if newGoalAmount < 0.0 then Refused(BadRequest("Cannot remove more money than current goal amount"))
      else Funded(newGoalAmount, newBalance)
  }

  /** Withdrawing is never refused for lack of balance, and a user whose
      balance is negative can still move money out of a goal. */
  lemma WithdrawalNeedsNoBalance(current: real, balance: real, amount: real)
    requires amount <= 0.0 && current + amount >= 0.0
    ensures Fund(current, balance, amount) == Funded(current + amount, balance - amount)
  {
  }

  /** Which step of the handler fails, if any. */
  datatype PatchFault =
    | PatchSucceeds
    | GoalLookupFails      // the SELECT of the goal errs
    | BalanceLookupFails   // the SELECT of the balance errs
    | GoalWriteFails       // the UPDATE of the goal errs
    | BalanceWriteFails    // the UPDATE of the balance errs, after the goal's
    | RefreshFails         // the SELECT after COMMIT errs

  datatype PatchReply = PatchReply(goal: Goal, balance: real)

  /** The effect and the answer of PATCH /goals/:id. A failure before
      COMMIT rolls everything back; a failure of the refresh after COMMIT
      leaves the transfer in place although the answer is an error. */
  function PatchSpec(t: Tables, userId: nat, goalId: nat, amount: real, fault: PatchFault)
    : (r: (Tables, Result<PatchReply>))
  {
    var i := FindGoal(t.goals, goalId, userId);
    if fault == GoalLookupFails then (t, Err(ServerError("Database error")))
    else if i == |t.goals| then (t, Err(NotFound("Goal not found")))
    else if fault == BalanceLookupFails then (t, Err(ServerError("Failed to fetch user balance")))
    else if userId !in t.balances then (t, Err(Crash))
    else
      match Fund(t.goals[i].currentAmount, t.balances[userId], amount)
      case Refused(e) => (t, Err(e))
      case Funded(g, b) =>
        if fault == GoalWriteFails then (t, Err(ServerError("Failed to update goal")))
        else if fault == BalanceWriteFails then (t, Err(ServerError("Failed to update balance")))
        else
          var t' := t.(goals := t.goals[i := t.goals[i].(currentAmount := g)],
                       balances := t.balances[userId := b]);
          if fault == RefreshFails then (t', Err(ServerError("Failed to fetch updated goal")))
          else (t', Ok(PatchReply(t'.goals[i], b)))
  }

  /** A goal the user does not own is reported as not found and nothing
      changes. */
  lemma PatchUnownedGoal(t: Tables, userId: nat, goalId: nat, amount: real, fault: PatchFault)
    requires fault != GoalLookupFails
    requires !Owns(t.goals, goalId, userId)
    ensures PatchSpec(t, userId, goalId, amount, fault) == (t, Err(NotFound("Goal not found")))
  {
    OwnsIffFound(t.goals, goalId, userId);
  }

  /** Every failure before COMMIT leaves every table as it was. */
  lemma PatchFailureChangesNothing(t: Tables, userId: nat, goalId: nat, amount: real, fault: PatchFault)
    ensures var r := PatchSpec(t, userId, goalId, amount, fault);
            r.1.Err? && fault != RefreshFails ==> r.0 == t
  {
  }

  /** The refusals of an owned goal: insufficient balance when funding beyond
      the balance, over-withdrawal when taking out more than the goal holds,
      checked in that order; otherwise the transfer succeeds. */
  lemma PatchValidation(t: Tables, userId: nat, goalId: nat, amount: real)
    requires Owns(t.goals, goalId, userId) && userId in t.balances
    ensures var r := PatchSpec(t, userId, goalId, amount, PatchSucceeds);
            var cur := t.goals[FindGoal(t.goals, goalId, userId)].currentAmount;
            var bal := t.balances[userId];
            && (amount > 0.0 && bal - amount < 0.0 ==>
                  r == (t, Err(BadRequest("Insufficient balance"))))
            && (!(amount > 0.0 && bal - amount < 0.0) && cur + amount < 0.0 ==>
                  r == (t, Err(BadRequest("Cannot remove more money than current goal amount"))))
            && (!(amount > 0.0 && bal - amount < 0.0) && cur + amount >= 0.0 ==> r.1.Ok?)
  {
    OwnsIffFound(t.goals, goalId, userId);
  }

  /** A successful transfer writes exactly two fields: the goal's
      `current_amount` grows by `amount` and the user's balance shrinks by
      it; the answer is the refreshed goal and the new balance. */
  lemma PatchSuccess(t: Tables, userId: nat, goalId: nat, amount: real, fault: PatchFault)
    ensures var r := PatchSpec(t, userId, goalId, amount, fault);
            r.1.Ok? ==>
              var i := FindGoal(t.goals, goalId, userId);
              && i < |t.goals| && userId in t.balances
              && r.0.goals == t.goals[i := t.goals[i].(currentAmount := t.goals[i].currentAmount + amount)]
              && r.0.balances == t.balances[userId := t.balances[userId] - amount]
              && r.0.payments == t.payments
              && r.0.nextGoalId == t.nextGoalId && r.0.nextPaymentId == t.nextPaymentId
              && r.1.value == PatchReply(r.0.goals[i], t.balances[userId] - amount)
  {
  }

  /** Conservation: no transfer, successful or not, creates or destroys
      money, for the caller or for anyone else. */
  lemma PatchConserves(t: Tables, userId: nat, goalId: nat, amount: real, fault: PatchFault, who: nat)
    ensures TotalHeld(PatchSpec(t, userId, goalId, amount, fault).0, who) == TotalHeld(t, who)
  {
    var r := PatchSpec(t, userId, goalId, amount, fault);
    if r.0 != t {
      var i := FindGoal(t.goals, goalId, userId);
      var g := t.goals[i].(currentAmount := t.goals[i].currentAmount + amount);
      assert r.0.goals == t.goals[i := g];
      GoalSumUpdate(t.goals, i, g, who);
    }
  }

  /** Transfers keep the database invariant; in particular no goal ever
      holds a negative amount. */
  lemma PatchPreservesInv(t: Tables, userId: nat, goalId: nat, amount: real, fault: PatchFault)
    requires Inv(t)
    ensures Inv(PatchSpec(t, userId, goalId, amount, fault).0)
  {
    var r := PatchSpec(t, userId, goalId, amount, fault);
    if r.0 != t {
      var i := FindGoal(t.goals, goalId, userId);
      assert forall j :: 0 <= j < |t.goals| ==>
        r.0.goals[j].id == t.goals[j].id && r.0.goals[j].userId == t.goals[j].userId;
      forall k | 0 <= k < |r.0.payments|
        ensures Owns(r.0.goals, r.0.payments[k].goalId, r.0.payments[k].userId)
      {
        var p := t.payments[k];
        var j :| 0 <= j < |t.goals| && Matches(t.goals[j], p.goalId, p.userId);
        assert Matches(r.0.goals[j], p.goalId, p.userId);
      }
    }
  }

  /** Funding a goal and withdrawing the same amount again restores every
      table, provided the withdrawal does not meet a negative balance. */
  lemma PatchRoundTrip(t: Tables, userId: nat, goalId: nat, amount: real)
    requires Inv(t)
    requires PatchSpec(t, userId, goalId, amount, PatchSucceeds).1.Ok?
    requires amount >= 0.0 || t.balances[userId] >= 0.0
    ensures var t1 := PatchSpec(t, userId, goalId, amount, PatchSucceeds).0;
            var r2 := PatchSpec(t1, userId, goalId, -amount, PatchSucceeds);
            r2.0 == t && r2.1 == Ok(PatchReply(t.goals[FindGoal(t.goals, goalId, userId)], t.balances[userId]))
  {
    var i := FindGoal(t.goals, goalId, userId);
    var t1 := PatchSpec(t, userId, goalId, amount, PatchSucceeds).0;
    PatchSuccess(t, userId, goalId, amount, PatchSucceeds);
    FindGoalIgnoresAmounts(t.goals, i, t.goals[i].currentAmount + amount, goalId, userId);
    assert FindGoal(t1.goals, goalId, userId) == i;
    assert t1.goals[i].currentAmount + -amount == t.goals[i].currentAmount >= 0.0;
    assert PatchSpec(t1, userId, goalId, -amount, PatchSucceeds).1.Ok?;
    var t2 := PatchSpec(t1, userId, goalId, -amount, PatchSucceeds).0;
    PatchSuccess(t1, userId, goalId, -amount, PatchSucceeds);
    assert t1.goals[i].currentAmount + -amount == t.goals[i].currentAmount;
    assert t2.goals[i] == t.goals[i];
    assert forall j :: 0 <= j < |t.goals| ==> t2.goals[j] == t.goals[j];
    assert t2.goals == t.goals;
    assert t2.balances == t.balances;
  }

  /** Changing what a goal holds does not change which row a lookup finds. */
  lemma FindGoalIgnoresAmounts(goals: seq<Goal>, i: nat, amount: real, id: nat, userId: nat)
    requires i < |goals|
    ensures FindGoal(goals[i := goals[i].(currentAmount := amount)], id, userId) == FindGoal(goals, id, userId)
  {
    var goals' := goals[i := goals[i].(currentAmount := amount)];
    assert forall j :: 0 <= j < |goals| ==> (Matches(goals'[j], id, userId) <==> Matches(goals[j], id, userId));
  }

  /** Balance 1000, a goal holding nothing: 200 and then 400 go in, then
      500 more is refused for lack of balance and taking 700 out is refused
      because the goal holds only 600. */
  lemma PatchScenario()
    ensures var g := Goal(1, 7, "Trip", 500.0, 0.0, "a|Travel", 0);
            var t0 := Tables([g], map[7 := 1000.0], [], 2, 1);
            var t1 := PatchSpec(t0, 7, 1, 200.0, PatchSucceeds);
            var t2 := PatchSpec(t1.0, 7, 1, 400.0, PatchSucceeds);
            && t1.1 == Ok(PatchReply(g.(currentAmount := 200.0), 800.0))
            && t2.1 == Ok(PatchReply(g.(currentAmount := 600.0), 400.0))
            && PatchSpec(t2.0, 7, 1, 500.0, PatchSucceeds) == (t2.0, Err(BadRequest("Insufficient balance")))
            && PatchSpec(t2.0, 7, 1, -700.0, PatchSucceeds)
               == (t2.0, Err(BadRequest("Cannot remove more money than current goal amount")))
            && PatchSpec(t0, 8, 1, 10.0, PatchSucceeds) == (t0, Err(NotFound("Goal not found")))
  {
  }

  /** A series of transfers by one user, each answered without a storage
      failure. */
  function PatchAll(t: Tables, userId: nat, requests: seq<(nat, real)>): Tables
    decreases |requests|
  {
    if |requests| == 0 then t
    else PatchAll(PatchSpec(t, userId, requests[0].0, requests[0].1, PatchSucceeds).0, userId, requests[1..])
  }

  /** However many transfers are made, in whatever order and whether or not
      they are refused, every user holds the same total and the invariant
      holds. */
  lemma {:induction false} PatchAllConserves(t: Tables, userId: nat, requests: seq<(nat, real)>, who: nat)
    requires Inv(t)
    ensures Inv(PatchAll(t, userId, requests))
    ensures TotalHeld(PatchAll(t, userId, requests), who) == TotalHeld(t, who)
    decreases |requests|
  {
    if |requests| > 0 {
      var t1 := PatchSpec(t, userId, requests[0].0, requests[0].1, PatchSucceeds).0;
      PatchConserves(t, userId, requests[0].0, requests[0].1, PatchSucceeds, who);
      PatchPreservesInv(t, userId, requests[0].0, requests[0].1, PatchSucceeds);
      PatchAllConserves(t1, userId, requests[1..], who);
    }
  }

  // ---------------------------------------------------------------------
  // GET /user/balance

  function BalanceSpec(t: Tables, userId: nat): (r: Result<real>)
    ensures r.Ok? <==> userId in t.balances
    ensures r.Err? ==> r.error == NotFound("User not found")
  {
    if userId in t.balances then Ok(t.balances[userId]) else Err(NotFound("User not found"))
  }

  /** After a transfer, the balance route reports the balance the transfer
      answered with. */
  lemma PatchThenBalance(t: Tables, userId: nat, goalId: nat, amount: real, fault: PatchFault)
    ensures var r := PatchSpec(t, userId, goalId, amount, fault);
            r.1.Ok? ==> BalanceSpec(r.0, userId) == Ok(r.1.value.balance)
  {
  }

  // ---------------------------------------------------------------------
  // GET and POST /goals

  /** `WHERE user_id = ?`, in table order. */
  function UserGoals(goals: seq<Goal>, userId: nat): (r: seq<Goal>)
    ensures forall g :: g in r <==> g in goals && g.userId == userId
    decreases |goals|
  {
    if |goals| == 0 then []
    else
      var last := goals[|goals| - 1];
      assert goals == goals[..|goals| - 1] + [last];
      var prefix := UserGoals(goals[..|goals| - 1], userId);
      if last.userId == userId then prefix + [last] else prefix
  }

  /** `ORDER BY created_at DESC`. */
  predicate NewerFirst(a: Goal, b: Goal)
  {
    a.createdAt >= b.createdAt
  }

  lemma NewerFirstOrder()
    ensures TotalPreorder(NewerFirst)
  {
  }

  /** GET /goals: the caller's goals and no one else's, newest first. */
  function NewestFirst(goals: seq<Goal>, userId: nat): (r: seq<Goal>)
    ensures multiset(r) == multiset(UserGoals(goals, userId))
    ensures forall g :: g in r <==> g in goals && g.userId == userId
    ensures forall i, j :: 0 <= i < j < |r| ==> r[i].createdAt >= r[j].createdAt
  {
    NewerFirstOrder();
    var r := SortBy(UserGoals(goals, userId), NewerFirst);
    assert Sorted(r, NewerFirst);
    r
  }

  /** POST /goals. An absent title or category, or a target that is not a
      number (bound as NULL), violates a NOT NULL column. */
  function CreateSpec(t: Tables, userId: nat, title: Option<string>, targetAmount: Option<real>,
                      category: Option<string>, now: int): (r: (Tables, Result<Goal>))
  {
    if title.None? || targetAmount.None? || category.None? then (t, Err(ServerError("Failed to create goal")))
    else
      var g := Goal(t.nextGoalId, userId, title.value, targetAmount.value, 0.0, category.value, now);
      (t.(goals := t.goals + [g], nextGoalId := t.nextGoalId + 1), Ok(g))
  }

  /** A new goal belongs to the caller, holds nothing, is appended under a
      fresh id, and no money moves. */
  lemma CreateStartsEmpty(t: Tables, userId: nat, title: Option<string>, targetAmount: Option<real>,
                          category: Option<string>, now: int, who: nat)
    ensures var r := CreateSpec(t, userId, title, targetAmount, category, now);
            && (r.1.Ok? <==> title.Some? && targetAmount.Some? && category.Some?)
            && (r.1.Err? ==> r == (t, Err(ServerError("Failed to create goal"))))
            && (r.1.Ok? ==>
                  && r.1.value.currentAmount == 0.0 && r.1.value.userId == userId
                  && r.1.value.id == t.nextGoalId && r.1.value.targetAmount == targetAmount.value
                  && r.0.goals == t.goals + [r.1.value]
                  && r.0.balances == t.balances && r.0.payments == t.payments)
            && TotalHeld(r.0, who) == TotalHeld(t, who)
  {
    var r := CreateSpec(t, userId, title, targetAmount, category, now);
    if r.1.Ok? {
      GoalSumAppend(t.goals, [r.1.value], who);
      GoalSumSingle(r.1.value, who);
    }
  }

  lemma CreatePreservesInv(t: Tables, userId: nat, title: Option<string>, targetAmount: Option<real>,
                           category: Option<string>, now: int)
    requires Inv(t)
    ensures Inv(CreateSpec(t, userId, title, targetAmount, category, now).0)
  {
    var r := CreateSpec(t, userId, title, targetAmount, category, now);
    if r.1.Ok? {
      forall k | 0 <= k < |r.0.payments|
        ensures Owns(r.0.goals, r.0.payments[k].goalId, r.0.payments[k].userId)
      {
        var p := t.payments[k];
        var j :| 0 <= j < |t.goals| && Matches(t.goals[j], p.goalId, p.userId);
        assert r.0.goals[j] == t.goals[j];
      }
    }
  }

  /** A goal created later than every existing one heads the caller's list. */
  lemma CreatedGoalListedFirst(t: Tables, userId: nat, title: string, targetAmount: real,
                               category: string, now: int)
    requires forall g :: g in t.goals ==> g.createdAt < now
    ensures var r := CreateSpec(t, userId, Some(title), Some(targetAmount), Some(category), now);
            var list := NewestFirst(r.0.goals, userId);
            |list| > 0 && list[0] == r.1.value
  {
    var r := CreateSpec(t, userId, Some(title), Some(targetAmount), Some(category), now);
    var g := r.1.value;
    var list := NewestFirst(r.0.goals, userId);
    assert g in r.0.goals;
    assert g in list;
    var k :| 0 <= k < |list| && list[k] == g;
    assert list[0].createdAt >= list[k].createdAt;
    assert list[0] in r.0.goals;
    assert list[0] !in t.goals;
  }

  // ---------------------------------------------------------------------
  // DELETE /goals/:id and GET /goals/:id/recurring

  /** The rows of `recurring_payments` for this goal and user, in table order. */
  function PaymentsFor(ps: seq<RecurringPayment>, goalId: nat, userId: nat): (r: seq<RecurringPayment>)
    ensures forall p :: p in r <==> p in ps && p.goalId == goalId && p.userId == userId
    ensures (forall k :: 0 <= k < |ps| ==> !(ps[k].goalId == goalId && ps[k].userId == userId)) ==> r == []
    decreases |ps|
  {
    if |ps| == 0 then []
    else
      var last := ps[|ps| - 1];
      assert ps == ps[..|ps| - 1] + [last];
      var prefix := PaymentsFor(ps[..|ps| - 1], goalId, userId);
      if last.goalId == goalId && last.userId == userId then prefix + [last] else prefix
  }

  /** The rows that stay after deleting this goal's payments. */
  function WithoutPayments(ps: seq<RecurringPayment>, goalId: nat, userId: nat): (r: seq<RecurringPayment>)
    ensures forall p :: p in r <==> p in ps && !(p.goalId == goalId && p.userId == userId)
    ensures (forall k, l :: 0 <= k < l < |ps| ==> ps[k].id != ps[l].id) ==>
            (forall k, l :: 0 <= k < l < |r| ==> r[k].id != r[l].id)
    decreases |ps|
  {
    if |ps| == 0 then []
    else
      var last := ps[|ps| - 1];
      var front := ps[..|ps| - 1];
      assert ps == front + [last];
      var prefix := WithoutPayments(front, goalId, userId);
      if last.goalId == goalId && last.userId == userId then prefix
      else
        assert (forall k, l :: 0 <= k < l < |ps| ==> ps[k].id != ps[l].id) ==>
               forall k :: 0 <= k < |prefix| ==> prefix[k].id != last.id by {
          forall k | 0 <= k < |prefix| && (forall k, l :: 0 <= k < l < |ps| ==> ps[k].id != ps[l].id)
            ensures prefix[k].id != last.id
          {
            assert prefix[k] in front;
            var m :| 0 <= m < |front| && front[m] == prefix[k];
            assert ps[m] == prefix[k];
          }
        }
        prefix + [last]
  }

  /** Every row is either listed for the goal or kept by its deletion. */
  lemma {:induction false} PaymentsPartition(ps: seq<RecurringPayment>, goalId: nat, userId: nat)
    ensures multiset(PaymentsFor(ps, goalId, userId)) + multiset(WithoutPayments(ps, goalId, userId))
            == multiset(ps)
    decreases |ps|
  {
    if |ps| > 0 {
      var front := ps[..|ps| - 1];
      assert ps == front + [ps[|ps| - 1]];
      PaymentsPartition(front, goalId, userId);
    }
  }

  lemma {:induction false} NothingToDelete(ps: seq<RecurringPayment>, goalId: nat, userId: nat)
    requires forall k :: 0 <= k < |ps| ==> !(ps[k].goalId == goalId && ps[k].userId == userId)
    ensures WithoutPayments(ps, goalId, userId) == ps
    decreases |ps|
  {
    if |ps| > 0 {
      var front := ps[..|ps| - 1];
      assert ps == front + [ps[|ps| - 1]];
      NothingToDelete(front, goalId, userId);
    }
  }

  /** `DELETE FROM goals WHERE id = ? AND user_id = ?`: the rows that stay;
      as many rows go as match. */
  function WithoutGoal(goals: seq<Goal>, id: nat, userId: nat): (r: seq<Goal>)
    ensures |r| <= |goals|
    ensures |r| == |goals| <==> FindGoal(goals, id, userId) == |goals|
    decreases |goals|
  {
    if |goals| == 0 then []
    else
      assert goals == [goals[0]] + goals[1..];
      var rest := WithoutGoal(goals[1..], id, userId);
      if Matches(goals[0], id, userId) then rest else [goals[0]] + rest
  }

  /** Exactly the matching rows go. */
  lemma {:induction false} WithoutGoalMembers(goals: seq<Goal>, id: nat, userId: nat)
    ensures forall g :: g in WithoutGoal(goals, id, userId) <==> g in goals && !Matches(g, id, userId)
    decreases |goals|
  {
    if |goals| > 0 {
      assert goals == [goals[0]] + goals[1..];
      WithoutGoalMembers(goals[1..], id, userId);
    }
  }

  lemma {:induction false} NoGoalToDelete(goals: seq<Goal>, id: nat, userId: nat)
    requires forall j :: 0 <= j < |goals| ==> !Matches(goals[j], id, userId)
    ensures WithoutGoal(goals, id, userId) == goals
    decreases |goals|
  {
    if |goals| > 0 {
      NoGoalToDelete(goals[1..], id, userId);
      assert goals == [goals[0]] + goals[1..];
    }
  }

  lemma {:induction false} WithoutGoalAppend(a: seq<Goal>, b: seq<Goal>, id: nat, userId: nat)
    ensures WithoutGoal(a + b, id, userId) == WithoutGoal(a, id, userId) + WithoutGoal(b, id, userId)
    decreases |a|
  {
    if |a| == 0 {
      assert a + b == b;
    } else {
      assert (a + b)[0] == a[0];
      assert (a + b)[1..] == a[1..] + b;
      WithoutGoalAppend(a[1..], b, id, userId);
    }
  }

  lemma WithoutGoalAround(before: seq<Goal>, g: Goal, after: seq<Goal>, id: nat, userId: nat)
    requires forall j :: 0 <= j < |before| ==> !Matches(before[j], id, userId)
    requires forall j :: 0 <= j < |after| ==> !Matches(after[j], id, userId)
    requires Matches(g, id, userId)
    ensures WithoutGoal(before + [g] + after, id, userId) == before + after
  {
    NoGoalToDelete(before, id, userId);
    NoGoalToDelete(after, id, userId);
    assert [g][1..] == [];
    assert WithoutGoal([g], id, userId) == [];
    WithoutGoalAppend(before, [g], id, userId);
    assert WithoutGoal(before + [g], id, userId) == before;
    WithoutGoalAppend(before + [g], after, id, userId);
  }

  /** With unique ids the deletion removes exactly the row found. */
  lemma DeleteOneGoal(goals: seq<Goal>, id: nat, userId: nat)
    requires forall i, j :: 0 <= i < j < |goals| ==> goals[i].id != goals[j].id
    requires FindGoal(goals, id, userId) < |goals|
    ensures var i := FindGoal(goals, id, userId);
            WithoutGoal(goals, id, userId) == goals[..i] + goals[i + 1..]
  {
    var i := FindGoal(goals, id, userId);
    forall j | i < j < |goals| ensures !Matches(goals[j], id, userId) {
      assert goals[i].id != goals[j].id;
    }
    DeleteOnlyMatch(goals, i, id, userId);
  }

  /** Deleting around the only matching row leaves the rows on either side. */
  lemma DeleteOnlyMatch(goals: seq<Goal>, i: nat, id: nat, userId: nat)
    requires i < |goals| && Matches(goals[i], id, userId)
    requires forall j :: 0 <= j < |goals| && j != i ==> !Matches(goals[j], id, userId)
    ensures WithoutGoal(goals, id, userId) == goals[..i] + goals[i + 1..]
  {
    var before, after := goals[..i], goals[i + 1..];
    assert goals == before + [goals[i]] + after;
    forall j | 0 <= j < |before| ensures !Matches(before[j], id, userId) {
      assert before[j] == goals[j];
    }
    forall j | 0 <= j < |after| ensures !Matches(after[j], id, userId) {
      assert after[j] == goals[i + 1 + j];
    }
    WithoutGoalAround(before, goals[i], after, id, userId);
  }

  /** Which step of the handler fails, if any. */
  datatype DeleteFault =
    | DeleteSucceeds
    | PaymentDeleteFails   // the DELETE of the recurring payments errs
    | GoalDeleteFails      // the DELETE of the goal errs, after the payments'

  /** DELETE /goals/:id. The two statements run outside a transaction, so a
      failure of the second leaves the first in place. */
  function DeleteSpec(t: Tables, userId: nat, goalId: nat, fault: DeleteFault): (r: (Tables, Result<()>))
  {
    if fault == PaymentDeleteFails then (t, Err(ServerError("Failed to delete recurring payments")))
    else
      var t1 := t.(payments := WithoutPayments(t.payments, goalId, userId));
      if fault == GoalDeleteFails then (t1, Err(ServerError("Failed to delete goal")))
      else
        var remaining := WithoutGoal(t.goals, goalId, userId);
        if |remaining| == |t.goals| then (t1, Err(NotFound("Goal not found or unauthorized")))
        else (t1.(goals := remaining), Ok(()))
  }

  /** Deleting a goal the user does not own changes nothing: no payment can
      refer to it. */
  lemma DeleteUnownedGoal(t: Tables, userId: nat, goalId: nat)
    requires Inv(t)
    requires !Owns(t.goals, goalId, userId)
    ensures DeleteSpec(t, userId, goalId, DeleteSucceeds) == (t, Err(NotFound("Goal not found or unauthorized")))
  {
    OwnsIffFound(t.goals, goalId, userId);
    NothingToDelete(t.payments, goalId, userId);
  }

  /** A successful deletion removes the goal row and its payments, touches no
      other row and no balance. A failed deletion of the goal row still
      leaves its payments deleted. */
  lemma DeleteEffect(t: Tables, userId: nat, goalId: nat, fault: DeleteFault)
    ensures var r := DeleteSpec(t, userId, goalId, fault);
            && (fault == PaymentDeleteFails ==> r.0 == t)
            && (fault == GoalDeleteFails ==> r.0.goals == t.goals && PaymentsFor(r.0.payments, goalId, userId) == [])
            && (r.1.Ok? <==> fault == DeleteSucceeds && Owns(t.goals, goalId, userId))
            && (r.1.Ok? ==>
                  && (forall g :: g in r.0.goals <==> g in t.goals && !Matches(g, goalId, userId))
                  && (forall p :: p in r.0.payments <==> p in t.payments && !(p.goalId == goalId && p.userId == userId)))
            && r.0.balances == t.balances
            && r.0.nextGoalId == t.nextGoalId && r.0.nextPaymentId == t.nextPaymentId
  {
    OwnsIffFound(t.goals, goalId, userId);
    WithoutGoalMembers(t.goals, goalId, userId);
    var r := DeleteSpec(t, userId, goalId, fault);
    if fault == GoalDeleteFails {
      forall k | 0 <= k < |r.0.payments|
        ensures !(r.0.payments[k].goalId == goalId && r.0.payments[k].userId == userId)
      {
        assert r.0.payments[k] in r.0.payments;
      }
    }
  }

  /** The money held by a deleted goal is not returned to the balance: the
      owner's total drops by exactly that amount; nobody else's changes. */
  lemma DeleteForfeitsSavings(t: Tables, userId: nat, goalId: nat, who: nat)
    requires Inv(t)
    ensures var r := DeleteSpec(t, userId, goalId, DeleteSucceeds);
            r.1.Ok? ==>
              var g := t.goals[FindGoal(t.goals, goalId, userId)];
              TotalHeld(r.0, who) == TotalHeld(t, who) - (if who == userId then g.currentAmount else 0.0)
  {
    var r := DeleteSpec(t, userId, goalId, DeleteSucceeds);
    if r.1.Ok? {
      var i := FindGoal(t.goals, goalId, userId);
      DeleteOneGoal(t.goals, goalId, userId);
      assert t.goals == t.goals[..i] + [t.goals[i]] + t.goals[i + 1..];
      GoalSumAppend(t.goals[..i] + [t.goals[i]], t.goals[i + 1..], who);
      GoalSumAppend(t.goals[..i], [t.goals[i]], who);
      GoalSumAppend(t.goals[..i], t.goals[i + 1..], who);
      GoalSumSingle(t.goals[i], who);
    }
  }

  /** Removing goal rows keeps the invariant's conditions on the goals. */
  lemma RemovalKeepsGoalInv(goals: seq<Goal>, i: nat, nextGoalId: nat)
    requires i < |goals|
    requires forall j :: 0 <= j < |goals| ==> goals[j].id < nextGoalId && goals[j].currentAmount >= 0.0
    requires forall j, k :: 0 <= j < k < |goals| ==> goals[j].id != goals[k].id
    ensures var rest := goals[..i] + goals[i + 1..];
            && (forall j :: 0 <= j < |rest| ==> rest[j].id < nextGoalId && rest[j].currentAmount >= 0.0)
            && (forall j, k :: 0 <= j < k < |rest| ==> rest[j].id != rest[k].id)
  {
    var rest := goals[..i] + goals[i + 1..];
    assert forall j :: 0 <= j < |rest| ==> rest[j] == goals[if j < i then j else j + 1];
  }

  /** Deleting a goal's payments, and then possibly the goal, leaves every
      remaining payment attached to a remaining goal of its user. */
  lemma RemainingPaymentsOwned(t: Tables, goals: seq<Goal>, userId: nat, goalId: nat)
    requires Inv(t)
    requires forall g :: g in t.goals && !Matches(g, goalId, userId) ==> g in goals
    ensures var ps := WithoutPayments(t.payments, goalId, userId);
            && (forall k :: 0 <= k < |ps| ==> ps[k].id < t.nextPaymentId)
            && (forall k :: 0 <= k < |ps| ==> Owns(goals, ps[k].goalId, ps[k].userId))
  {
    var ps := WithoutPayments(t.payments, goalId, userId);
    forall k | 0 <= k < |ps|
      ensures ps[k].id < t.nextPaymentId && Owns(goals, ps[k].goalId, ps[k].userId)
    {
      var p := ps[k];
      assert p in t.payments;
      var m :| 0 <= m < |t.payments| && t.payments[m] == p;
      var j :| 0 <= j < |t.goals| && Matches(t.goals[j], p.goalId, p.userId);
      assert t.goals[j] in goals;
      var j' :| 0 <= j' < |goals| && goals[j'] == t.goals[j];
      assert Matches(goals[j'], p.goalId, p.userId);
    }
  }

  lemma PaymentDeletionKeepsInv(t: Tables, userId: nat, goalId: nat)
    requires Inv(t)
    ensures Inv(t.(payments := WithoutPayments(t.payments, goalId, userId)))
  {
    RemainingPaymentsOwned(t, t.goals, userId, goalId);
  }

  lemma GoalDeletionKeepsInv(t: Tables, userId: nat, goalId: nat)
    requires Inv(t)
    requires FindGoal(t.goals, goalId, userId) < |t.goals|
    ensures Inv(t.(payments := WithoutPayments(t.payments, goalId, userId),
                   goals := WithoutGoal(t.goals, goalId, userId)))
  {
    var remaining := WithoutGoal(t.goals, goalId, userId);
    var i := FindGoal(t.goals, goalId, userId);
    DeleteOneGoal(t.goals, goalId, userId);
    RemovalKeepsGoalInv(t.goals, i, t.nextGoalId);
    WithoutGoalMembers(t.goals, goalId, userId);
    RemainingPaymentsOwned(t, remaining, userId, goalId);
  }

  lemma DeletePreservesInv(t: Tables, userId: nat, goalId: nat, fault: DeleteFault)
    requires Inv(t)
    ensures Inv(DeleteSpec(t, userId, goalId, fault).0)
  {
    if fault != PaymentDeleteFails {
      PaymentDeletionKeepsInv(t, userId, goalId);
      if FindGoal(t.goals, goalId, userId) < |t.goals| {
        GoalDeletionKeepsInv(t, userId, goalId);
      }
    }
  }

  // ---------------------------------------------------------------------
  // POST /goals/:id/recurring

  /** Schedules an intent only: one payment row dated today
      (`date('now')`); no money moves. An absent amount or interval violates
      a NOT NULL column. */
  function ScheduleSpec(t: Tables, userId: nat, goalId: nat, amount: Option<real>,
                        interval: Option<string>, today: Date): (r: (Tables, Result<RecurringPayment>))
  {
    if FindGoal(t.goals, goalId, userId) == |t.goals| then (t, Err(NotFound("Goal not found")))
    else if amount.None? || interval.None? then (t, Err(ServerError("Failed to create recurring payment")))
    else
      var p := RecurringPayment(t.nextPaymentId, goalId, userId, amount.value, interval.value, today);
      (t.(payments := t.payments + [p], nextPaymentId := t.nextPaymentId + 1), Ok(p))
  }

  lemma ScheduleEffect(t: Tables, userId: nat, goalId: nat, amount: Option<real>,
                       interval: Option<string>, today: Date, who: nat)
    ensures var r := ScheduleSpec(t, userId, goalId, amount, interval, today);
            && (!Owns(t.goals, goalId, userId) ==> r == (t, Err(NotFound("Goal not found"))))
            && (r.1.Ok? <==> Owns(t.goals, goalId, userId) && amount.Some? && interval.Some?)
            && (r.1.Err? ==> r.0 == t)
            && (r.1.Ok? ==>
                  && r.1.value == RecurringPayment(t.nextPaymentId, goalId, userId, amount.value, interval.value, today)
                  && r.0.payments == t.payments + [r.1.value]
                  && PaymentsFor(r.0.payments, goalId, userId) == PaymentsFor(t.payments, goalId, userId) + [r.1.value])
            && r.0.goals == t.goals && r.0.balances == t.balances
            && TotalHeld(r.0, who) == TotalHeld(t, who)
  {
    OwnsIffFound(t.goals, goalId, userId);
    var r := ScheduleSpec(t, userId, goalId, amount, interval, today);
    if r.1.Ok? {
      assert (t.payments + [r.1.value])[..|t.payments|] == t.payments;
    }
  }

  lemma SchedulePreservesInv(t: Tables, userId: nat, goalId: nat, amount: Option<real>,
                             interval: Option<string>, today: Date)
    requires Inv(t)
    ensures Inv(ScheduleSpec(t, userId, goalId, amount, interval, today).0)
  {
    OwnsIffFound(t.goals, goalId, userId);
  }

  // ---------------------------------------------------------------------
  // The store

  /** The database behind the goal routes. Each method is one request; its
      effect and answer are those of the corresponding specification
      function above. */
  class GoalStore {
    var goals: seq<Goal>
    var balances: map<nat, real>
    var payments: seq<RecurringPayment>
    var nextGoalId: nat
    var nextPaymentId: nat

    function State(): Tables
      reads this
    {
      Tables(goals, balances, payments, nextGoalId, nextPaymentId)
    }

    ghost predicate Valid()
      reads this
    {
      Inv(State())
    }

    /** Empty tables for users with the given balances. */
    constructor (initial: map<nat, real>)
      ensures Valid() && State() == Tables([], initial, [], 1, 1)
    {
      goals := [];
      balances := initial;
      payments := [];
      nextGoalId := 1;
      nextPaymentId := 1;
    }

    method ListGoals(userId: nat) returns (r: seq<Goal>)
      ensures r == NewestFirst(goals, userId)
    {
      r := NewestFirst(goals, userId);
    }

    method CreateGoal(userId: nat, title: Option<string>, targetAmount: Option<real>,
                      category: Option<string>, now: int) returns (res: Result<Goal>)
      requires Valid()
      modifies this
      ensures Valid()
      ensures (State(), res) == CreateSpec(old(State()), userId, title, targetAmount, category, now)
    {
      CreatePreservesInv(State(), userId, title, targetAmount, category, now);
      if title.None? || targetAmount.None? || category.None? {
        return Err(ServerError("Failed to create goal"));
      }
      var g := Goal(nextGoalId, userId, title.value, targetAmount.value, 0.0, category.value, now);
      goals := goals + [g];
      nextGoalId := nextGoalId + 1;
      res := Ok(g);
    }

    /** PATCH /goals/:id inside BEGIN ... COMMIT. */
    method FundGoal(userId: nat, goalId: nat, amount: real, fault: PatchFault) returns (res: Result<PatchReply>)
      requires Valid()
      modifies this
      ensures Valid()
      ensures (State(), res) == PatchSpec(old(State()), userId, goalId, amount, fault)
    {
      PatchPreservesInv(State(), userId, goalId, amount, fault);
      if fault == GoalLookupFails {
        return Err(ServerError("Database error"));
      }
      var i := FindGoal(goals, goalId, userId);
      if i == |goals| {
        return Err(NotFound("Goal not found"));
      }
      if fault == BalanceLookupFails {
        return Err(ServerError("Failed to fetch user balance"));
      }
      if userId !in balances {
        return Err(Crash);
      }
      var outcome := Fund(goals[i].currentAmount, balances[userId], amount);
      if outcome.Refused? {
        return Err(outcome.reason);
      }
      if fault == GoalWriteFails {
        return Err(ServerError("Failed to update goal"));
      }
      var before := goals;
      goals := goals[i := goals[i].(currentAmount := outcome.newGoalAmount)];
      if fault == BalanceWriteFails {
        goals := before;   // ROLLBACK undoes the goal's update
        return Err(ServerError("Failed to update balance"));
      }
      balances := balances[userId := outcome.newBalance];
      // COMMIT
      if fault == RefreshFails {
        return Err(ServerError("Failed to fetch updated goal"));
      }
      res := Ok(PatchReply(goals[i], outcome.newBalance));
    }

    method DeleteGoal(userId: nat, goalId: nat, fault: DeleteFault) returns (res: Result<()>)
      requires Valid()
      modifies this
      ensures Valid()
      ensures (State(), res) == DeleteSpec(old(State()), userId, goalId, fault)
    {
      DeletePreservesInv(State(), userId, goalId, fault);
      if fault == PaymentDeleteFails {
        return Err(ServerError("Failed to delete recurring payments"));
      }
      payments := WithoutPayments(payments, goalId, userId);
      if fault == GoalDeleteFails {
        return Err(ServerError("Failed to delete goal"));
      }
      var remaining := WithoutGoal(goals, goalId, userId);
      var changes := |goals| - |remaining|;
      if changes == 0 {
        return Err(NotFound("Goal not found or unauthorized"));
      }
      goals := remaining;
      res := Ok(());
    }

    method ScheduleRecurring(userId: nat, goalId: nat, amount: Option<real>, interval: Option<string>,
                             today: Date) returns (res: Result<RecurringPayment>)
      requires Valid()
      modifies this
      ensures Valid()
      ensures (State(), res) == ScheduleSpec(old(State()), userId, goalId, amount, interval, today)
    {
      SchedulePreservesInv(State(), userId, goalId, amount, interval, today);
      if FindGoal(goals, goalId, userId) == |goals| {
        return Err(NotFound("Goal not found"));
      }
      if amount.None? || interval.None? {
        return Err(ServerError("Failed to create recurring payment"));
      }
      var p := RecurringPayment(nextPaymentId, goalId, userId, amount.value, interval.value, today);
      payments := payments + [p];
      nextPaymentId := nextPaymentId + 1;
      res := Ok(p);
    }

    method ListRecurring(userId: nat, goalId: nat) returns (r: seq<RecurringPayment>)
      ensures forall p :: p in r <==> p in payments && p.goalId == goalId && p.userId == userId
      ensures r == PaymentsFor(payments, goalId, userId)
    {
      r := PaymentsFor(payments, goalId, userId);
    }

    method GetBalance(userId: nat) returns (r: Result<real>)
      ensures r == BalanceSpec(State(), userId)
    {
      r := BalanceSpec(State(), userId);
    }
  }
}
