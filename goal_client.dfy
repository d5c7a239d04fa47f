/** The goals page on the client: what a goal card shows (progress, emoji
    and category name), and what submitting the add-money form does: which
    request it sends to the goal routes, or why it refuses to send one, and
    which message the user then sees. */
module GoalClient {
  import opened Text
  import opened Calendar
  import opened GoalLedger

  // ---------------------------------------------------------------------
  // createGoalCard

  /** The percentage of the target reached; a missing current amount counts
      as 0 and a target that is not positive gives 0. */
  function Progress(target: real, current: Option<real>): (p: real)
    ensures target <= 0.0 ==> p == 0.0
    ensures target > 0.0 ==> p * target == 100.0 * (if current.Some? then current.value else 0.0)
  {
    var c := if current.Some? then current.value else 0.0;
    if target > 0.0 then (c / target) * 100.0 else 0.0
  }

  /** Progress runs from 0 to 100 while the goal holds between nothing and
      its target, and a missing amount is progress 0. */
  lemma ProgressRange(target: real, current: real)
    requires target > 0.0
    ensures 0.0 <= current <= target ==> 0.0 <= Progress(target, Some(current)) <= 100.0
    ensures current == target ==> Progress(target, Some(current)) == 100.0
    ensures Progress(target, None) == Progress(target, Some(0.0)) == 0.0
  {
    var p := Progress(target, Some(current));
    if 0.0 <= current <= target {
      assert (p - 100.0) * target <= 0.0;
      assert p * target >= 0.0;
    }
  }

  /** The emoji: the text before the first `|`. */
  function CategoryEmoji(category: string): (e: string)
    ensures '|' !in e
    ensures '|' !in category ==> e == category
  {
    SplitPiecesHaveNoSeparator(category, '|');
    if '|' !in category then SplitWithoutSeparator(category, '|'); Split(category, '|')[0]
    else Split(category, '|')[0]
  }

  /** The name shown: the text between the first `|` and the next one (or
      the end), or the whole category when that is empty or there is no
      `|`. */
  function CategoryLabel(category: string): (l: string)
    ensures '|' !in category ==> l == category
    ensures l != ""  || category == ""
  {
    if '|' !in category then category
    else
      var parts := Split(category, '|');
      if |parts| > 1 && parts[1] != "" then parts[1] else category
  }

  /** A category stored as `emoji|name` shows that emoji and that name; with
      an empty name the whole stored text is shown instead. */
  lemma CategoryRoundTrip(emoji: string, name: string)
    requires '|' !in emoji && '|' !in name
    ensures CategoryEmoji(emoji + "|" + name) == emoji
    ensures name != "" ==> CategoryLabel(emoji + "|" + name) == name
    ensures name == "" ==> CategoryLabel(emoji + "|" + name) == emoji + "|"
  {
    SplitAtFirst(emoji, '|', name);
    SplitWithoutSeparator(name, '|');
    assert emoji + "|" + name == emoji + ['|'] + name;
    assert (emoji + ['|'] + name)[|emoji|] == '|';
  }

  // ---------------------------------------------------------------------
  // handleAddMoneySubmit

  /** The add-money form: the goal id (`None` when the hidden field is
      empty), the amount (`None` when `parseFloat` gives NaN), the frequency
      and the action (`""` when the form has none). */
  datatype AddMoneyForm = AddMoneyForm(goalId: Option<nat>, amount: Option<real>, recurring: string, action: string)

  /** What the handler does with the form. */
  datatype AddMoneyStep =
    | Refuse(message: string)                              // throws before any request
    | Schedule(goalId: nat, amount: real, interval: string) // POST /goals/:id/recurring
    | Send(goalId: nat, amount: real)                       // PATCH /goals/:id

  /** `formData.get('action') || 'add'`. */
  function ActionOf(form: AddMoneyForm): string
  {
    if form.action == "" then "add" else form.action
  }

  predicate ValidInput(form: AddMoneyForm)
  {
    form.goalId.Some? && form.amount.Some? && form.amount.value > 0.0
  }

  function DecideAddMoney(form: AddMoneyForm): (s: AddMoneyStep)
    ensures s.Refuse? <==> !ValidInput(form) || (form.recurring != "one-time" && ActionOf(form) == "remove")
    ensures !ValidInput(form) ==> s == Refuse("Invalid input data")
    ensures ValidInput(form) && form.recurring != "one-time" && ActionOf(form) == "remove" ==>
      s == Refuse("Recurring payments can only be used for adding money")
    ensures s.Schedule? ==>
      form.recurring != "one-time" && s == Schedule(form.goalId.value, form.amount.value, form.recurring)
    ensures s.Send? ==> form.recurring == "one-time" && s.goalId == form.goalId.value
    ensures s.Send? ==> s.amount == if ActionOf(form) == "add" then form.amount.value else -form.amount.value
    ensures !s.Refuse? ==> (s.Schedule? || s.Send?) && (s.Schedule? ==> s.amount > 0.0)
  {
    if !ValidInput(form) then Refuse("Invalid input data")
    else if form.recurring != "one-time" then
      if ActionOf(form) == "remove" then Refuse("Recurring payments can only be used for adding money")
      else Schedule(form.goalId.value, form.amount.value, form.recurring)
    else Send(form.goalId.value, if ActionOf(form) == "add" then form.amount.value else -form.amount.value)
  }

  /** `part` occurs in `s` at position i. */
  predicate OccursAt(s: string, part: string, i: int)
  {
    0 <= i && i + |part| <= |s| && s[i..i + |part|] == part
  }

  /** Whether `part` occurs in `s` (`String.prototype.includes`). */
  function Contains(s: string, part: string): (b: bool)
    ensures b <==> exists i :: OccursAt(s, part, i)
    decreases |s|
  {
    if |part| > |s| then false
    else if s[..|part|] == part then assert OccursAt(s, part, 0); true
    else
      var rest := Contains(s[1..], part);
      assert rest ==> exists i :: OccursAt(s, part, i) by {
        if rest {
          var i :| OccursAt(s[1..], part, i);
          assert s[1..][i..i + |part|] == s[i + 1..i + 1 + |part|];
          assert OccursAt(s, part, i + 1);
        }
      }
      assert (exists i :: OccursAt(s, part, i)) ==> rest by {
        if exists i :: OccursAt(s, part, i) {
          var i :| OccursAt(s, part, i);
          assert i != 0;
          assert s[1..][i - 1..i - 1 + |part|] == s[i..i + |part|];
          assert OccursAt(s[1..], part, i - 1);
        }
      }
      rest
  }

  /** What the user sees after submitting. */
  datatype Shown =
    | Done          // the modal closes and the goals reload
    | Error(text: string)
    | NoAnswer      // the server process died on an uncaught exception; the
                    // page alerts the failed fetch's message

  /** The `catch` block: a message mentioning an insufficient balance is
      replaced by a friendlier one, any other is shown as it is. */
  function ShownError(message: string): (s: Shown)
    ensures s.Error?
    ensures Contains(message, "Insufficient balance") ==> s.text == "Insufficient balance to add money to goal"
    ensures !Contains(message, "Insufficient balance") ==> s.text == message
  {
    if Contains(message, "Insufficient balance") then Error("Insufficient balance to add money to goal")
    else Error(message)
  }

  function ShownReply<T>(r: Result<T>): Shown
  {
    match r
    case Ok(_) => Done
    case Err(NotFound(m)) => ShownError(m)
    case Err(BadRequest(m)) => ShownError(m)
    case Err(ServerError(m)) => ShownError(m)
    case Err(Crash) => NoAnswer
  }

  /** The effect on the goal tables and what the user sees, for a submission
      by `userId`; `fault` says which server step fails, if any. */
  function SubmitSpec(t: Tables, userId: nat, form: AddMoneyForm, fault: PatchFault, today: Date)
    : (r: (Tables, Shown))
  {
    match DecideAddMoney(form)
    case Refuse(m) => (t, ShownError(m))
    case Schedule(id, a, interval) =>
      var s := ScheduleSpec(t, userId, id, Some(a), Some(interval), today);
      (s.0, ShownReply(s.1))
    case Send(id, a) =>
      var p := PatchSpec(t, userId, id, a, fault);
      (p.0, ShownReply(p.1))
  }

  /** A refused form sends nothing and changes nothing. */
  lemma RefusedFormChangesNothing(t: Tables, userId: nat, form: AddMoneyForm, fault: PatchFault, today: Date)
    requires DecideAddMoney(form).Refuse?
    ensures SubmitSpec(t, userId, form, fault, today).0 == t
    ensures SubmitSpec(t, userId, form, fault, today).1 == ShownError(DecideAddMoney(form).message)
    ensures !ValidInput(form) ==> SubmitSpec(t, userId, form, fault, today).1 == Error("Invalid input data")
  {
    if !ValidInput(form) {
      assert |"Invalid input data"| < |"Insufficient balance"|;
    }
  }

  /** A recurring add only records an intent: no goal amount and no balance
      changes, whatever the answer. */
  lemma RecurringAddMovesNoMoney(t: Tables, userId: nat, form: AddMoneyForm, fault: PatchFault, today: Date, who: nat)
    requires form.recurring != "one-time"
    ensures var r := SubmitSpec(t, userId, form, fault, today);
            && r.0.goals == t.goals && r.0.balances == t.balances
            && TotalHeld(r.0, who) == TotalHeld(t, who)
  {
    var s := DecideAddMoney(form);
    if s.Schedule? {
      ScheduleEffect(t, userId, s.goalId, Some(s.amount), Some(s.interval), today, who);
    }
  }

  /** A one-time submission moves money between the balance and the goal and
      never creates or destroys it; once done, adding spends the amount from
      the balance and removing returns it. */
  lemma OneTimeSubmitMovesMoney(t: Tables, userId: nat, form: AddMoneyForm, fault: PatchFault, today: Date, who: nat)
    requires form.recurring == "one-time" && ValidInput(form)
    ensures var r := SubmitSpec(t, userId, form, fault, today);
            && TotalHeld(r.0, who) == TotalHeld(t, who)
            && r.0.payments == t.payments
            && (r.1 == Done ==>
                  userId in t.balances &&
                  r.0.balances == t.balances[userId := t.balances[userId]
                    - (if ActionOf(form) == "add" then form.amount.value else -form.amount.value)])
  {
    var s := DecideAddMoney(form);
    PatchConserves(t, userId, s.goalId, s.amount, fault, who);
    PatchSuccess(t, userId, s.goalId, s.amount, fault);
    PatchFailureChangesNothing(t, userId, s.goalId, s.amount, fault);
  }

  /** Removing no more than an owned goal holds always goes through when the
      server does not fail: the balance is never checked for a removal. */
  lemma RemovalWithinGoalSucceeds(t: Tables, userId: nat, form: AddMoneyForm, today: Date)
    requires form.recurring == "one-time" && ValidInput(form) && form.action == "remove"
    requires Owns(t.goals, form.goalId.value, userId) && userId in t.balances
    requires form.amount.value <= t.goals[FindGoal(t.goals, form.goalId.value, userId)].currentAmount
    ensures var r := SubmitSpec(t, userId, form, PatchSucceeds, today);
            && r.1 == Done
            && r.0.balances == t.balances[userId := t.balances[userId] + form.amount.value]
  {
    OwnsIffFound(t.goals, form.goalId.value, userId);
    var i := FindGoal(t.goals, form.goalId.value, userId);
    WithdrawalNeedsNoBalance(t.goals[i].currentAmount, t.balances[userId], -form.amount.value);
    PatchSuccess(t, userId, form.goalId.value, -form.amount.value, PatchSucceeds);
  }

  /** Adding more than the balance to an owned goal is refused with the
      friendlier message, and nothing changes. */
  lemma OverspendShowsFriendlyMessage(t: Tables, userId: nat, form: AddMoneyForm, fault: PatchFault, today: Date)
    requires form.recurring == "one-time" && ValidInput(form) && ActionOf(form) == "add"
    requires Owns(t.goals, form.goalId.value, userId) && userId in t.balances
    requires fault != GoalLookupFails && fault != BalanceLookupFails
    requires form.amount.value > t.balances[userId]
    ensures SubmitSpec(t, userId, form, fault, today) == (t, Error("Insufficient balance to add money to goal"))
  {
    OwnsIffFound(t.goals, form.goalId.value, userId);
    assert "Insufficient balance"[0..20] == "Insufficient balance";
  }

  /** `handleAddMoneySubmit` against the goal store. */
  method HandleAddMoneySubmit(store: GoalStore, userId: nat, form: AddMoneyForm, fault: PatchFault, today: Date)
    returns (shown: Shown)
    requires store.Valid()
    modifies store
    ensures store.Valid()
    ensures (store.State(), shown) == SubmitSpec(old(store.State()), userId, form, fault, today)
  {
    if form.goalId.None? || form.amount.None? || form.amount.value <= 0.0 {
      return ShownError("Invalid input data");
    }
    var goalId := form.goalId.value;
    var amount := form.amount.value;
    var action := if form.action == "" then "add" else form.action;
    if form.recurring != "one-time" {
      if action == "remove" {
        return ShownError("Recurring payments can only be used for adding money");
      }
      var res := store.ScheduleRecurring(userId, goalId, Some(amount), Some(form.recurring), today);
      shown := ShownReply(res);
    } else {
      var res := store.FundGoal(userId, goalId, if action == "add" then amount else -amount, fault);
      shown := ShownReply(res);
    }
  }
}
