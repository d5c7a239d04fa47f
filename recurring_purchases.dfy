/** The recurring-purchases page: when each repeating transaction next
    occurs, how its repetition is described, which purchases are upcoming or
    past, and the month-by-month projection of the balance under the
    repeating transactions. A repetition is a tag (`daily`, `weekly`,
    `bi-weekly`, `monthly`, `yearly`, `custom`) and, for `custom`, an
    interval written `"N-unit"`. */
module RecurringPurchases {
  import opened Text
  import opened Calendar
  import opened Sorting
  import opened TransactionServer

  // ---------------------------------------------------------------------
  // The step of a repetition

  /** What one application of `addInterval` does to a date. */
  datatype Step =
    | Days(count: nat)       // setDate(getDate() + count)
    | Months(count: nat)     // setMonth(getMonth() + count)
    | Years(count: nat)      // setFullYear(getFullYear() + count)
    | NoStep                 // no case of the switch applies: the date is kept
    | InvalidStep            // parseInt gave NaN: the date becomes Invalid Date

  /** The step of a `custom` interval `"N-unit"`. The unit is the second
      piece (absent when there is no `-`); the count is parsed only for a
      known unit. */
  function CustomStep(interval: string): (s: Step)
  {
    var parts := Split(interval, '-');
    var unit := if |parts| > 1 then Some(parts[1]) else None;
    var count := ParseInt(parts[0]);
    if unit == Some("days") then (if count.None? then InvalidStep else Days(count.value))
    else if unit == Some("weeks") then (if count.None? then InvalidStep else Days(count.value * 7))
    else if unit == Some("months") then (if count.None? then InvalidStep else Months(count.value))
    else if unit == Some("years") then (if count.None? then InvalidStep else Years(count.value))
    else NoStep
  }

  /** The switch of `addInterval` on the transaction's tag. */
  function StepOf(t: Transaction): Step
  {
    if t.recurring == "daily" then Days(1)
    else if t.recurring == "weekly" then Days(7)
    else if t.recurring == "bi-weekly" then Days(14)
    else if t.recurring == "monthly" then Months(1)
    else if t.recurring == "yearly" then Years(1)
    else if t.recurring == "custom" && t.recurrenceInterval != "" then CustomStep(t.recurrenceInterval)
    else NoStep
  }

  /** The fixed tags step by one day, seven days, fourteen days, one month
      and one year; any other tag but `custom` leaves the date where it is. */
  lemma FixedSteps(t: Transaction)
    ensures t.recurring == "daily" ==> StepOf(t) == Days(1)
    ensures t.recurring == "weekly" ==> StepOf(t) == Days(7)
    ensures t.recurring == "bi-weekly" ==> StepOf(t) == Days(14)
    ensures t.recurring == "monthly" ==> StepOf(t) == Months(1)
    ensures t.recurring == "yearly" ==> StepOf(t) == Years(1)
    ensures t.recurring !in ["daily", "weekly", "bi-weekly", "monthly", "yearly", "custom"] ==> StepOf(t) == NoStep
  {
  }

  /** Digits contain no hyphen. */
  lemma DigitsHaveNoHyphen(n: nat)
    ensures '-' !in NatToString(n)
  {
    var digits := NatToString(n);
    forall k | 0 <= k < |digits| ensures digits[k] != '-' { assert IsDigit(digits[k]); }
  }

  /** `"count-unit".split('-')` is the count and the unit. */
  lemma SplitInterval(count: string, unit: string)
    requires '-' !in count && '-' !in unit
    ensures Split(count + "-" + unit, '-') == [count, unit]
  {
    SplitAtFirst(count, '-', unit);
    SplitWithoutSeparator(unit, '-');
    assert count + "-" + unit == count + ['-'] + unit;
  }

  /** A custom interval `"N-unit"` steps by N days, 7·N days, N months or
      N years. */
  lemma CustomSteps(n: nat, unit: string)
    requires '-' !in unit
    ensures var s := CustomStep(NatToString(n) + "-" + unit);
            && (unit == "days" ==> s == Days(n))
            && (unit == "weeks" ==> s == Days(7 * n))
            && (unit == "months" ==> s == Months(n))
            && (unit == "years" ==> s == Years(n))
            && (unit != "days" && unit != "weeks" && unit != "months" && unit != "years" ==> s == NoStep)
  {
    DigitsHaveNoHyphen(n);
    SplitInterval(NatToString(n), unit);
    ParseIntNatToString(n);
  }

  /** A count that is not a number makes an invalid date; an interval with
      no unit does nothing. */
  lemma CustomStepEdgeCases(count: string, unit: string, bare: string)
    requires '-' !in count && '-' !in unit && '-' !in bare
    ensures (|count| == 0 || !IsDigit(count[0])) && unit in ["days", "weeks", "months", "years"] ==>
      CustomStep(count + "-" + unit) == InvalidStep
    ensures CustomStep(bare) == NoStep
  {
    SplitInterval(count, unit);
    SplitWithoutSeparator(bare, '-');
  }

  /** A step that leaves the date where it is. */
  predicate Stalls(s: Step)
  {
    s.NoStep? || ((s.Days? || s.Months? || s.Years?) && s.count == 0)
  }

  /** `addInterval(date)`; `None` is Invalid Date. */
  function AddInterval(s: Step, d: Date): (r: Option<Date>)
    requires Valid(d)
    ensures r.None? <==> s.InvalidStep?
    ensures r.Some? ==> Valid(r.value)
    ensures Stalls(s) ==> r == Some(d)
    ensures r.Some? && !Stalls(s) ==> Before(d, r.value)
  {
    match s
    case Days(n) => Some(AddDays(d, n))
    case Months(n) => AddMonthsAdvances(d, n); Some(AddMonths(d, n))
    case Years(n) => AddYearsAdvances(d, n); Some(AddYears(d, n))
    case NoStep => Some(d)
    case InvalidStep => None
  }

  // ---------------------------------------------------------------------
  // calculateNextOccurrence

  /** The number measuring how far a date still is from passing today. */
  function Distance(cur: Date, today: Date): nat
  {
    if Ordinal(today) < Ordinal(cur) then 0 else Ordinal(today) - Ordinal(cur) + 1
  }

  lemma DistanceDecreases(cur: Date, next: Date, today: Date)
    requires Valid(cur) && Valid(next) && Valid(today)
    requires !Before(today, cur) && Before(cur, next)
    ensures Distance(next, today) < Distance(cur, today)
  {
    BeforeOrdinal(cur, next);
    BeforeOrdinal(today, cur);
    BeforeOrdinal(today, next);
  }

  /** `while (nextDate <= today) nextDate = addInterval(nextDate)`, started at
      `cur`. The loop ends only if the step moves the date or the date is
      already past today. */
  function NextFrom(s: Step, cur: Date, today: Date): (r: Option<Date>)
    requires Valid(cur) && Valid(today)
    requires !Stalls(s) || Before(today, cur)
    ensures r.Some? ==> Valid(r.value) && Before(today, r.value)
    ensures r.None? ==> s.InvalidStep?
    decreases Distance(cur, today)
  {
    if Before(today, cur) then Some(cur)
    else
      match AddInterval(s, cur)
      case None => None
      case Some(next) =>
        DistanceDecreases(cur, next, today);
        NextFrom(s, next, today)
  }

  /** The date after k applications of the step. */
  function Steps(s: Step, d: Date, k: nat): (r: Option<Date>)
    requires Valid(d)
    ensures r.Some? ==> Valid(r.value)
    decreases k
  {
    if k == 0 then Some(d)
    else
      match AddInterval(s, d)
      case None => None
      case Some(next) => Steps(s, next, k - 1)
  }

  /** How many times the loop body runs. */
  function StepsTaken(s: Step, cur: Date, today: Date): nat
    requires Valid(cur) && Valid(today)
    requires !Stalls(s) || Before(today, cur)
    decreases Distance(cur, today)
  {
    if Before(today, cur) then 0
    else
      match AddInterval(s, cur)
      case None => 1
      case Some(next) =>
        DistanceDecreases(cur, next, today);
        1 + StepsTaken(s, next, today)
  }

  /** The loop's result is reached from the start by whole steps, and it is
      the first of them that lies after today. */
  lemma {:induction false} NextFromIsFirstStepAfterToday(s: Step, cur: Date, today: Date)
    requires Valid(cur) && Valid(today)
    requires !Stalls(s) || Before(today, cur)
    ensures NextFrom(s, cur, today) == Steps(s, cur, StepsTaken(s, cur, today))
    ensures forall j :: 0 <= j < StepsTaken(s, cur, today) ==>
      Steps(s, cur, j).Some? && !Before(today, Steps(s, cur, j).value)
    decreases Distance(cur, today)
  {
    if !Before(today, cur) {
      match AddInterval(s, cur)
      case None =>
        assert Steps(s, cur, 1) == None;
      case Some(next) =>
        DistanceDecreases(cur, next, today);
        NextFromIsFirstStepAfterToday(s, next, today);
        var k := StepsTaken(s, next, today);
        assert Steps(s, cur, k + 1) == Steps(s, next, k);
        forall j | 0 <= j < k + 1
          ensures Steps(s, cur, j).Some? && !Before(today, Steps(s, cur, j).value)
        {
          if j > 0 {
            assert Steps(s, cur, j) == Steps(s, next, j - 1);
          }
        }
    }
  }

  /** The next occurrence of a transaction, `None` for Invalid Date. The
      loop would not end for a transaction dated today or earlier whose
      repetition does not move the date, so such calls are excluded. */
  predicate CanProject(t: Transaction, today: Date)
  {
    Valid(t.date) && Valid(today) && (t.recurring == "" || !Stalls(StepOf(t)) || Before(today, t.date))
  }

  function NextOccurrence(t: Transaction, today: Date): (r: Option<Date>)
    requires CanProject(t, today)
    ensures t.recurring == "" ==> r == Some(t.date)
    ensures t.recurring != "" && r.Some? ==> Before(today, r.value)
    ensures Before(today, t.date) ==> r == Some(t.date)
    ensures r.None? ==> StepOf(t).InvalidStep?
  {
    if t.recurring == "" then Some(t.date) else NextFrom(StepOf(t), t.date, today)
  }

  /** `calculateNextOccurrence(transaction)` with today's date given. */
  method CalculateNextOccurrence(t: Transaction, today: Date) returns (r: Option<Date>)
    requires CanProject(t, today)
    ensures r == NextOccurrence(t, today)
  {
    var next := t.date;
    if t.recurring == "" {
      return Some(next);
    }
    var s := StepOf(t);
    while !Before(today, next)
      invariant Valid(next)
      invariant !Stalls(s) || Before(today, next)
      invariant NextFrom(s, next, today) == NextFrom(s, t.date, today)
      decreases Distance(next, today)
    {
      var stepped := AddInterval(s, next);
      if stepped.None? {
        return None;
      }
      DistanceDecreases(next, stepped.value, today);
      next := stepped.value;
    }
    r := Some(next);
  }

  /** A monthly purchase made on 31 January of a common year and looked at
      on or after 3 March of that year: February has no 31st, so the first
      step lands on 3 March and the next one on 3 April. */
  lemma MonthlyFromThirtyFirst(y: int, d: int)
    requires !IsLeapYear(y) && 3 <= d <= 31
    ensures NextFrom(Months(1), Date(y, 1, 31), Date(y, 3, d)) == Some(Date(y, 4, 3))
  {
    var today := Date(y, 3, d);
    FromJanuary31st(y);
    assert NextFrom(Months(1), Date(y, 4, 3), today) == Some(Date(y, 4, 3));
    assert NextFrom(Months(1), Date(y, 3, 3), today) == Some(Date(y, 4, 3));
  }

  // ---------------------------------------------------------------------
  // formatRecurringText

  function FormatRecurringText(t: Transaction): (r: string)
  {
    if t.recurring == "" then ""
    else if t.recurring == "custom" && t.recurrenceInterval != "" then
      var parts := Split(t.recurrenceInterval, '-');
      "Every " + parts[0] + " " + (if |parts| > 1 then parts[1] else "undefined")
    else Join(CapitalizeAll(Split(t.recurring, '-')), '-')
  }

  lemma {:induction false} JoinSameLengths(a: seq<string>, b: seq<string>, sep: char)
    requires |a| == |b|
    requires forall i :: 0 <= i < |a| ==> |a[i]| == |b[i]|
    ensures |Join(a, sep)| == |Join(b, sep)|
    decreases |a|
  {
    if |a| > 1 {
      JoinSameLengths(a[1..], b[1..], sep);
    }
  }

  /** Without a tag the text is empty; a tag that is not a custom interval
      keeps its length and its hyphens, and its words are the tag's words
      with their first letters upper-cased. */
  lemma FormatCapitalizesTag(t: Transaction)
    requires !(t.recurring == "custom" && t.recurrenceInterval != "")
    ensures t.recurring == "" ==> FormatRecurringText(t) == ""
    ensures |FormatRecurringText(t)| == |t.recurring|
    ensures t.recurring != "" ==>
      Split(FormatRecurringText(t), '-') == CapitalizeAll(Split(t.recurring, '-'))
  {
    if t.recurring != "" {
      var words := Split(t.recurring, '-');
      var caps := CapitalizeAll(words);
      SplitPiecesHaveNoSeparator(t.recurring, '-');
      forall i | 0 <= i < |caps| ensures '-' !in caps[i] {
        CapitalizeKeepsSeparatorsOut(words[i], '-');
      }
      SplitJoin(caps, '-');
      JoinSameLengths(caps, words, '-');
      JoinSplit(t.recurring, '-');
    }
  }

  lemma FormatBiWeekly(t: Transaction)
    requires t.recurring == "bi-weekly"
    ensures FormatRecurringText(t) == "Bi-Weekly"
  {
    SplitInterval("bi", "weekly");
    assert t.recurring == "bi" + "-" + "weekly";
    var caps := CapitalizeAll(["bi", "weekly"]);
    assert caps[0] == "Bi" && caps[1] == "Weekly";
    assert caps == ["Bi", "Weekly"];
    assert Join(caps, '-') == "Bi" + ['-'] + "Weekly";
  }

  /** A custom interval reads `"Every N unit"`; without a `-` the unit is
      printed as `undefined`. */
  lemma FormatCustom(t: Transaction, n: nat, unit: string)
    requires t.recurring == "custom" && '-' !in unit
    ensures t.recurrenceInterval == NatToString(n) + "-" + unit ==>
      FormatRecurringText(t) == "Every " + NatToString(n) + " " + unit
    ensures t.recurrenceInterval != "" && '-' !in t.recurrenceInterval ==>
      FormatRecurringText(t) == "Every " + t.recurrenceInterval + " undefined"
  {
    var digits := NatToString(n);
    if t.recurrenceInterval == digits + "-" + unit {
      assert '-' !in digits by {
        forall k | 0 <= k < |digits| ensures digits[k] != '-' { assert IsDigit(digits[k]); }
      }
      SplitAtFirst(digits, '-', unit);
      SplitWithoutSeparator(unit, '-');
      assert digits + "-" + unit == digits + ['-'] + unit;
    }
    if '-' !in t.recurrenceInterval {
      SplitWithoutSeparator(t.recurrenceInterval, '-');
    }
  }

  // ---------------------------------------------------------------------
  // The upcoming and previous lists

  /** `t.recurring && t.recurring !== 'one-time'`. */
  predicate IsRepeating(t: Transaction)
  {
    t.recurring != "" && t.recurring != "one-time"
  }

  datatype UpcomingItem = UpcomingItem(purchase: Transaction, nextOccurrence: Date)

  predicate EarlierFirst(a: UpcomingItem, b: UpcomingItem)
  {
    !Before(b.nextOccurrence, a.nextOccurrence)
  }

  predicate LaterFirst(a: Transaction, b: Transaction)
  {
    !Before(a.date, b.date)
  }

  lemma DateOrders()
    ensures TotalPreorder(EarlierFirst)
    ensures TotalPreorder(LaterFirst)
  {
  }

  /** The repeating transactions with their next occurrence, in list order;
      those whose next occurrence is Invalid Date are dropped (an invalid
      date is never after now). */
  function WithNextOccurrence(ts: seq<Transaction>, today: Date): (r: seq<UpcomingItem>)
    requires forall t :: t in ts && IsRepeating(t) ==> CanProject(t, today)
    ensures forall it :: it in r <==>
      it.purchase in ts && IsRepeating(it.purchase) && NextOccurrence(it.purchase, today) == Some(it.nextOccurrence)
    decreases |ts|
  {
    if |ts| == 0 then []
    else
      assert ts == [ts[0]] + ts[1..];
      var rest := WithNextOccurrence(ts[1..], today);
      if IsRepeating(ts[0]) && NextOccurrence(ts[0], today).Some? then
        [UpcomingItem(ts[0], NextOccurrence(ts[0], today).value)] + rest
      else rest
  }

  /** The upcoming list: every repeating purchase with a next occurrence,
      soonest first. */
  function UpcomingPurchases(ts: seq<Transaction>, today: Date): (r: seq<UpcomingItem>)
    requires forall t :: t in ts && IsRepeating(t) ==> CanProject(t, today)
    ensures forall it :: it in r <==>
      it.purchase in ts && IsRepeating(it.purchase) && NextOccurrence(it.purchase, today) == Some(it.nextOccurrence)
    ensures multiset(r) == multiset(WithNextOccurrence(ts, today))
    ensures forall it :: it in r ==> Before(today, it.nextOccurrence)
    ensures forall i, j :: 0 <= i < j < |r| ==> !Before(r[j].nextOccurrence, r[i].nextOccurrence)
  {
    DateOrders();
    var r := SortBy(WithNextOccurrence(ts, today), EarlierFirst);
    assert Sorted(r, EarlierFirst);
    r
  }

  /** Purchases due on the same day keep the order the server sent them in. */
  lemma UpcomingTiesKeepServerOrder(ts: seq<Transaction>, today: Date, i: nat, j: nat)
    requires forall t :: t in ts && IsRepeating(t) ==> CanProject(t, today)
    requires i < j < |WithNextOccurrence(ts, today)|
    requires WithNextOccurrence(ts, today)[i].nextOccurrence == WithNextOccurrence(ts, today)[j].nextOccurrence
    ensures OccursBefore(UpcomingPurchases(ts, today), WithNextOccurrence(ts, today)[i], WithNextOccurrence(ts, today)[j])
  {
    DateOrders();
    SortByStable(WithNextOccurrence(ts, today), EarlierFirst, i, j);
  }

  function PastRepeating(ts: seq<Transaction>, today: Date): (r: seq<Transaction>)
    ensures forall t :: t in r <==> t in ts && IsRepeating(t) && !Before(today, t.date)
    decreases |ts|
  {
    if |ts| == 0 then []
    else
      assert ts == [ts[0]] + ts[1..];
      var rest := PastRepeating(ts[1..], today);
      if IsRepeating(ts[0]) && !Before(today, ts[0].date) then [ts[0]] + rest else rest
  }

  /** The previous list: repeating purchases dated today or earlier, most
      recent first. */
  function PreviousPurchases(ts: seq<Transaction>, today: Date): (r: seq<Transaction>)
    ensures forall t :: t in r <==> t in ts && IsRepeating(t) && !Before(today, t.date)
    ensures multiset(r) == multiset(PastRepeating(ts, today))
    ensures forall i, j :: 0 <= i < j < |r| ==> !Before(r[i].date, r[j].date)
  {
    DateOrders();
    var r := SortBy(PastRepeating(ts, today), LaterFirst);
    assert Sorted(r, LaterFirst);
    r
  }

  /** Purchases dated the same day keep the order the server sent them in. */
  lemma PreviousTiesKeepServerOrder(ts: seq<Transaction>, today: Date, i: nat, j: nat)
    requires i < j < |PastRepeating(ts, today)|
    requires PastRepeating(ts, today)[i].date == PastRepeating(ts, today)[j].date
    ensures OccursBefore(PreviousPurchases(ts, today), PastRepeating(ts, today)[i], PastRepeating(ts, today)[j])
  {
    DateOrders();
    SortByStable(PastRepeating(ts, today), LaterFirst, i, j);
  }

  // ---------------------------------------------------------------------
  // calculateBalanceProjection

  /** A JavaScript number as far as the projection needs it: a finite value,
      or one of NaN and the infinities, which every later sum keeps. */
  datatype Num = Finite(value: real) | NonFinite

  function Plus(a: Num, b: Num): Num
  {
    if a.Finite? && b.Finite? then Finite(a.value + b.value) else NonFinite
  }

  function Minus(a: Num, b: Num): Num
  {
    if a.Finite? && b.Finite? then Finite(a.value - b.value) else NonFinite
  }

  /** `x / n` where n is `parseInt` of the count: NaN for no number, an
      infinity or NaN for 0. */
  function PerCount(x: real, count: Option<nat>): (r: Num)
    ensures r.Finite? <==> count.Some? && count.value > 0
  {
    if count.None? || count.value == 0 then NonFinite else Finite(x / (count.value as real))
  }

  /** The monthly impact of one repeating transaction. */
  function MonthlyImpact(t: Transaction): (r: Num)
  {
    var a := t.amount;
    if t.recurring == "daily" then Finite(a * 30.0)
    else if t.recurring == "weekly" then Finite(a * 4.0)
    else if t.recurring == "bi-weekly" then Finite(a * 2.0)
    else if t.recurring == "monthly" then Finite(a)
    else if t.recurring == "yearly" then Finite(a / 12.0)
    else if t.recurring == "custom" && t.recurrenceInterval != "" then
      var parts := Split(t.recurrenceInterval, '-');
      var unit := if |parts| > 1 then Some(parts[1]) else None;
      var count := ParseInt(parts[0]);
      if unit == Some("days") then PerCount(a * 30.0, count)
      else if unit == Some("weeks") then PerCount(a * 4.0, count)
      else if unit == Some("months") then PerCount(a, count)
      else if unit == Some("years") then PerCount(a, if count.None? then None else Some(12 * count.value))
      else Finite(0.0)
    else Finite(0.0)
  }

  /** The impact table for the fixed tags and for custom intervals. */
  lemma FixedImpacts(t: Transaction)
    ensures t.recurring == "daily" ==> MonthlyImpact(t) == Finite(t.amount * 30.0)
    ensures t.recurring == "weekly" ==> MonthlyImpact(t) == Finite(t.amount * 4.0)
    ensures t.recurring == "bi-weekly" ==> MonthlyImpact(t) == Finite(t.amount * 2.0)
    ensures t.recurring == "monthly" ==> MonthlyImpact(t) == Finite(t.amount)
    ensures t.recurring == "yearly" ==> MonthlyImpact(t) == Finite(t.amount / 12.0)
    ensures t.recurring != "daily" && t.recurring != "weekly" && t.recurring != "bi-weekly"
            && t.recurring != "monthly" && t.recurring != "yearly" && t.recurring != "custom"
            ==> MonthlyImpact(t) == Finite(0.0)
  {
  }

  /** A custom interval `"N-unit"` spreads the amount over N days, weeks,
      months or years; a count of zero gives no finite impact, and an unknown
      unit none at all. */
  lemma CustomImpacts(t: Transaction, n: nat, unit: string)
    requires t.recurring == "custom" && t.recurrenceInterval == NatToString(n) + "-" + unit
    requires '-' !in unit
    ensures n > 0 ==>
      && (unit == "days" ==> MonthlyImpact(t) == Finite(t.amount * 30.0 / (n as real)))
      && (unit == "weeks" ==> MonthlyImpact(t) == Finite(t.amount * 4.0 / (n as real)))
      && (unit == "months" ==> MonthlyImpact(t) == Finite(t.amount / (n as real)))
      && (unit == "years" ==> MonthlyImpact(t) == Finite(t.amount / ((12 * n) as real)))
    ensures n == 0 && (unit == "days" || unit == "weeks" || unit == "months" || unit == "years") ==>
      MonthlyImpact(t) == NonFinite
    ensures unit != "days" && unit != "weeks" && unit != "months" && unit != "years" ==>
      MonthlyImpact(t) == Finite(0.0)
  {
    DigitsHaveNoHyphen(n);
    SplitInterval(NatToString(n), unit);
    ParseIntNatToString(n);
  }

  /** A withdrawal lowers the balance by its impact, anything else raises it. */
  function ApplyImpact(running: Num, t: Transaction): Num
  {
    if t.txType == "Withdrawal" then Minus(running, MonthlyImpact(t)) else Plus(running, MonthlyImpact(t))
  }

  /** One month of the inner `forEach`. */
  function ApplyMonth(running: Num, ts: seq<Transaction>): Num
    decreases |ts|
  {
    if |ts| == 0 then running else ApplyMonth(ApplyImpact(running, ts[0]), ts[1..])
  }

  /** The running balance after k months. */
  function Projected(current: real, ts: seq<Transaction>, k: nat): Num
  {
    if k == 0 then Finite(current) else ApplyMonth(Projected(current, ts, k - 1), ts)
  }

  /** The net monthly impact of all the transactions. */
  function NetImpact(ts: seq<Transaction>): Num
    decreases |ts|
  {
    if |ts| == 0 then Finite(0.0)
    else
      var i := MonthlyImpact(ts[0]);
      Plus(if ts[0].txType == "Withdrawal" then Minus(Finite(0.0), i) else i, NetImpact(ts[1..]))
  }

  lemma {:induction false} ApplyMonthAddsNet(b: real, ts: seq<Transaction>)
    ensures ApplyMonth(Finite(b), ts) == Plus(Finite(b), NetImpact(ts))
    decreases |ts|
  {
    if |ts| > 0 {
      var next := ApplyImpact(Finite(b), ts[0]);
      if next.Finite? {
        ApplyMonthAddsNet(next.value, ts[1..]);
      } else {
        NonFiniteStays(ts[1..]);
      }
    }
  }

  lemma {:induction false} NonFiniteStays(ts: seq<Transaction>)
    ensures ApplyMonth(NonFinite, ts) == NonFinite
    decreases |ts|
  {
    if |ts| > 0 {
      NonFiniteStays(ts[1..]);
    }
  }

  /** With finite impacts the balance after k months is the current balance
      plus k times the net monthly impact; one impact that is not a number
      makes every projected balance not a number. */
  lemma {:induction false} ProjectionClosedForm(current: real, ts: seq<Transaction>, k: nat)
    ensures NetImpact(ts).Finite? ==>
      Projected(current, ts, k) == Finite(current + (k as real) * NetImpact(ts).value)
    ensures NetImpact(ts).NonFinite? && k > 0 ==> Projected(current, ts, k) == NonFinite
  {
    if k > 0 {
      ProjectionClosedForm(current, ts, k - 1);
      ProjectedStep(current, ts, k);
      var net := NetImpact(ts);
      if net.Finite? {
        assert ((k - 1) as real) * net.value + net.value == (k as real) * net.value;
      }
    }
  }

  /** Each month adds the net impact to the balance before it. */
  lemma ProjectedStep(current: real, ts: seq<Transaction>, k: nat)
    requires k > 0
    ensures Projected(current, ts, k) == Plus(Projected(current, ts, k - 1), NetImpact(ts))
  {
    var before := Projected(current, ts, k - 1);
    if before.Finite? {
      ApplyMonthAddsNet(before.value, ts);
    } else {
      NonFiniteStays(ts);
    }
  }

  /** A month label: the short month name and two-digit year. */
  datatype MonthLabel = MonthLabel(month: int, year: int)

  function LabelOf(d: Date): MonthLabel
  {
    MonthLabel(d.month, d.year % 100)
  }

  /** The label the loop writes for month i: today with `setMonth(month + i)`,
      so today's day of the month takes part. */
  function AsWrittenLabel(today: Date, i: nat): MonthLabel
    requires Valid(today)
  {
    LabelOf(AddMonths(today, i))
  }

  /** The label of the month i months after today's. */
  function ProjectionLabel(today: Date, i: nat): MonthLabel
  {
    LabelOf(FirstOfMonth(MonthIndex(today) + i))
  }

  /** The label after a label. */
  function NextLabel(l: MonthLabel): MonthLabel
  {
    if l.month == 12 then MonthLabel(1, (l.year + 1) % 100) else MonthLabel(l.month + 1, l.year)
  }

  /** The first of the month after month k. */
  lemma FirstOfNextMonth(k: int)
    ensures var a := FirstOfMonth(k);
            FirstOfMonth(k + 1) == if a.month == 12 then Date(a.year + 1, 1, 1) else Date(a.year, a.month + 1, 1)
  {
    var a := FirstOfMonth(k);
    if a.month == 12 {
      assert k + 1 == (a.year + 1) * 12;
    } else {
      assert k + 1 == a.year * 12 + a.month;
    }
  }

  /** The labels run through consecutive months, starting at today's. */
  lemma ProjectionLabelsConsecutive(today: Date, i: nat)
    requires Valid(today)
    ensures ProjectionLabel(today, 0) == LabelOf(today)
    ensures ProjectionLabel(today, i + 1) == NextLabel(ProjectionLabel(today, i))
  {
    FirstOfOwnMonth(today);
    FirstOfNextMonth(MonthIndex(today) + i);
    TwoDigitYearStep(FirstOfMonth(MonthIndex(today) + i).year);
  }

  /** The two-digit year after December is the next one, wrapping at 100. */
  lemma TwoDigitYearStep(y: int)
    ensures (y + 1) % 100 == (y % 100 + 1) % 100
  {
    var q, r := y / 100, y % 100;
    assert y + 1 == 100 * q + (r + 1);
    if r + 1 == 100 {
      assert y + 1 == 100 * (q + 1);
    }
  }

  /** Up to the 28th of the month both labels agree. */
  lemma AsWrittenAgreesUpToThe28th(today: Date, i: nat)
    requires Valid(today) && today.day <= 28
    ensures AsWrittenLabel(today, i) == ProjectionLabel(today, i)
  {
    AddMonthsDay(today, i);
    var r := AddMonths(today, i);
    FirstOfOwnMonth(r);
  }

  /** `setMonth` from 31 January and from 3 March of a common year. */
  lemma FromJanuary31st(y: int)
    requires !IsLeapYear(y)
    ensures AddMonths(Date(y, 1, 31), 0) == Date(y, 1, 31)
    ensures AddMonths(Date(y, 1, 31), 1) == Date(y, 3, 3)
    ensures AddMonths(Date(y, 1, 31), 2) == Date(y, 3, 31)
    ensures AddMonths(Date(y, 3, 3), 1) == Date(y, 4, 3)
  {
    AddMonthsAdvances(Date(y, 1, 31), 0);
    var feb := Date(y, 2, 1);
    var mar := Date(y, 3, 1);
    var apr := Date(y, 4, 1);
    FirstOfOwnMonth(feb);
    FirstOfOwnMonth(mar);
    FirstOfOwnMonth(apr);
    assert MonthIndex(Date(y, 1, 31)) + 1 == MonthIndex(feb);
    assert MonthIndex(Date(y, 1, 31)) + 2 == MonthIndex(mar);
    assert MonthIndex(Date(y, 3, 3)) + 1 == MonthIndex(apr);
    assert MonthIndex(feb) + 1 == MonthIndex(mar);
    AddDaysIntoNextMonth(feb, 30);
    AddDaysWithinMonth(mar, 30);
    AddDaysWithinMonth(apr, 2);
  }

  /** On 31 January of a common year (2025, say) the labels the loop writes
      are Jan, Mar, Mar: the second month lands on 3 March, February is
      skipped and March repeated. */
  lemma AsWrittenLabelRepeatsAMonth(y: int)
    requires !IsLeapYear(y)
    ensures AsWrittenLabel(Date(y, 1, 31), 0) == MonthLabel(1, y % 100)
    ensures AsWrittenLabel(Date(y, 1, 31), 1) == MonthLabel(3, y % 100)
    ensures AsWrittenLabel(Date(y, 1, 31), 2) == MonthLabel(3, y % 100)
    ensures AsWrittenLabel(Date(y, 1, 31), 2) != NextLabel(AsWrittenLabel(Date(y, 1, 31), 1))
  {
    FromJanuary31st(y);
  }

  /** `calculateBalanceProjection(currentBalance, recurringTransactions,
      months)` with today's date given. The labels are the corrected ones of
      consecutive months (`ProjectionLabel`); they are the labels the source
      computes (`AsWrittenLabel`) whenever today is on or before the 28th. */
  method CalculateBalanceProjection(current: real, ts: seq<Transaction>, months: nat, today: Date)
    returns (labels: seq<MonthLabel>, balances: seq<Num>)
    ensures |labels| == months && |balances| == months
    ensures forall i :: 0 <= i < months ==> labels[i] == ProjectionLabel(today, i)
    ensures Valid(today) && today.day <= 28 ==>
      forall i :: 0 <= i < months ==> labels[i] == AsWrittenLabel(today, i)
    ensures forall i :: 0 <= i < months ==> balances[i] == Projected(current, ts, i + 1)
  {
    labels := [];
    balances := [];
    var running := Finite(current);
    for i := 0 to months
      invariant |labels| == i && |balances| == i
      invariant running == Projected(current, ts, i)
      invariant forall k :: 0 <= k < i ==> labels[k] == ProjectionLabel(today, k)
      invariant forall k :: 0 <= k < i ==> balances[k] == Projected(current, ts, k + 1)
    {
      labels := labels + [ProjectionLabel(today, i)];
      var j := 0;
      assert ts[0..] == ts;
      while j < |ts|
        invariant 0 <= j <= |ts|
        invariant ApplyMonth(running, ts[j..]) == Projected(current, ts, i + 1)
      {
        assert ts[j..][1..] == ts[j + 1..];
        running := ApplyImpact(running, ts[j]);
        j := j + 1;
      }
      balances := balances + [running];
    }
    if Valid(today) && today.day <= 28 {
      forall i | 0 <= i < months ensures labels[i] == AsWrittenLabel(today, i) {
        AsWrittenAgreesUpToThe28th(today, i);
      }
    }
  }

  // ---------------------------------------------------------------------
  // How a stored transaction reaches this page

  /** The server answers with the stored rows, whose column is
      `recurrence_interval`; this page reads `recurrenceInterval`, which the
      rows do not have. */
  function FetchedAsWritten(row: Transaction): Transaction
  {
    row.(recurrenceInterval := "")
  }

  /** The transaction as this page evidently means to see it. */
  function Fetched(row: Transaction): Transaction
  {
    row
  }

  /** A custom purchase every N units, dated today or earlier: as fetched,
      its interval is lost, so its repetition does not move the date and the
      next-occurrence loop would never end; its text reads "Custom" and it
      adds nothing to the projection. */
  lemma CustomIntervalLostInTransit(row: Transaction, today: Date, n: nat, unit: string)
    requires row.recurring == "custom" && row.recurrenceInterval == NatToString(n) + "-" + unit
    requires Valid(row.date) && Valid(today) && !Before(today, row.date)
    ensures StepOf(FetchedAsWritten(row)) == NoStep
    ensures !CanProject(FetchedAsWritten(row), today)
    ensures FormatRecurringText(FetchedAsWritten(row)) == "Custom"
    ensures MonthlyImpact(FetchedAsWritten(row)) == Finite(0.0)
  {
    SplitWithoutSeparator("custom", '-');
    assert Capitalize("custom") == "Custom";
  }

  /** With the interval kept, the same purchase steps by N units, its next
      occurrence is defined and after today, and its text reads
      "Every N unit". */
  lemma CustomIntervalKept(row: Transaction, today: Date, n: nat, unit: string)
    requires row.recurring == "custom" && row.recurrenceInterval == NatToString(n) + "-" + unit
    requires n > 0 && (unit == "days" || unit == "weeks" || unit == "months" || unit == "years")
    requires Valid(row.date) && Valid(today)
    ensures !Stalls(StepOf(Fetched(row))) && !StepOf(Fetched(row)).InvalidStep?
    ensures CanProject(Fetched(row), today)
    ensures NextOccurrence(Fetched(row), today).Some?
    ensures Before(today, NextOccurrence(Fetched(row), today).value)
    ensures FormatRecurringText(Fetched(row)) == "Every " + NatToString(n) + " " + unit
  {
    CustomSteps(n, unit);
    FormatCustom(row, n, unit);
  }
}
