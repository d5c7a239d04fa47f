/** The dashboard page: the balance chart over the fetched transactions, the
    ranking of categories by the money that went through them in a time
    window, and the rank-change badges against the previous period. The
    window itself is a parameter: `windowOf(timeframe, t)` says whether a
    transaction falls in the named timeframe as of now. */
module Dashboard {
  import opened Text
  import opened Calendar
  import opened Sorting
  import opened TransactionServer

  // ---------------------------------------------------------------------
  // The balance chart

  /** The `reduce` that builds the chart's data: the running balance after
      each fetched transaction, deposits adding and everything else
      subtracting. */
  method BalanceSeries(ts: seq<Transaction>) returns (data: seq<real>)
    ensures |data| == |ts|
    ensures forall i :: 0 <= i < |ts| ==> data[i] == Balance(ts[..i + 1])
  {
    data := [];
    for i := 0 to |ts|
      invariant |data| == i
      invariant forall k :: 0 <= k < i ==> data[k] == Balance(ts[..k + 1])
    {
      var last := if |data| > 0 then data[|data| - 1] else 0.0;
      assert ts[..i + 1][..i] == ts[..i];
      assert i > 0 ==> last == Balance(ts[..i]);
      data := data + [if ts[i].txType == "Deposit" then last + ts[i].amount else last - ts[i].amount];
    }
  }

  /** Whatever order the rows arrive in, the chart's last point is the
      balance the server reports for the user. */
  lemma ChartEndsAtBalance(rows: seq<Transaction>, userId: nat, ts: seq<Transaction>)
    requires multiset(ts) == multiset(UserRows(rows, userId))
    requires |ts| > 0
    ensures Balance(ts[..|ts|]) == UserBalance(rows, userId)
  {
    assert ts[..|ts|] == ts;
    BalancePermutation(ts, UserRows(rows, userId));
  }

  /** The rows dated on or before `d`, in list order. */
  function DatedBy(ts: seq<Transaction>, d: Date): (r: seq<Transaction>)
    ensures forall t :: t in r <==> t in ts && !Before(d, t.date)
    decreases |ts|
  {
    if |ts| == 0 then []
    else
      var last := ts[|ts| - 1];
      var rest := DatedBy(ts[..|ts| - 1], d);
      assert ts == ts[..|ts| - 1] + [last];
      if !Before(d, last.date) then rest + [last] else rest
  }

  /** The balance at the end of day `d`: the signed sum of every row dated on
      or before it. */
  function BalanceOn(ts: seq<Transaction>, d: Date): real
  {
    Balance(DatedBy(ts, d))
  }

  /** Oldest first, as a chart over time reads. */
  ghost predicate Chronological(ts: seq<Transaction>)
  {
    forall a, b :: 0 <= a < b < |ts| ==> ts[a].date == ts[b].date || Before(ts[a].date, ts[b].date)
  }

  lemma {:induction false} AllDatedBy(ts: seq<Transaction>, d: Date)
    requires forall k :: 0 <= k < |ts| ==> !Before(d, ts[k].date)
    ensures DatedBy(ts, d) == ts
    decreases |ts|
  {
    if |ts| > 0 {
      AllDatedBy(ts[..|ts| - 1], d);
      assert ts[..|ts| - 1] + [ts[|ts| - 1]] == ts;
    }
  }

  lemma {:induction false} NoneDatedBy(ts: seq<Transaction>, d: Date, m: nat)
    requires m <= |ts|
    requires forall k :: m <= k < |ts| ==> Before(d, ts[k].date)
    ensures DatedBy(ts, d) == DatedBy(ts[..m], d)
    decreases |ts|
  {
    if |ts| > m {
      var init := ts[..|ts| - 1];
      assert init[..m] == ts[..m];
      NoneDatedBy(init, d, m);
    } else {
      assert ts[..m] == ts;
    }
  }

  /** With the rows oldest first, the point at the last row of each day is the
      balance on that day. */
  lemma ChronologicalPointIsBalanceOn(ts: seq<Transaction>, i: nat)
    requires Chronological(ts) && i < |ts|
    requires i + 1 == |ts| || ts[i + 1].date != ts[i].date
    ensures Balance(ts[..i + 1]) == BalanceOn(ts, ts[i].date)
  {
    var d := ts[i].date;
    forall k | i < k < |ts| ensures Before(d, ts[k].date) {
      assert Before(d, ts[i + 1].date);
      if k > i + 1 {
        assert ts[i + 1].date == ts[k].date || Before(ts[i + 1].date, ts[k].date);
      }
    }
    NoneDatedBy(ts, d, i + 1);
    var upTo := ts[..i + 1];
    forall k | 0 <= k < |upTo| ensures !Before(d, upTo[k].date) {
      if k < i {
        assert ts[k].date == d || Before(ts[k].date, d);
      }
    }
    AllDatedBy(upTo, d);
  }

  /** The rows arrive newest first (`ORDER BY date DESC`) and the chart labels
      point i with row i's date. Two deposits, `older` and then `newer`: the
      point labelled with the newer date shows only the newer amount though
      the balance that day is both, and the point labelled with the older
      date shows both though the balance that day is only the older one. */
  lemma NewestFirstChartMisstates(newer: Transaction, older: Transaction)
    requires newer.txType == "Deposit" && older.txType == "Deposit"
    requires Before(older.date, newer.date)
    requires newer.amount != 0.0 && older.amount != 0.0
    ensures var ts := [newer, older];
            && Balance(ts[..1]) == newer.amount
            && BalanceOn(ts, newer.date) == older.amount + newer.amount
            && Balance(ts[..2]) == older.amount + newer.amount
            && BalanceOn(ts, older.date) == older.amount
            && Balance(ts[..1]) != BalanceOn(ts, ts[0].date)
            && Balance(ts[..2]) != BalanceOn(ts, ts[1].date)
  {
    var ts := [newer, older];
    assert ts[..1] == [newer] && ts[..2] == ts && ts[..|ts| - 1] == [newer];
    assert [newer][..0] == [];
    AllDatedBy(ts, newer.date);
    NoneDatedBy([newer], older.date, 0);
    assert DatedBy(ts, older.date) == DatedBy([newer], older.date) + [older];
    assert [older][..0] == [];
  }

  // ---------------------------------------------------------------------
  // getPreviousPeriod

  /** Each case moves a copy of now back but returns the timeframe it was
      given. */
  function PreviousPeriod(timeframe: string): (r: string)
    ensures r == timeframe
  {
    if timeframe == "day" then "day"
    else if timeframe == "week" then "week"
    else if timeframe == "month" then "month"
    else if timeframe == "3month" then "3month"
    else if timeframe == "ytd" then "ytd"
    else timeframe
  }

  // ---------------------------------------------------------------------
  // getCategoryRankings

  /** A category with a space is keyed by its second word. */
  function CategoryKey(category: string): (k: string)
    ensures ' ' !in category ==> k == category
    ensures ' ' !in k
  {
    if ' ' in category then
      SplitAtSeparator(category, ' ');
      SplitPiecesHaveNoSeparator(category, ' ');
      Split(category, ' ')[1]
    else category
  }

  /** `"🍔 Food"` is keyed `Food`, and so is `"🍔 Food and drink"`. */
  lemma CategoryKeySecondWord(emoji: string, name: string, rest: string)
    requires ' ' !in emoji && ' ' !in name
    ensures CategoryKey(emoji + " " + name) == name
    ensures CategoryKey(emoji + " " + name + " " + rest) == name
  {
    SplitAtFirst(emoji, ' ', name);
    SplitWithoutSeparator(name, ' ');
    assert emoji + " " + name == emoji + [' '] + name;
    assert (emoji + [' '] + name)[|emoji|] == ' ';
    SplitAtFirst(emoji, ' ', name + " " + rest);
    SplitAtFirst(name, ' ', rest);
    assert emoji + " " + name + " " + rest == emoji + [' '] + (name + [' '] + rest);
    assert (emoji + [' '] + (name + [' '] + rest))[|emoji|] == ' ';
  }

  /** Only withdrawals and deposits are added to a category. */
  predicate Counted(t: Transaction)
  {
    t.txType == "Withdrawal" || t.txType == "Deposit"
  }

  /** The transactions inside the timeframe's window, in order. */
  function InWindow(ts: seq<Transaction>, windowOf: (string, Transaction) -> bool, timeframe: string)
    : (r: seq<Transaction>)
    ensures forall t :: t in r <==> t in ts && windowOf(timeframe, t)
    ensures |r| <= |ts|
    decreases |ts|
  {
    if |ts| == 0 then []
    else
      assert ts == [ts[0]] + ts[1..];
      var rest := InWindow(ts[1..], windowOf, timeframe);
      if windowOf(timeframe, ts[0]) then [ts[0]] + rest else rest
  }

  /** The keys of `categorySpending` in the order they were first set. */
  function Keys(s: seq<Transaction>): (k: seq<string>)
    ensures Distinct(k)
    ensures forall i :: 0 <= i < |s| && Counted(s[i]) ==> CategoryKey(s[i].category) in k
    ensures forall c :: c in k ==> exists i :: 0 <= i < |s| && Counted(s[i]) && CategoryKey(s[i].category) == c
    decreases |s|
  {
    if |s| == 0 then []
    else
      var p := s[..|s| - 1];
      var front := Keys(p);
      var t := s[|s| - 1];
      assert forall i :: 0 <= i < |p| ==> p[i] == s[i];
      if Counted(t) && CategoryKey(t.category) !in front then front + [CategoryKey(t.category)] else front
  }

  /** `categorySpending[c]`: the amounts of the counted transactions keyed c. */
  function CategoryTotal(s: seq<Transaction>, c: string): real
    decreases |s|
  {
    if |s| == 0 then 0.0
    else
      var t := s[|s| - 1];
      CategoryTotal(s[..|s| - 1], c) + (if Counted(t) && CategoryKey(t.category) == c then t.amount else 0.0)
  }

  lemma {:induction false} UnlistedCategoryHasNoTotal(s: seq<Transaction>, c: string)
    requires c !in Keys(s)
    ensures CategoryTotal(s, c) == 0.0
    decreases |s|
  {
    if |s| > 0 {
      UnlistedCategoryHasNoTotal(s[..|s| - 1], c);
    }
  }

  datatype Ranking = Ranking(category: string, amount: real)

  /** `(a, b) => b.amount - a.amount`: a may come first when its amount is
      not smaller. */
  predicate ByAmount(a: Ranking, b: Ranking)
  {
    a.amount >= b.amount
  }

  lemma ByAmountOrder()
    ensures TotalPreorder(ByAmount)
  {
  }

  /** `Object.entries(categorySpending).map(...)`. */
  function Entries(keys: seq<string>, s: seq<Transaction>): (r: seq<Ranking>)
    ensures |r| == |keys|
    ensures forall j :: 0 <= j < |keys| ==> r[j] == Ranking(keys[j], CategoryTotal(s, keys[j]))
  {
    seq(|keys|, j requires 0 <= j < |keys| => Ranking(keys[j], CategoryTotal(s, keys[j])))
  }

  /** The rankings of a timeframe: one entry per category key of the counted
      transactions in the window, with its total, largest total first. */
  function Rankings(ts: seq<Transaction>, windowOf: (string, Transaction) -> bool, timeframe: string)
    : (r: seq<Ranking>)
    ensures |ts| == 0 ==> r == []
    ensures var f := InWindow(ts, windowOf, timeframe);
            forall x :: x in r <==> x.category in Keys(f) && x.amount == CategoryTotal(f, x.category)
    ensures forall i, j :: 0 <= i < j < |r| ==> r[i].category != r[j].category
    ensures forall i, j :: 0 <= i < j < |r| ==> r[i].amount >= r[j].amount
  {
    if |ts| == 0 then []
    else
      var f := InWindow(ts, windowOf, timeframe);
      var entries := Entries(Keys(f), f);
      ByAmountOrder();
      var r := SortBy(entries, ByAmount);
      assert Sorted(r, ByAmount);
      assert Distinct(entries);
      DistinctPermutation(entries, r);
      assert forall i, j :: 0 <= i < j < |r| ==> r[i].category != r[j].category by {
        forall i, j | 0 <= i < j < |r| ensures r[i].category != r[j].category {
          assert r[i] in entries && r[j] in entries;
        }
      }
      r
  }

  /** What one more transaction does to the keys. */
  lemma PrefixKeys(f: seq<Transaction>, i: nat)
    requires i < |f|
    ensures var t := f[i];
            var c := CategoryKey(t.category);
            Keys(f[..i + 1]) == if Counted(t) && c !in Keys(f[..i]) then Keys(f[..i]) + [c] else Keys(f[..i])
  {
    assert f[..i + 1][..i] == f[..i];
  }

  /** What one more transaction does to the total of one key. */
  lemma PrefixTotal(f: seq<Transaction>, i: nat, c: string)
    requires i < |f|
    ensures CategoryTotal(f[..i + 1], c) ==
            CategoryTotal(f[..i], c) + (if Counted(f[i]) && CategoryKey(f[i].category) == c then f[i].amount else 0.0)
  {
    assert f[..i + 1][..i] == f[..i];
  }

  /** What the loop of `getCategoryRankings` knows after the first `i`
      transactions: the keys in the order they were first set, and each key's
      running total. */
  ghost predicate Tallied(f: seq<Transaction>, i: nat, keys: seq<string>, totals: map<string, real>)
    requires i <= |f|
  {
    && keys == Keys(f[..i])
    && (forall c :: c in totals <==> c in keys)
    && (forall c :: c in totals ==> totals[c] == CategoryTotal(f[..i], c))
  }

  /** Adding one more transaction to `categorySpending`. */
  lemma TallyStep(f: seq<Transaction>, i: nat, keys: seq<string>, totals: map<string, real>,
                  keys': seq<string>, totals': map<string, real>)
    requires i < |f|
    requires Tallied(f, i, keys, totals)
    requires var k := CategoryKey(f[i].category);
             && keys' == (if Counted(f[i]) && k !in keys then keys + [k] else keys)
             && totals' == (if Counted(f[i]) then totals[k := (if k in totals then totals[k] else 0.0) + f[i].amount] else totals)
    ensures Tallied(f, i + 1, keys', totals')
  {
    PrefixKeys(f, i);
    var k := CategoryKey(f[i].category);
    if k !in totals {
      UnlistedCategoryHasNoTotal(f[..i], k);
    }
    forall c | c in totals' ensures totals'[c] == CategoryTotal(f[..i + 1], c) {
      PrefixTotal(f, i, c);
    }
  }

  /** Once every transaction is tallied, the entries are `Entries(Keys(f), f)`. */
  lemma TalliedEntries(f: seq<Transaction>, keys: seq<string>, totals: map<string, real>)
    requires Tallied(f, |f|, keys, totals)
    ensures seq(|keys|, j requires 0 <= j < |keys| => Ranking(keys[j], totals[keys[j]])) == Entries(Keys(f), f)
  {
    assert f[..|f|] == f;
  }

  /** `getCategoryRankings(transactions, timeframe)`. */
  method GetCategoryRankings(ts: seq<Transaction>, windowOf: (string, Transaction) -> bool, timeframe: string)
    returns (r: seq<Ranking>)
    ensures r == Rankings(ts, windowOf, timeframe)
  {
    if |ts| == 0 {
      return [];
    }
    var f := InWindow(ts, windowOf, timeframe);
    var keys: seq<string> := [];
    var totals: map<string, real> := map[];
    for i := 0 to |f|
      invariant Tallied(f, i, keys, totals)
    {
      ghost var keys0, totals0 := keys, totals;
      var t := f[i];
      var c := CategoryKey(t.category);
      if t.txType == "Withdrawal" || t.txType == "Deposit" {
        if c !in keys {
          keys := keys + [c];
        }
        totals := totals[c := (if c in totals then totals[c] else 0.0) + t.amount];
      }
      TallyStep(f, i, keys0, totals0, keys, totals);
    }
    TalliedEntries(f, keys, totals);
    var entries := seq(|keys|, j requires 0 <= j < |keys| => Ranking(keys[j], totals[keys[j]]));
    ByAmountOrder();
    r := SortBy(entries, ByAmount);
  }

  // ---------------------------------------------------------------------
  // Every counted amount lands in exactly one category

  function CountedSum(s: seq<Transaction>): real
    decreases |s|
  {
    if |s| == 0 then 0.0
    else CountedSum(s[..|s| - 1]) + (if Counted(s[|s| - 1]) then s[|s| - 1].amount else 0.0)
  }

  function SumTotals(keys: seq<string>, s: seq<Transaction>): real
    decreases |keys|
  {
    if |keys| == 0 then 0.0 else CategoryTotal(s, keys[0]) + SumTotals(keys[1..], s)
  }

  function SumAmounts(r: seq<Ranking>): real
    decreases |r|
  {
    if |r| == 0 then 0.0 else r[0].amount + SumAmounts(r[1..])
  }

  lemma {:induction false} SumTotalsAppendKey(keys: seq<string>, c: string, s: seq<Transaction>)
    ensures SumTotals(keys + [c], s) == SumTotals(keys, s) + CategoryTotal(s, c)
    decreases |keys|
  {
    if |keys| > 0 {
      assert (keys + [c])[1..] == keys[1..] + [c];
      SumTotalsAppendKey(keys[1..], c, s);
    }
  }

  lemma {:induction false} SumTotalsExtend(keys: seq<string>, s: seq<Transaction>, t: Transaction)
    requires Distinct(keys)
    ensures SumTotals(keys, s + [t])
         == SumTotals(keys, s) + (if Counted(t) && CategoryKey(t.category) in keys then t.amount else 0.0)
    decreases |keys|
  {
    if |keys| > 0 {
      assert (s + [t])[..|s|] == s;
      assert Distinct(keys[1..]);
      SumTotalsExtend(keys[1..], s, t);
      assert keys == [keys[0]] + keys[1..];
    }
  }

  lemma {:induction false} TotalsCoverCounted(s: seq<Transaction>)
    ensures SumTotals(Keys(s), s) == CountedSum(s)
    decreases |s|
  {
    if |s| > 0 {
      var p := s[..|s| - 1];
      var t := s[|s| - 1];
      assert s == p + [t];
      TotalsCoverCounted(p);
      var c := CategoryKey(t.category);
      SumTotalsExtend(Keys(p), p, t);
      if Counted(t) && c !in Keys(p) {
        SumTotalsAppendKey(Keys(p), c, s);
        UnlistedCategoryHasNoTotal(p, c);
      }
    }
  }

  lemma {:induction false} SumAmountsOfEntries(keys: seq<string>, s: seq<Transaction>)
    ensures SumAmounts(Entries(keys, s)) == SumTotals(keys, s)
    decreases |keys|
  {
    if |keys| > 0 {
      assert Entries(keys, s)[1..] == Entries(keys[1..], s);
      SumAmountsOfEntries(keys[1..], s);
    }
  }

  lemma {:induction false} SumAmountsInsert(x: Ranking, r: seq<Ranking>)
    ensures SumAmounts(Insert(x, r, ByAmount)) == x.amount + SumAmounts(r)
    decreases |r|
  {
    ByAmountOrder();
    if |r| > 0 && !ByAmount(x, r[0]) {
      SumAmountsInsert(x, r[1..]);
      assert ([r[0]] + Insert(x, r[1..], ByAmount))[1..] == Insert(x, r[1..], ByAmount);
    }
  }

  lemma {:induction false} SumAmountsSorted(r: seq<Ranking>)
    ensures SumAmounts(SortBy(r, ByAmount)) == SumAmounts(r)
    decreases |r|
  {
    ByAmountOrder();
    if |r| > 0 {
      SumAmountsSorted(r[1..]);
      SumAmountsInsert(r[0], SortBy(r[1..], ByAmount));
    }
  }

  /** The totals of the rankings add up to every withdrawal and deposit in
      the window: nothing is counted twice and nothing is lost. */
  lemma RankingsCoverEveryAmount(ts: seq<Transaction>, windowOf: (string, Transaction) -> bool, timeframe: string)
    ensures SumAmounts(Rankings(ts, windowOf, timeframe)) == CountedSum(InWindow(ts, windowOf, timeframe))
  {
    var f := InWindow(ts, windowOf, timeframe);
    if |ts| > 0 {
      SumAmountsSorted(Entries(Keys(f), f));
      SumAmountsOfEntries(Keys(f), f);
      TotalsCoverCounted(f);
    }
  }

  // ---------------------------------------------------------------------
  // updateRankings

  /** `oldRankings.findIndex(r => r.category === category)`. */
  function FindCategory(rs: seq<Ranking>, category: string): (i: int)
    ensures -1 <= i < |rs|
    ensures i == -1 <==> forall j :: 0 <= j < |rs| ==> rs[j].category != category
    ensures i >= 0 ==> rs[i].category == category && forall j :: 0 <= j < i ==> rs[j].category != category
    decreases |rs|
  {
    if |rs| == 0 then -1
    else if rs[0].category == category then 0
    else
      var k := FindCategory(rs[1..], category);
      if k == -1 then -1 else k + 1
  }

  /** The places a category climbed since the old rankings; 0 when it was not
      ranked before. */
  function RankChange(oldRankings: seq<Ranking>, index: nat, item: Ranking): int
  {
    var oldIndex := FindCategory(oldRankings, item.category);
    if oldIndex != -1 then oldIndex - index else 0
  }

  function ChangeClass(change: int): string
  {
    if change > 0 then "up" else if change < 0 then "down" else "same"
  }

  function ChangeText(change: int): string
  {
    if change > 0 then "↑ +" + IntToString(change)
    else if change < 0 then "↓ " + IntToString(change)
    else "•"
  }

  /** The class and the text tell the same story, and the number in the text
      reads back as the size of the change. */
  lemma ChangeBadge(change: int)
    ensures ChangeClass(change) == "up" <==> change > 0
    ensures ChangeClass(change) == "down" <==> change < 0
    ensures ChangeClass(change) == "same" <==> ChangeText(change) == "•"
    ensures change > 0 ==> ChangeText(change)[..3] == "↑ +" && ParseInt(ChangeText(change)[3..]) == Some(change)
    ensures change < 0 ==> ChangeText(change)[..3] == "↓ -" && ParseInt(ChangeText(change)[3..]) == Some(-change)
  {
    if change > 0 {
      assert ChangeText(change)[3..] == NatToString(change);
      ParseIntNatToString(change);
    } else if change < 0 {
      assert ChangeText(change)[3..] == NatToString(-change);
      ParseIntNatToString(-change);
    }
  }

  datatype RankRow = RankRow(position: nat, category: string, changeClass: string, changeText: string, amount: real)

  /** The rankings panel: a no-data notice, or one row per ranking. */
  datatype RankingsView = NoData | Rows(rows: seq<RankRow>)

  function RowFor(newRankings: seq<Ranking>, oldRankings: seq<Ranking>, index: nat): RankRow
    requires index < |newRankings|
  {
    var item := newRankings[index];
    var change := RankChange(oldRankings, index, item);
    RankRow(index + 1, item.category, ChangeClass(change), ChangeText(change), item.amount)
  }

  method UpdateRankings(newRankings: seq<Ranking>, oldRankings: seq<Ranking>) returns (view: RankingsView)
    ensures view.NoData? <==> |newRankings| == 0
    ensures view.Rows? ==> |view.rows| == |newRankings|
    ensures view.Rows? ==> forall i :: 0 <= i < |newRankings| ==> view.rows[i] == RowFor(newRankings, oldRankings, i)
    ensures view == RankingsPanel(newRankings, oldRankings)
  {
    if |newRankings| == 0 {
      return NoData;
    }
    var rows: seq<RankRow> := [];
    for index := 0 to |newRankings|
      invariant |rows| == index
      invariant forall i :: 0 <= i < index ==> rows[i] == RowFor(newRankings, oldRankings, i)
    {
      var item := newRankings[index];
      var oldIndex := FindCategory(oldRankings, item.category);
      var change := if oldIndex != -1 then oldIndex - index else 0;
      var row := RankRow(index + 1, item.category, ChangeClass(change), ChangeText(change), item.amount);
      assert row == RowFor(newRankings, oldRankings, index);
      rows := rows + [row];
    }
    view := Rows(rows);
  }

  /** A category in both lists shows how many places it moved. */
  lemma RankChangeIsPlacesMoved(oldRankings: seq<Ranking>, newRankings: seq<Ranking>, i: nat, j: nat)
    requires i < |newRankings| && j < |oldRankings|
    requires forall a, b :: 0 <= a < b < |oldRankings| ==> oldRankings[a].category != oldRankings[b].category
    requires oldRankings[j].category == newRankings[i].category
    ensures RankChange(oldRankings, i, newRankings[i]) == j - i
  {
  }

  /** `updateCategoryDisplay(timeframe)` with the default sort by amount: the
      rankings, sorted once more by amount, against the rankings of the
      previous period. */
  function AmountView(ts: seq<Transaction>, windowOf: (string, Transaction) -> bool, timeframe: string)
    : RankingsView
  {
    ByAmountOrder();
    var rankings := SortBy(Rankings(ts, windowOf, timeframe), ByAmount);
    var previous := Rankings(ts, windowOf, PreviousPeriod(timeframe));
    RankingsPanel(rankings, previous)
  }

  /** The panel `updateRankings` draws: a no-data notice, or the row for
      each new ranking against the old ones. */
  function RankingsPanel(newRankings: seq<Ranking>, oldRankings: seq<Ranking>): RankingsView
  {
    if |newRankings| == 0 then NoData
    else Rows(seq(|newRankings|, i requires 0 <= i < |newRankings| => RowFor(newRankings, oldRankings, i)))
  }

  /** Because the previous period is the same timeframe, every badge of the
      amount view reads "•": no category is ever shown as having moved. */
  lemma AmountViewShowsNoMovement(ts: seq<Transaction>, windowOf: (string, Transaction) -> bool, timeframe: string)
    ensures AmountView(ts, windowOf, timeframe).Rows? ==>
      forall row :: row in AmountView(ts, windowOf, timeframe).rows ==>
        row.changeClass == "same" && row.changeText == "•"
  {
    ByAmountOrder();
    var current := Rankings(ts, windowOf, timeframe);
    assert Sorted(current, ByAmount);
    SortBySorted(current, ByAmount);
    assert AmountView(ts, windowOf, timeframe) == RankingsPanel(current, current);
    SelfComparedPanelShowsNoMovement(current);
  }

  /** Rankings with distinct categories compared with themselves: every row
      stays in its place, so every badge reads "•". */
  lemma SelfComparedPanelShowsNoMovement(rs: seq<Ranking>)
    requires forall a, b :: 0 <= a < b < |rs| ==> rs[a].category != rs[b].category
    ensures RankingsPanel(rs, rs).Rows? ==>
      forall row :: row in RankingsPanel(rs, rs).rows ==> row.changeClass == "same" && row.changeText == "•"
  {
    var panel := RankingsPanel(rs, rs);
    if panel.Rows? {
      forall row | row in panel.rows ensures row.changeClass == "same" && row.changeText == "•" {
        var i :| 0 <= i < |panel.rows| && panel.rows[i] == row;
        RankChangeIsPlacesMoved(rs, rs, i, i);
      }
    }
  }
}
