/** The derived views the dashboard memoizes from the record list
    (src/App.tsx lines 176-240): lifetime totals with per-contributor and
    per-category buckets, the cumulative balance series, the monthly
    income/expense trend and one month's expense breakdown. */
module Dashboard {
  import opened Wrappers
  import opened Records
  import opened Order
  import opened Seqs

  // ----- Reference sums over the whole record list -----

  /** Everything recorded under `flow`, known key or not. */
  function FlowTotal(data: seq<Record>, flow: Flow): int {
    if |data| == 0 then 0 else Total(AmountsOf(data[0], flow)) + FlowTotal(data[1..], flow)
  }

  /** Everything recorded under `flow` and key `k`. */
  function FlowKeyTotal(data: seq<Record>, flow: Flow, k: string): int {
    if |data| == 0 then 0 else KeyTotal(AmountsOf(data[0], flow), k) + FlowKeyTotal(data[1..], flow, k)
  }

  /** Everything recorded under `flow` and a key outside `names`. */
  function FlowUnlisted(data: seq<Record>, flow: Flow, names: seq<string>): int {
    if |data| == 0 then 0 else UnlistedTotal(AmountsOf(data[0], flow), names) + FlowUnlisted(data[1..], flow, names)
  }

  /** Every record keys its `flow` amounts only by `names`. */
  predicate OnlyListedKeys(data: seq<Record>, flow: Flow, names: seq<string>) {
    forall i, j :: 0 <= i < |data| && 0 <= j < |AmountsOf(data[i], flow)| ==> AmountsOf(data[i], flow)[j].key in names
  }

  // ----- totals memo -----

  /** `{ name, value }` as the charts receive it. */
  datatype Bucket = Bucket(name: string, value: int)

  /** A running total with its per-name buckets. */
  datatype Tally = Tally(total: int, buckets: seq<Bucket>)

  datatype Totals = Totals(totalIncome: int, totalExpense: int, incomeByPerson: seq<Bucket>, expenseByCategory: seq<Bucket>)

  predicate DistinctNames(buckets: seq<Bucket>) {
    forall i, j :: 0 <= i < j < |buckets| ==> buckets[i].name != buckets[j].name
  }

  /** `names.map(n => ({ name: n, value: 0 }))`. */
  function ZeroBuckets(names: seq<string>): (r: seq<Bucket>)
    ensures |r| == |names|
    ensures forall j :: 0 <= j < |names| ==> r[j] == Bucket(names[j], 0)
  {
    if |names| == 0 then [] else [Bucket(names[0], 0)] + ZeroBuckets(names[1..])
  }

  /** `buckets.findIndex(b => b.name === name)`. */
  function FindIndex(buckets: seq<Bucket>, name: string): (i: int)
    ensures -1 <= i < |buckets|
    ensures i == -1 <==> forall j :: 0 <= j < |buckets| ==> buckets[j].name != name
    ensures 0 <= i ==> buckets[i].name == name && forall j :: 0 <= j < i ==> buckets[j].name != name
  {
    if |buckets| == 0 then -1
    else if buckets[0].name == name then 0
    else
      var i := FindIndex(buckets[1..], name);
      if i == -1 then -1 else i + 1
  }

  /** The body of the inner `forEach`: the amount always reaches the
      total, and reaches a bucket only when one carries its key. */
  function AddEntry(t: Tally, e: Entry): (r: Tally)
    requires DistinctNames(t.buckets)
    ensures r.total == t.total + e.amount
    ensures |r.buckets| == |t.buckets| && DistinctNames(r.buckets)
    ensures forall j :: 0 <= j < |t.buckets| ==> r.buckets[j].name == t.buckets[j].name
    ensures forall j :: 0 <= j < |t.buckets| ==>
      r.buckets[j].value == t.buckets[j].value + (if t.buckets[j].name == e.key then e.amount else 0)
  {
    var i := FindIndex(t.buckets, e.key);
    var buckets :=
      if i > -1 then t.buckets[i := Bucket(t.buckets[i].name, t.buckets[i].value + e.amount)]
      else t.buckets;
    Tally(t.total + e.amount, buckets)
  }

  /** `Object.entries(a).forEach(...)` over one incomes or expenses object. */
  function TallyEntries(t: Tally, a: Amounts): (r: Tally)
    requires DistinctNames(t.buckets)
    ensures r.total == t.total + Total(a)
    ensures |r.buckets| == |t.buckets| && DistinctNames(r.buckets)
    ensures forall j :: 0 <= j < |t.buckets| ==>
      r.buckets[j] == Bucket(t.buckets[j].name, t.buckets[j].value + KeyTotal(a, t.buckets[j].name))
    decreases |a|
  {
    if |a| == 0 then t else TallyEntries(AddEntry(t, a[0]), a[1..])
  }

  /** `data.forEach(...)`: each row feeds its incomes to the income tally
      and its expenses to the expense tally. */
  function TallyRows(income: Tally, expense: Tally, data: seq<Record>): (r: (Tally, Tally))
    requires DistinctNames(income.buckets) && DistinctNames(expense.buckets)
    ensures r.0.total == income.total + FlowTotal(data, Income)
    ensures r.1.total == expense.total + FlowTotal(data, Expense)
    ensures |r.0.buckets| == |income.buckets| && |r.1.buckets| == |expense.buckets|
    ensures forall j :: 0 <= j < |income.buckets| ==>
      r.0.buckets[j] == Bucket(income.buckets[j].name, income.buckets[j].value + FlowKeyTotal(data, Income, income.buckets[j].name))
    ensures forall j :: 0 <= j < |expense.buckets| ==>
      r.1.buckets[j] == Bucket(expense.buckets[j].name, expense.buckets[j].value + FlowKeyTotal(data, Expense, expense.buckets[j].name))
    decreases |data|
  {
    if |data| == 0 then (income, expense)
    else TallyRows(TallyEntries(income, data[0].incomes), TallyEntries(expense, data[0].expenses), data[1..])
  }

  /** The `totals` memo over given enumerations. */
  function TotalsFor(data: seq<Record>, persons: seq<string>, cats: seq<string>): (t: Totals)
    requires Distinct(persons) && Distinct(cats)
    ensures t.totalIncome == FlowTotal(data, Income)
    ensures t.totalExpense == FlowTotal(data, Expense)
    ensures |t.incomeByPerson| == |persons|
    ensures forall j :: 0 <= j < |persons| ==>
      t.incomeByPerson[j] == Bucket(persons[j], FlowKeyTotal(data, Income, persons[j]))
    ensures |t.expenseByCategory| == |cats|
    ensures forall j :: 0 <= j < |cats| ==>
      t.expenseByCategory[j] == Bucket(cats[j], FlowKeyTotal(data, Expense, cats[j]))
  {
    var income, expense := ZeroBuckets(persons), ZeroBuckets(cats);
    assert DistinctNames(income) && DistinctNames(expense);
    var r := TallyRows(Tally(0, income), Tally(0, expense), data);
    Totals(r.0.total, r.1.total, r.0.buckets, r.1.buckets)
  }

  /** The `totals` memo. Every entry adds to its lifetime total; a bucket
      exists for each enumerated name, in enumeration order, and collects
      exactly the amounts recorded under that name. */
  function ComputeTotals(data: seq<Record>): (t: Totals)
    ensures t.totalIncome == FlowTotal(data, Income)
    ensures t.totalExpense == FlowTotal(data, Expense)
    ensures |t.incomeByPerson| == |Contributors|
    ensures forall j :: 0 <= j < |Contributors| ==>
      t.incomeByPerson[j] == Bucket(Contributors[j], FlowKeyTotal(data, Income, Contributors[j]))
    ensures |t.expenseByCategory| == |ExpenseCategories|
    ensures forall j :: 0 <= j < |ExpenseCategories| ==>
      t.expenseByCategory[j] == Bucket(ExpenseCategories[j], FlowKeyTotal(data, Expense, ExpenseCategories[j]))
  {
    EnumerationsDistinct();
    TotalsFor(data, Contributors, ExpenseCategories)
  }

  function BucketSum(buckets: seq<Bucket>): int {
    if |buckets| == 0 then 0 else buckets[0].value + BucketSum(buckets[1..])
  }

  function FlowListed(data: seq<Record>, flow: Flow, names: seq<string>): int {
    if |names| == 0 then 0 else FlowKeyTotal(data, flow, names[0]) + FlowListed(data, flow, names[1..])
  }

  lemma {:induction false} BucketSumIsListed(buckets: seq<Bucket>, data: seq<Record>, flow: Flow, names: seq<string>)
    requires |buckets| == |names|
    requires forall j :: 0 <= j < |names| ==> buckets[j].value == FlowKeyTotal(data, flow, names[j])
    ensures BucketSum(buckets) == FlowListed(data, flow, names)
    decreases |names|
  {
    if |names| > 0 {
      BucketSumIsListed(buckets[1..], data, flow, names[1..]);
    }
  }

  lemma {:induction false} FlowListedEmpty(data: seq<Record>, flow: Flow, names: seq<string>)
    requires |data| == 0
    ensures FlowListed(data, flow, names) == 0
    decreases |names|
  {
    if |names| > 0 {
      FlowListedEmpty(data, flow, names[1..]);
    }
  }

  lemma {:induction false} FlowListedStep(data: seq<Record>, flow: Flow, names: seq<string>)
    requires 0 < |data|
    ensures FlowListed(data, flow, names)
         == ListedTotal(AmountsOf(data[0], flow), names) + FlowListed(data[1..], flow, names)
    decreases |names|
  {
    if |names| > 0 {
      FlowListedStep(data, flow, names[1..]);
    }
  }

  lemma {:induction false} FlowTotalSplits(data: seq<Record>, flow: Flow, names: seq<string>)
    requires Distinct(names)
    ensures FlowTotal(data, flow) == FlowListed(data, flow, names) + FlowUnlisted(data, flow, names)
    decreases |data|
  {
    if |data| == 0 {
      FlowListedEmpty(data, flow, names);
    } else {
      FlowTotalSplits(data[1..], flow, names);
      FlowListedStep(data, flow, names);
      TotalSplits(AmountsOf(data[0], flow), names);
    }
  }

  /** One flow's buckets, each holding its name's lifetime amount, miss
      exactly what is filed under other names. */
  lemma BucketsSplit(buckets: seq<Bucket>, data: seq<Record>, flow: Flow, names: seq<string>)
    requires Distinct(names) && |buckets| == |names|
    requires forall j :: 0 <= j < |names| ==> buckets[j].value == FlowKeyTotal(data, flow, names[j])
    ensures FlowTotal(data, flow) == BucketSum(buckets) + FlowUnlisted(data, flow, names)
  {
    BucketSumIsListed(buckets, data, flow, names);
    FlowTotalSplits(data, flow, names);
  }

  lemma MissOnlyUnlistedFor(data: seq<Record>, persons: seq<string>, cats: seq<string>)
    requires Distinct(persons) && Distinct(cats)
    ensures var t := TotalsFor(data, persons, cats);
      && t.totalIncome == BucketSum(t.incomeByPerson) + FlowUnlisted(data, Income, persons)
      && t.totalExpense == BucketSum(t.expenseByCategory) + FlowUnlisted(data, Expense, cats)
  {
    var t := TotalsFor(data, persons, cats);
    BucketsSplit(t.incomeByPerson, data, Income, persons);
    BucketsSplit(t.expenseByCategory, data, Expense, cats);
  }

  /** The buckets miss exactly the amounts filed under names outside the
      enumeration: the lifetime total is the bucket sum plus those. */
  lemma BucketsMissOnlyUnlisted(data: seq<Record>)
    ensures var t := ComputeTotals(data);
      && t.totalIncome == BucketSum(t.incomeByPerson) + FlowUnlisted(data, Income, Contributors)
      && t.totalExpense == BucketSum(t.expenseByCategory) + FlowUnlisted(data, Expense, ExpenseCategories)
  {
    EnumerationsDistinct();
    MissOnlyUnlistedFor(data, Contributors, ExpenseCategories);
  }

  lemma {:induction false} NothingUnlisted(data: seq<Record>, flow: Flow, names: seq<string>)
    requires OnlyListedKeys(data, flow, names)
    ensures FlowUnlisted(data, flow, names) == 0
    decreases |data|
  {
    if |data| > 0 {
      var a := AmountsOf(data[0], flow);
      UnlistedNone(a, names);
      assert OnlyListedKeys(data[1..], flow, names) by {
        forall i, j | 0 <= i < |data[1..]| && 0 <= j < |AmountsOf(data[1..][i], flow)|
          ensures AmountsOf(data[1..][i], flow)[j].key in names
        {
          assert data[1..][i] == data[i + 1];
        }
      }
      NothingUnlisted(data[1..], flow, names);
    }
  }

  lemma {:induction false} UnlistedNone(a: Amounts, names: seq<string>)
    requires forall j :: 0 <= j < |a| ==> a[j].key in names
    ensures UnlistedTotal(a, names) == 0
    decreases |a|
  {
    if |a| > 0 {
      assert forall j :: 0 <= j < |a[1..]| ==> a[1..][j].key in names by {
        forall j | 0 <= j < |a[1..]| ensures a[1..][j].key in names {
          assert a[1..][j] == a[j + 1];
        }
      }
      UnlistedNone(a[1..], names);
    }
  }

  /** When every contributor key is one of the enumerated names, the
      buckets add up to the lifetime income; likewise for expenses. */
  lemma BucketsCoverKnownKeys(data: seq<Record>)
    requires OnlyListedKeys(data, Income, Contributors)
    requires OnlyListedKeys(data, Expense, ExpenseCategories)
    ensures BucketSum(ComputeTotals(data).incomeByPerson) == ComputeTotals(data).totalIncome
    ensures BucketSum(ComputeTotals(data).expenseByCategory) == ComputeTotals(data).totalExpense
  {
    EnumerationsDistinct();
    CoverFor(data, Contributors, ExpenseCategories);
  }

  lemma CoverFor(data: seq<Record>, persons: seq<string>, cats: seq<string>)
    requires Distinct(persons) && Distinct(cats)
    requires OnlyListedKeys(data, Income, persons) && OnlyListedKeys(data, Expense, cats)
    ensures var t := TotalsFor(data, persons, cats);
      BucketSum(t.incomeByPerson) == t.totalIncome && BucketSum(t.expenseByCategory) == t.totalExpense
  {
    MissOnlyUnlistedFor(data, persons, cats);
    NothingUnlisted(data, Income, persons);
    NothingUnlisted(data, Expense, cats);
  }

  /** A single income under a name outside `names` is all unlisted. */
  lemma SingleUnlistedIncome(data: seq<Record>, name: string, amount: int, names: seq<string>)
    requires data == [Record(Num(1), "2024-01", [Entry(name, amount)], [])]
    requires name !in names
    ensures FlowTotal(data, Income) == amount && FlowUnlisted(data, Income, names) == amount
  {
    var a := [Entry(name, amount)];
    assert data[1..] == [] && a[1..] == [];
    assert AmountsOf(data[0], Income) == a;
    assert Total(a) == amount;
    assert UnlistedTotal(a, names) == amount;
  }

  /** An income filed under a name outside the enumeration counts in the
      lifetime total but in no bucket. */
  lemma UnknownContributorEscapesBuckets()
    ensures var data := [Record(Num(1), "2024-01", [Entry("Grandma", 100)], [])];
      var t := ComputeTotals(data);
      t.totalIncome == 100 && BucketSum(t.incomeByPerson) == 0
  {
    var data := [Record(Num(1), "2024-01", [Entry("Grandma", 100)], [])];
    assert "Grandma" !in Contributors;
    SingleUnlistedIncome(data, "Grandma", 100, Contributors);
    BucketsMissOnlyUnlisted(data);
  }

  // ----- cumulativeData memo -----

  /** A month's income sum minus its expense sum. */
  function Net(r: Record): int {
    Total(r.incomes) - Total(r.expenses)
  }

  datatype BalancePoint = BalancePoint(month: string, balance: int)

  function PointMonth(p: BalancePoint): string {
    p.month
  }

  /** The running total after `k` points: 0 before the first. */
  function BalanceAfter(points: seq<BalancePoint>, k: nat): int
    requires k <= |points|
  {
    if k == 0 then 0 else points[k - 1].balance
  }

  /** `rows.map(...)` with `runningTotal` starting at `start`. */
  function Running(rows: seq<Record>, start: int): (r: seq<BalancePoint>)
    ensures |r| == |rows|
    ensures forall i :: 0 <= i < |rows| ==> r[i].month == rows[i].month
    ensures forall i :: 0 <= i < |rows| ==>
      r[i].balance == (if i == 0 then start else r[i - 1].balance) + Net(rows[i])
    ensures 0 < |rows| ==> r[|r| - 1].balance == start + SumBy(rows, Net)
  {
    if |rows| == 0 then []
    else
      var b := start + Net(rows[0]);
      [BalancePoint(rows[0].month, b)] + Running(rows[1..], b)
  }

  /** The `cumulativeData` memo: one point per record in ascending month
      order, each balance the previous one plus that month's net. */
  function CumulativeBalance(data: seq<Record>): (r: seq<BalancePoint>)
    ensures |r| == |data|
    ensures Sorted(r, PointMonth, Ascending)
    ensures var rows := SortBy(data, MonthOf, Ascending);
      forall i :: 0 <= i < |r| ==>
        r[i].month == rows[i].month && r[i].balance == BalanceAfter(r, i) + Net(rows[i])
  {
    var rows := SortBy(data, MonthOf, Ascending);
    var r := Running(rows, 0);
    assert forall i :: 0 <= i < |r| ==> PointMonth(r[i]) == MonthOf(rows[i]);
    r
  }

  lemma {:induction false} NetSumIsFlowDifference(data: seq<Record>)
    ensures SumBy(data, Net) == FlowTotal(data, Income) - FlowTotal(data, Expense)
    decreases |data|
  {
    if |data| > 0 {
      NetSumIsFlowDifference(data[1..]);
    }
  }

  /** The last balance is lifetime income minus lifetime expense, whether
      or not months repeat. */
  lemma FinalBalanceIsNetTotal(data: seq<Record>)
    requires 0 < |data|
    ensures var r := CumulativeBalance(data);
      r[|r| - 1].balance == ComputeTotals(data).totalIncome - ComputeTotals(data).totalExpense
  {
    var rows := SortBy(data, MonthOf, Ascending);
    SumByPermutation(rows, data, Net);
    NetSumIsFlowDifference(data);
  }

  /** Reading the points in order, the balance never falls below an
      earlier one, counting the 0 the series starts from. */
  predicate NeverFalls(points: seq<BalancePoint>) {
    forall i, j :: 0 <= i <= j <= |points| ==> BalanceAfter(points, i) <= BalanceAfter(points, j)
  }

  lemma {:induction false} StepsGiveNeverFalls(points: seq<BalancePoint>, j: nat)
    requires forall k :: 0 <= k < |points| ==> BalanceAfter(points, k) <= points[k].balance
    requires j <= |points|
    ensures forall i :: 0 <= i <= j ==> BalanceAfter(points, i) <= BalanceAfter(points, j)
    decreases j
  {
    if j > 0 {
      StepsGiveNeverFalls(points, j - 1);
    }
  }

  /** With no losing row, every point is at least the one before it. */
  lemma NoLosingStep(p: seq<BalancePoint>, rows: seq<Record>)
    requires |p| == |rows|
    requires forall i :: 0 <= i < |p| ==> p[i].balance == BalanceAfter(p, i) + Net(rows[i])
    requires forall r :: r in rows ==> Net(r) >= 0
    ensures forall k :: 0 <= k < |p| ==> BalanceAfter(p, k) <= p[k].balance
  {
    forall k | 0 <= k < |p| ensures BalanceAfter(p, k) <= p[k].balance {
      assert rows[k] in rows;
    }
  }

  lemma NoLosingMonthNeverFalls(data: seq<Record>)
    requires forall r :: r in data ==> Net(r) >= 0
    ensures NeverFalls(CumulativeBalance(data))
  {
    var rows := SortBy(data, MonthOf, Ascending);
    var p := CumulativeBalance(data);
    SortBySameElements(data, MonthOf, Ascending);
    NoLosingStep(p, rows);
    forall j | 0 <= j <= |p|
      ensures forall i :: 0 <= i <= j ==> BalanceAfter(p, i) <= BalanceAfter(p, j)
    {
      StepsGiveNeverFalls(p, j);
    }
  }

  lemma NeverFallsNoLosingMonth(data: seq<Record>)
    requires NeverFalls(CumulativeBalance(data))
    ensures forall r :: r in data ==> Net(r) >= 0
  {
    var rows := SortBy(data, MonthOf, Ascending);
    var p := CumulativeBalance(data);
    SortBySameElements(data, MonthOf, Ascending);
    forall r | r in data ensures Net(r) >= 0 {
      var k :| 0 <= k < |rows| && rows[k] == r;
      assert BalanceAfter(p, k) <= BalanceAfter(p, k + 1);
    }
  }

  /** The balance series never falls exactly when no month spends more
      than it earns. */
  lemma NeverFallsIffNoLosingMonth(data: seq<Record>)
    ensures NeverFalls(CumulativeBalance(data))
        <==> forall r :: r in data ==> Net(r) >= 0
  {
    if forall r :: r in data ==> Net(r) >= 0 {
      NoLosingMonthNeverFalls(data);
    }
    if NeverFalls(CumulativeBalance(data)) {
      NeverFallsNoLosingMonth(data);
    }
  }

  // ----- trendData memo -----

  datatype TrendPoint = TrendPoint(month: string, income: int, expense: int)

  /** One row's own income and expense sums, with no accumulation. */
  function TrendOf(r: Record): TrendPoint {
    TrendPoint(r.month, Total(r.incomes), Total(r.expenses))
  }

  function TrendMonth(p: TrendPoint): string {
    p.month
  }

  /** The `trendData` memo: ascending by month, as a collection exactly
      each record's own point, and, within one month, the records' own
      order. */
  function Trend(data: seq<Record>): (r: seq<TrendPoint>)
    ensures |r| == |data|
    ensures Sorted(r, TrendMonth, Ascending)
    ensures multiset(r) == multiset(MapSeq(data, TrendOf))
    ensures forall m :: WithKey(r, TrendMonth, m) == MapSeq(WithKey(data, MonthOf, m), TrendOf)
  {
    var rows := SortBy(data, MonthOf, Ascending);
    var r := MapSeq(rows, TrendOf);
    assert forall i :: 0 <= i < |r| ==> TrendMonth(r[i]) == MonthOf(rows[i]);
    MapSeqPermutation(rows, data, TrendOf);
    forall m ensures WithKey(r, TrendMonth, m) == MapSeq(WithKey(data, MonthOf, m), TrendOf) {
      TrendWithKey(rows, m);
    }
    r
  }

  /** Picking one month's points is picking that month's records. */
  lemma {:induction false} TrendWithKey(rows: seq<Record>, m: string)
    ensures WithKey(MapSeq(rows, TrendOf), TrendMonth, m) == MapSeq(WithKey(rows, MonthOf, m), TrendOf)
    decreases |rows|
  {
    if |rows| > 0 {
      var ps := MapSeq(rows, TrendOf);
      assert ps[1..] == MapSeq(rows[1..], TrendOf);
      TrendWithKey(rows[1..], m);
      var w := WithKey(rows[1..], MonthOf, m);
      if rows[0].month == m {
        var x := [rows[0]] + w;
        assert x[1..] == w;
        assert MapSeq(x, TrendOf) == [TrendOf(rows[0])] + MapSeq(w, TrendOf);
      }
    }
  }

  /** The two line charts agree: each cumulative balance step is the
      trend's income minus expense for the same month. */
  lemma CumulativeFollowsTrend(data: seq<Record>)
    ensures var c := CumulativeBalance(data);
      var t := Trend(data);
      |c| == |t| &&
      forall i :: 0 <= i < |c| ==>
        c[i].month == t[i].month && c[i].balance == BalanceAfter(c, i) + t[i].income - t[i].expense
  {
  }

  // ----- selectedMonth and monthlyExpenses -----

  /** `data.find(d => d.month === month)`. */
  function FindMonth(data: seq<Record>, month: string): (r: Option<Record>)
    ensures r.None? <==> forall i :: 0 <= i < |data| ==> data[i].month != month
    ensures r.Some? ==> exists i :: (0 <= i < |data| && data[i] == r.value && data[i].month == month
      && forall k :: 0 <= k < i ==> data[k].month != month)
  {
    if |data| == 0 then None
    else if data[0].month == month then Some(data[0])
    else
      var r := FindMonth(data[1..], month);
      assert r.Some? ==> exists i :: (0 <= i < |data| && data[i] == r.value && data[i].month == month
          && forall k :: 0 <= k < i ==> data[k].month != month) by {
        if r.Some? {
          var i :| 0 <= i < |data[1..]| && data[1..][i] == r.value && data[1..][i].month == month
            && forall k :: 0 <= k < i ==> data[1..][k].month != month;
          assert data[i + 1] == r.value;
          forall k | 0 <= k < i + 1 ensures data[k].month != month {
            if k > 0 {
              assert data[k] == data[1..][k - 1];
            }
          }
        }
      }
      r
  }

  /** The month the breakdown shows once the effect has run: the chosen
      one if some record has it, otherwise the latest month on record. */
  function EffectiveMonth(data: seq<Record>, selected: string): (m: string)
    ensures 0 < |data| ==> exists i :: 0 <= i < |data| && data[i].month == m
    ensures 0 < |data| && selected != "" && FindMonth(data, selected).Some? ==> m == selected
    ensures (selected == "" || FindMonth(data, selected).None?) && 0 < |data| ==>
      forall i :: 0 <= i < |data| ==> LexLe(data[i].month, m)
  {
    if (selected == "" || FindMonth(data, selected).None?) && 0 < |data| then
      var sorted := SortBy(data, MonthOf, Descending);
      LatestFirst(data, sorted);
      sorted[0].month
    else selected
  }

  lemma LatestFirst(data: seq<Record>, sorted: seq<Record>)
    requires 0 < |data| && sorted == SortBy(data, MonthOf, Descending)
    ensures exists i :: 0 <= i < |data| && data[i].month == sorted[0].month
    ensures forall i :: 0 <= i < |data| ==> LexLe(data[i].month, sorted[0].month)
  {
    assert sorted[0] in multiset(data);
    forall i | 0 <= i < |data| ensures LexLe(data[i].month, sorted[0].month) {
      assert data[i] in multiset(sorted);
      var k :| 0 <= k < |sorted| && sorted[k] == data[i];
      if k > 0 {
        assert Precedes(Descending, MonthOf(sorted[0]), MonthOf(sorted[k]));
      } else {
        LexLeTotal(data[i].month, data[i].month);
      }
    }
  }

  /** The expense categories of one record, missing ones as 0. */
  function CategoryValues(r: Record, cats: seq<string>): (b: seq<Bucket>)
    ensures |b| == |cats|
    ensures forall j :: 0 <= j < |cats| ==> b[j] == Bucket(cats[j], AmountOr0(r.expenses, cats[j]))
  {
    if |cats| == 0 then [] else [Bucket(cats[0], AmountOr0(r.expenses, cats[0]))] + CategoryValues(r, cats[1..])
  }

  /** The `monthlyExpenses` memo: empty when no record has the month,
      otherwise one entry per category, in enumeration order, valued from
      the first record with that month. */
  function MonthlyBreakdown(data: seq<Record>, month: string): (b: seq<Bucket>)
    ensures b == [] <==> forall i :: 0 <= i < |data| ==> data[i].month != month
    ensures b != [] ==> |b| == |ExpenseCategories|
    ensures b != [] ==> exists i :: (0 <= i < |data| && data[i].month == month
      && (forall k :: 0 <= k < i ==> data[k].month != month)
      && forall j :: 0 <= j < |b| ==> b[j] == Bucket(ExpenseCategories[j], AmountOr0(data[i].expenses, ExpenseCategories[j])))
  {
    match FindMonth(data, month)
    case None => []
    case Some(r) => CategoryValues(r, ExpenseCategories)
  }

  /** Once there is any record, the breakdown chart has something to show. */
  lemma BreakdownShownWhenData(data: seq<Record>, selected: string)
    requires 0 < |data|
    ensures MonthlyBreakdown(data, EffectiveMonth(data, selected)) != []
  {
  }
}
