/** The drill-down series behind the category chart (src/App.tsx lines
    771-775): every month's value for one expense category, positive
    values only, latest month first. */
module DrillDown {
  import opened Records
  import opened Order

  datatype MonthValue = MonthValue(month: string, value: int)

  function ValueMonth(p: MonthValue): string {
    p.month
  }

  /** `{ month: row.month, value: Number(row.expenses[category]) || 0 }`. */
  function PointOf(r: Record, category: string): MonthValue {
    MonthValue(r.month, AmountOr0(r.expenses, category))
  }

  /** `data.map(...)`: one point per record, in record order. */
  function Points(data: seq<Record>, category: string): (p: seq<MonthValue>)
    ensures |p| == |data|
    ensures forall i :: 0 <= i < |data| ==> p[i] == PointOf(data[i], category)
  {
    if |data| == 0 then [] else [PointOf(data[0], category)] + Points(data[1..], category)
  }

  /** `.filter(item => item.value > 0)`. */
  function Positive(ps: seq<MonthValue>): (r: seq<MonthValue>)
    ensures |r| <= |ps|
    ensures forall p :: p in r <==> p in ps && p.value > 0
    ensures multiset(r) <= multiset(ps)
  {
    if |ps| == 0 then []
    else
      var rest := Positive(ps[1..]);
      assert ps == [ps[0]] + ps[1..];
      if ps[0].value > 0 then [ps[0]] + rest else rest
  }

  /** The filter keeps every positive occurrence, repeats included, and
      no other. */
  lemma {:induction false} PositiveCounts(ps: seq<MonthValue>)
    ensures forall p :: multiset(Positive(ps))[p] == if p.value > 0 then multiset(ps)[p] else 0
    decreases |ps|
  {
    if |ps| > 0 {
      PositiveCounts(ps[1..]);
      assert ps == [ps[0]] + ps[1..];
    }
  }

  /** The number of records whose value for `category` is positive. */
  function PositiveCount(data: seq<Record>, category: string): nat {
    if |data| == 0 then 0
    else (if AmountOr0(data[0].expenses, category) > 0 then 1 else 0) + PositiveCount(data[1..], category)
  }

  lemma {:induction false} PositiveLength(data: seq<Record>, category: string)
    ensures |Positive(Points(data, category))| == PositiveCount(data, category)
    decreases |data|
  {
    if |data| > 0 {
      PositiveLength(data[1..], category);
      assert Points(data, category)[1..] == Points(data[1..], category);
    }
  }

  lemma PointsFromRecords(data: seq<Record>, category: string)
    ensures forall p :: p in Points(data, category) <==>
      exists i :: 0 <= i < |data| && PointOf(data[i], category) == p
  {
    var ps := Points(data, category);
    forall p ensures p in ps <==> exists i :: 0 <= i < |data| && PointOf(data[i], category) == p {
      if p in ps {
        var i :| 0 <= i < |ps| && ps[i] == p;
      }
    }
  }

  /** `handleDrillDown`'s series: only positive values, latest month
      first, and, as a collection, the positive points of the records,
      each drawn from a record of its own. */
  function Breakdown(data: seq<Record>, category: string): (r: seq<MonthValue>)
    ensures forall i :: 0 <= i < |r| ==> r[i].value > 0
    ensures Sorted(r, ValueMonth, Descending)
    ensures |r| == PositiveCount(data, category) <= |data|
    ensures multiset(r) <= multiset(Points(data, category))
    ensures forall p :: p in r <==> p.value > 0 && exists i :: 0 <= i < |data| && PointOf(data[i], category) == p
    ensures forall m :: WithKey(r, ValueMonth, m) == Positive(Points(WithKey(data, MonthOf, m), category))
  {
    var kept := Positive(Points(data, category));
    var r := SortBy(kept, ValueMonth, Descending);
    PositiveLength(data, category);
    BreakdownMembers(data, category, kept, r);
    forall m ensures WithKey(r, ValueMonth, m) == Positive(Points(WithKey(data, MonthOf, m), category)) {
      PositivePointsWithKey(data, category, m);
    }
    r
  }

  /** Picking one month's positive points is taking the positive points
      of that month's records. */
  lemma {:induction false} PositivePointsWithKey(data: seq<Record>, category: string, m: string)
    ensures WithKey(Positive(Points(data, category)), ValueMonth, m)
      == Positive(Points(WithKey(data, MonthOf, m), category))
    decreases |data|
  {
    if |data| > 0 {
      var t := data[1..];
      var d := if data[0].month == m then [data[0]] else [];
      var p := PointOf(data[0], category);
      var h := if p.value > 0 then [p] else [];
      assert data == [data[0]] + t;
      PointsAppend([data[0]], t, category);
      PositiveAppend([p], Points(t, category));
      WithKeyAppend(h, Positive(Points(t, category)), ValueMonth, m);
      PositivePointsWithKey(t, category, m);
      WithKeyCons(data[0], t, MonthOf, m);
      PointsAppend(d, WithKey(t, MonthOf, m), category);
      PositiveAppend(Points(d, category), Points(WithKey(t, MonthOf, m), category));
    }
  }

  lemma {:induction false} PointsAppend(a: seq<Record>, b: seq<Record>, category: string)
    ensures Points(a + b, category) == Points(a, category) + Points(b, category)
  {
  }

  lemma {:induction false} PositiveAppend(a: seq<MonthValue>, b: seq<MonthValue>)
    ensures Positive(a + b) == Positive(a) + Positive(b)
    decreases |a|
  {
    if |a| > 0 {
      assert (a + b)[1..] == a[1..] + b;
      PositiveAppend(a[1..], b);
      var h := if a[0].value > 0 then [a[0]] else [];
      assert Positive(a + b) == h + Positive(a[1..] + b);
      assert Positive(a) == h + Positive(a[1..]);
      assert h + (Positive(a[1..]) + Positive(b)) == (h + Positive(a[1..])) + Positive(b);
    } else {
      assert a + b == b;
    }
  }

  /** What the sorted, filtered series holds: positive points of records. */
  lemma BreakdownMembers(data: seq<Record>, category: string, kept: seq<MonthValue>, r: seq<MonthValue>)
    requires kept == Positive(Points(data, category))
    requires r == SortBy(kept, ValueMonth, Descending)
    ensures forall i :: 0 <= i < |r| ==> r[i].value > 0
    ensures forall p :: p in r <==> p.value > 0 && exists i :: 0 <= i < |data| && PointOf(data[i], category) == p
  {
    var ps := Points(data, category);
    SortBySameElements(kept, ValueMonth, Descending);
    PointsFromRecords(data, category);
    forall p ensures p in r <==> p.value > 0 && exists i :: 0 <= i < |data| && PointOf(data[i], category) == p {
      assert p in r <==> p in kept;
      assert p in kept <==> p in ps && p.value > 0;
    }
    forall i | 0 <= i < |r| ensures r[i].value > 0 {
      assert r[i] in kept;
    }
  }

  lemma {:induction false} NoPositiveValue(data: seq<Record>, category: string)
    requires forall i :: 0 <= i < |data| ==> AmountOr0(data[i].expenses, category) <= 0
    ensures PositiveCount(data, category) == 0
    decreases |data|
  {
    if |data| > 0 {
      assert forall i :: 0 <= i < |data[1..]| ==> AmountOr0(data[1..][i].expenses, category) <= 0 by {
        forall i | 0 <= i < |data[1..]| ensures AmountOr0(data[1..][i].expenses, category) <= 0 {
          assert data[1..][i] == data[i + 1];
        }
      }
      NoPositiveValue(data[1..], category);
    }
  }

  /** A category nothing was ever spent on has an empty drill-down. */
  lemma NothingSpentEmptySeries(data: seq<Record>, category: string)
    requires forall i :: 0 <= i < |data| ==> AmountOr0(data[i].expenses, category) <= 0
    ensures Breakdown(data, category) == []
  {
    NoPositiveValue(data, category);
  }
}
