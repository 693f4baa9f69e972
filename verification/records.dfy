/** The record the whole application revolves around: one month's
    incomes, keyed by contributor, and expenses, keyed by category, as the
    spreadsheet endpoint returns them. */
module Records {
  import opened Wrappers

  /** Record ids are whatever the endpoint sends, or the numeric
      timestamp an optimistic add assigns; JavaScript's `===` never
      equates a number with a string, and neither does this datatype. */
  datatype Id = Num(n: int) | Text(s: string)

  /** One `[key, amount]` pair of `Object.entries` on an incomes or
      expenses object; amounts are exact integers. */
  datatype Entry = Entry(key: string, amount: int)

  /** An incomes or expenses object, as its entries in iteration order. */
  type Amounts = seq<Entry>

  datatype Record = Record(id: Id, month: string, incomes: Amounts, expenses: Amounts)

  /** The fixed enumerations the dashboard and the export are built from
      (src/App.tsx lines 11-12). */
  const Contributors: seq<string> := ["YR", "HJ", "HC", "YH", "MY"]
  const ExpenseCategories: seq<string> := ["Pocket Money", "Health Expense", "Durian Farm", "Others"]

  predicate Distinct(names: seq<string>) {
    forall i, j :: 0 <= i < j < |names| ==> names[i] != names[j]
  }

  lemma EnumerationsDistinct()
    ensures Distinct(Contributors) && Distinct(ExpenseCategories)
  {
  }

  /** A JSON object never holds a key twice. */
  predicate DistinctKeys(a: Amounts) {
    forall i, j :: 0 <= i < j < |a| ==> a[i].key != a[j].key
  }

  function MonthOf(r: Record): string {
    r.month
  }

  datatype Flow = Income | Expense

  function AmountsOf(r: Record, flow: Flow): Amounts {
    match flow
    case Income => r.incomes
    case Expense => r.expenses
  }

  /** `a[k]`: the amount stored under `k`, if any. */
  function Lookup(a: Amounts, k: string): (v: Option<int>)
    ensures v.None? <==> forall i :: 0 <= i < |a| ==> a[i].key != k
    ensures v.Some? ==> exists i :: 0 <= i < |a| && a[i] == Entry(k, v.value)
  {
    if |a| == 0 then None
    else if a[0].key == k then Some(a[0].amount)
    else
      var v := Lookup(a[1..], k);
      assert v.Some? ==> exists i :: 0 <= i < |a| && a[i] == Entry(k, v.value) by {
        if v.Some? {
          var i :| 0 <= i < |a[1..]| && a[1..][i] == Entry(k, v.value);
          assert a[i + 1] == Entry(k, v.value);
        }
      }
      v
  }

  /** `Number(a[k]) || 0` and `a[k] || 0`: a missing amount reads as 0. */
  function AmountOr0(a: Amounts, k: string): int {
    Lookup(a, k).GetOr(0)
  }

  /** `Object.values(a).reduce((x, y) => x + Number(y), 0)`. */
  function Total(a: Amounts): int {
    if |a| == 0 then 0 else a[0].amount + Total(a[1..])
  }

  /** What all the entries keyed `k` add up to. */
  function KeyTotal(a: Amounts, k: string): int {
    if |a| == 0 then 0
    else (if a[0].key == k then a[0].amount else 0) + KeyTotal(a[1..], k)
  }

  /** What the entries whose key is not among `names` add up to. */
  function UnlistedTotal(a: Amounts, names: seq<string>): int {
    if |a| == 0 then 0
    else (if a[0].key !in names then a[0].amount else 0) + UnlistedTotal(a[1..], names)
  }

  /** `KeyTotal(a, names[0]) + ... + KeyTotal(a, names[|names| - 1])`. */
  function ListedTotal(a: Amounts, names: seq<string>): int {
    if |names| == 0 then 0 else KeyTotal(a, names[0]) + ListedTotal(a, names[1..])
  }

  /** In a well-formed object the per-key sum is just the stored value. */
  lemma {:induction false} KeyTotalIsAmount(a: Amounts, k: string)
    requires DistinctKeys(a)
    ensures KeyTotal(a, k) == AmountOr0(a, k)
  {
    if |a| > 0 {
      var t := a[1..];
      assert DistinctKeys(t) by {
        forall i, j | 0 <= i < j < |t| ensures t[i].key != t[j].key {
          assert t[i] == a[i + 1] && t[j] == a[j + 1];
        }
      }
      KeyTotalIsAmount(t, k);
      if a[0].key == k {
        assert forall i :: 0 <= i < |t| ==> t[i].key != k by {
          forall i | 0 <= i < |t| ensures t[i].key != k {
            assert t[i] == a[i + 1];
          }
        }
      }
    }
  }

  lemma {:induction false} ListedTotalStep(e: Entry, a: Amounts, names: seq<string>)
    requires Distinct(names)
    ensures ListedTotal([e] + a, names)
         == ListedTotal(a, names) + (if e.key in names then e.amount else 0)
    decreases |names|
  {
    if |names| > 0 {
      var rest := names[1..];
      assert Distinct(rest) by {
        forall i, j | 0 <= i < j < |rest| ensures rest[i] != rest[j] {
          assert rest[i] == names[i + 1] && rest[j] == names[j + 1];
        }
      }
      ListedTotalStep(e, a, rest);
      assert ([e] + a)[1..] == a;
      assert names == [names[0]] + rest;
      if e.key == names[0] {
        assert e.key !in rest by {
          forall i | 0 <= i < |rest| ensures rest[i] != e.key {
            assert rest[i] == names[i + 1];
          }
        }
      }
    }
  }

  /** Every entry of an object is either under one of `names` or not:
      with distinct names, the object's total splits into the per-name
      totals plus the unlisted rest. */
  lemma {:induction false} TotalSplits(a: Amounts, names: seq<string>)
    requires Distinct(names)
    ensures Total(a) == ListedTotal(a, names) + UnlistedTotal(a, names)
  {
    if |a| > 0 {
      TotalSplits(a[1..], names);
      ListedTotalStep(a[0], a[1..], names);
      assert [a[0]] + a[1..] == a;
    } else {
      ListedTotalEmpty(a, names);
    }
  }

  lemma {:induction false} ListedTotalEmpty(a: Amounts, names: seq<string>)
    requires |a| == 0
    ensures ListedTotal(a, names) == 0
    decreases |names|
  {
    if |names| > 0 {
      ListedTotalEmpty(a, names[1..]);
    }
  }
}
