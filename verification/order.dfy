/** Month ordering and the stable sort the dashboard, the editor and the
    export use. Month keys are compared with `localeCompare`, modelled
    here as plain lexicographic order on character codes, which agrees
    with it on zero-padded `YYYY-MM` keys. */
module Order {

  /** `a` sorts no later than `b`. */
  predicate LexLe(a: string, b: string)
    decreases |a|
  {
    if |a| == 0 then true
    else if |b| == 0 then false
    else if a[0] != b[0] then a[0] < b[0]
    else LexLe(a[1..], b[1..])
  }

  lemma {:induction false} LexLeTotal(a: string, b: string)
    ensures LexLe(a, b) || LexLe(b, a)
    decreases |a|
  {
    if |a| > 0 && |b| > 0 && a[0] == b[0] {
      LexLeTotal(a[1..], b[1..]);
    }
  }

  lemma {:induction false} LexLeTransitive(a: string, b: string, c: string)
    requires LexLe(a, b) && LexLe(b, c)
    ensures LexLe(a, c)
    decreases |a|
  {
    if |a| > 0 && |b| > 0 && |c| > 0 && a[0] == b[0] && b[0] == c[0] {
      LexLeTransitive(a[1..], b[1..], c[1..]);
    }
  }

  lemma {:induction false} LexLeAntisymmetric(a: string, b: string)
    requires LexLe(a, b) && LexLe(b, a)
    ensures a == b
    decreases |a|
  {
    if |a| > 0 && |b| > 0 {
      LexLeAntisymmetric(a[1..], b[1..]);
      assert a == [a[0]] + a[1..] && b == [b[0]] + b[1..];
    }
  }

  /** `(a, b) => a.month.localeCompare(b.month)` sorts ascending;
      `(a, b) => b.month.localeCompare(a.month)` sorts descending. */
  datatype Direction = Ascending | Descending

  /** Month `a` may stand before month `b` in `dir` order. */
  predicate Precedes(dir: Direction, a: string, b: string) {
    match dir
    case Ascending => LexLe(a, b)
    case Descending => LexLe(b, a)
  }

  /** The comparator returns a negative number: `a` must stand first. */
  predicate StrictlyPrecedes(dir: Direction, a: string, b: string) {
    !Precedes(dir, b, a)
  }

  lemma PrecedesTotal(dir: Direction, a: string, b: string)
    ensures Precedes(dir, a, b) || Precedes(dir, b, a)
  {
    LexLeTotal(a, b);
  }

  lemma PrecedesTransitive(dir: Direction, a: string, b: string, c: string)
    requires Precedes(dir, a, b) && Precedes(dir, b, c)
    ensures Precedes(dir, a, c)
  {
    if dir == Ascending {
      LexLeTransitive(a, b, c);
    } else {
      LexLeTransitive(c, b, a);
    }
  }

  predicate Sorted<T>(s: seq<T>, key: T -> string, dir: Direction) {
    forall i, j :: 0 <= i < j < |s| ==> Precedes(dir, key(s[i]), key(s[j]))
  }

  /** The elements of `s` whose key is `m`, in their order in `s`. */
  function WithKey<T>(s: seq<T>, key: T -> string, m: string): seq<T>
    decreases |s|
  {
    if |s| == 0 then []
    else (if key(s[0]) == m then [s[0]] else []) + WithKey(s[1..], key, m)
  }

  lemma {:induction false} WithKeyAppend<T>(a: seq<T>, b: seq<T>, key: T -> string, m: string)
    ensures WithKey(a + b, key, m) == WithKey(a, key, m) + WithKey(b, key, m)
    decreases |a|
  {
    if |a| > 0 {
      assert (a + b)[1..] == a[1..] + b;
      WithKeyAppend(a[1..], b, key, m);
    } else {
      assert a + b == b;
    }
  }

  /** Places `x` after every element that does not sort strictly after
      it, which is what keeps the sort stable. */
  function Insert<T>(x: T, s: seq<T>, key: T -> string, dir: Direction): seq<T>
    decreases |s|
  {
    if |s| == 0 then [x]
    else if StrictlyPrecedes(dir, key(x), key(s[0])) then [x] + s
    else [s[0]] + Insert(x, s[1..], key, dir)
  }

  lemma {:induction false} InsertMultiset<T>(x: T, s: seq<T>, key: T -> string, dir: Direction)
    ensures multiset(Insert(x, s, key, dir)) == multiset(s) + multiset{x}
    decreases |s|
  {
    if |s| > 0 && !StrictlyPrecedes(dir, key(x), key(s[0])) {
      InsertMultiset(x, s[1..], key, dir);
      assert s == [s[0]] + s[1..];
    }
  }

  lemma SortedCons<T>(h: T, t: seq<T>, key: T -> string, dir: Direction)
    requires Sorted(t, key, dir)
    requires forall e :: e in t ==> Precedes(dir, key(h), key(e))
    ensures Sorted([h] + t, key, dir)
  {
    var r := [h] + t;
    forall i, j | 0 <= i < j < |r|
      ensures Precedes(dir, key(r[i]), key(r[j]))
    {
      assert r[j] == t[j - 1];
      if i > 0 {
        assert r[i] == t[i - 1];
      }
    }
  }

  lemma {:induction false} InsertSorted<T>(x: T, s: seq<T>, key: T -> string, dir: Direction)
    requires Sorted(s, key, dir)
    ensures Sorted(Insert(x, s, key, dir), key, dir)
    decreases |s|
  {
    if |s| == 0 {
    } else if StrictlyPrecedes(dir, key(x), key(s[0])) {
      PrecedesTotal(dir, key(x), key(s[0]));
      forall e | e in s
        ensures Precedes(dir, key(x), key(e))
      {
        var j :| 0 <= j < |s| && s[j] == e;
        if j > 0 {
          PrecedesTransitive(dir, key(x), key(s[0]), key(e));
        }
      }
      SortedCons(x, s, key, dir);
    } else {
      var t := s[1..];
      SortedTail(s, key, dir);
      InsertSorted(x, t, key, dir);
      var rest := Insert(x, t, key, dir);
      InsertMultiset(x, t, key, dir);
      forall e | e in rest
        ensures Precedes(dir, key(s[0]), key(e))
      {
        assert e in multiset(rest);
        if e != x {
          assert e in multiset(t);
          var k :| 0 <= k < |t| && t[k] == e;
          assert s[k + 1] == e;
        }
      }
      SortedCons(s[0], rest, key, dir);
    }
  }

  lemma {:induction false} NoKey<T>(s: seq<T>, key: T -> string, m: string)
    requires forall e :: e in s ==> key(e) != m
    ensures WithKey(s, key, m) == []
    decreases |s|
  {
    if |s| > 0 {
      assert s[0] in s;
      NoKey(s[1..], key, m);
    }
  }

  lemma SortedTail<T>(s: seq<T>, key: T -> string, dir: Direction)
    requires Sorted(s, key, dir) && 0 < |s|
    ensures Sorted(s[1..], key, dir)
  {
    var t := s[1..];
    forall i, j | 0 <= i < j < |t|
      ensures Precedes(dir, key(t[i]), key(t[j]))
    {
      assert t[i] == s[i + 1] && t[j] == s[j + 1];
    }
  }

  /** When `x` sorts strictly before the head of a sorted `s`, no element
      of `s` shares its key. */
  lemma FrontKeyUnique<T>(x: T, s: seq<T>, key: T -> string, dir: Direction)
    requires Sorted(s, key, dir) && 0 < |s|
    requires StrictlyPrecedes(dir, key(x), key(s[0]))
    ensures WithKey(s, key, key(x)) == []
  {
    PrecedesTotal(dir, key(x), key(s[0]));
    forall e | e in s
      ensures key(e) != key(x)
    {
      var j :| 0 <= j < |s| && s[j] == e;
      if j > 0 {
        assert Precedes(dir, key(s[0]), key(e));
      }
    }
    NoKey(s, key, key(x));
  }

  lemma WithKeyCons<T>(h: T, t: seq<T>, key: T -> string, m: string)
    ensures WithKey([h] + t, key, m) == (if key(h) == m then [h] else []) + WithKey(t, key, m)
  {
    assert ([h] + t)[1..] == t;
  }

  /** `x` goes in front: no element of `s` shares its key. */
  lemma InsertFrontWithKey<T>(x: T, s: seq<T>, key: T -> string, dir: Direction, m: string)
    requires Sorted(s, key, dir) && 0 < |s|
    requires StrictlyPrecedes(dir, key(x), key(s[0]))
    ensures WithKey([x] + s, key, m) == WithKey(s, key, m) + (if key(x) == m then [x] else [])
  {
    WithKeyCons(x, s, key, m);
    if key(x) == m {
      FrontKeyUnique(x, s, key, dir);
      assert WithKey(s, key, m) == [];
    } else {
      assert WithKey([x] + s, key, m) == WithKey(s, key, m);
    }
  }

  /** Keeping the head in front keeps the key runs' relation. */
  lemma InsertBehindWithKey<T>(h: T, t: seq<T>, rest: seq<T>, key: T -> string, m: string, tail: seq<T>)
    requires WithKey(rest, key, m) == WithKey(t, key, m) + tail
    ensures WithKey([h] + rest, key, m) == WithKey([h] + t, key, m) + tail
  {
    var c := if key(h) == m then [h] else [];
    WithKeyCons(h, rest, key, m);
    WithKeyCons(h, t, key, m);
    assert c + (WithKey(t, key, m) + tail) == (c + WithKey(t, key, m)) + tail;
  }

  /** Inserting `x` appends it to the run of elements sharing its key and
      leaves every other run alone. */
  lemma {:induction false} InsertWithKey<T>(x: T, s: seq<T>, key: T -> string, dir: Direction, m: string)
    requires Sorted(s, key, dir)
    ensures WithKey(Insert(x, s, key, dir), key, m)
         == WithKey(s, key, m) + (if key(x) == m then [x] else [])
    decreases |s|
  {
    if |s| == 0 {
      assert Insert(x, s, key, dir) == [x];
      WithKeyCons(x, s, key, m);
    } else if StrictlyPrecedes(dir, key(x), key(s[0])) {
      assert Insert(x, s, key, dir) == [x] + s;
      InsertFrontWithKey(x, s, key, dir, m);
    } else {
      var rest := Insert(x, s[1..], key, dir);
      assert Insert(x, s, key, dir) == [s[0]] + rest;
      SortedTail(s, key, dir);
      InsertWithKey(x, s[1..], key, dir, m);
      InsertBehindWithKey(s[0], s[1..], rest, key, m, if key(x) == m then [x] else []);
      assert s == [s[0]] + s[1..];
    }
  }

  /** `[...s].sort(comparator)`: JavaScript's `Array.prototype.sort` is
      stable, so the result is the one ordering of `s` that is sorted and
      keeps elements with equal keys in their original order. */
  function SortBy<T>(s: seq<T>, key: T -> string, dir: Direction): (r: seq<T>)
    ensures Sorted(r, key, dir)
    ensures multiset(r) == multiset(s)
    ensures |r| == |s|
    ensures forall m :: WithKey(r, key, m) == WithKey(s, key, m)
    decreases |s|
  {
    if |s| == 0 then []
    else
      var front := s[..|s| - 1];
      var last := s[|s| - 1];
      var sortedFront := SortBy(front, key, dir);
      InsertStep(s, sortedFront, key, dir);
      Insert(last, sortedFront, key, dir)
  }

  /** One step of the sort: inserting the next element into a stable
      sort of the elements before it gives a stable sort of both. */
  lemma InsertStep<T>(s: seq<T>, sortedFront: seq<T>, key: T -> string, dir: Direction)
    requires 0 < |s|
    requires Sorted(sortedFront, key, dir)
    requires multiset(sortedFront) == multiset(s[..|s| - 1])
    requires forall m :: WithKey(sortedFront, key, m) == WithKey(s[..|s| - 1], key, m)
    ensures var r := Insert(s[|s| - 1], sortedFront, key, dir);
      && Sorted(r, key, dir)
      && multiset(r) == multiset(s)
      && |r| == |s|
      && forall m :: WithKey(r, key, m) == WithKey(s, key, m)
  {
    var front, last := s[..|s| - 1], s[|s| - 1];
    assert s == front + [last];
    var r := Insert(last, sortedFront, key, dir);
    InsertSorted(last, sortedFront, key, dir);
    InsertMultiset(last, sortedFront, key, dir);
    InsertStepKeys(front, last, sortedFront, key, dir);
    assert |r| == |multiset(r)| == |multiset(s)| == |s|;
  }

  lemma InsertStepKeys<T>(front: seq<T>, last: T, sortedFront: seq<T>, key: T -> string, dir: Direction)
    requires Sorted(sortedFront, key, dir)
    requires forall m :: WithKey(sortedFront, key, m) == WithKey(front, key, m)
    ensures forall m :: WithKey(Insert(last, sortedFront, key, dir), key, m) == WithKey(front + [last], key, m)
  {
    forall m ensures WithKey(Insert(last, sortedFront, key, dir), key, m) == WithKey(front + [last], key, m) {
      InsertWithKey(last, sortedFront, key, dir, m);
      WithKeyAppend(front, [last], key, m);
      WithKeyCons(last, [], key, m);
      assert [last] + [] == [last];
    }
  }

  /** Sorting neither adds nor drops an element. */
  lemma SortBySameElements<T>(s: seq<T>, key: T -> string, dir: Direction)
    ensures forall x :: x in SortBy(s, key, dir) <==> x in s
  {
    var r := SortBy(s, key, dir);
    forall x ensures x in r <==> x in s {
      assert x in r <==> x in multiset(r);
      assert x in s <==> x in multiset(s);
    }
  }
}
