/** The optimistic add, update and delete handlers (src/App.tsx lines
    704-769) as a pure state machine: `Begin` proposes the new list at
    once, `Finish` settles it on the outcome of the write. The write
    itself and the refetch that follows a success are outside the model;
    their outcome arrives as a parameter. */
module Mutations {
  import opened Records
  import opened Seqs

  /** `Add` carries the editor's new row and the clock reading
      `Date.now()` that becomes its temporary id. */
  datatype Action = Add(newRow: Record, now: int) | Update(updated: Record) | Delete(id: Id)

  /** Whether the POST resolved or threw. */
  datatype Outcome = Succeeded | Failed

  /** The three states of one mutation. `InFlight` holds the list as it
      was, what was asked, and the optimistic list now on screen;
      `Confirmed` keeps the optimistic list until the background refetch
      it started replaces it; `Reverted` is the list after the `catch`. */
  datatype MutationState =
    | InFlight(snapshot: seq<Record>, action: Action, rows: seq<Record>)
    | Confirmed(rows: seq<Record>)
    | Reverted(rows: seq<Record>)

  function IdOf(r: Record): Id {
    r.id
  }

  /** `{ ...newRow, id: tempId }`: the new row under the clock reading as
      its id, every other field as entered. */
  function TempRow(newRow: Record, now: int): (r: Record)
    ensures r.id == Num(now)
    ensures r.(id := newRow.id) == newRow
  {
    newRow.(id := Num(now))
  }

  function CountId(rows: seq<Record>, id: Id): nat {
    if |rows| == 0 then 0 else (if rows[0].id == id then 1 else 0) + CountId(rows[1..], id)
  }

  /** `rows.filter(item => item.id !== id)`: no row left carries `id`,
      and exactly the rows that carried it are gone. */
  function RemoveId(rows: seq<Record>, id: Id): (r: seq<Record>)
    ensures forall i :: 0 <= i < |r| ==> r[i].id != id
    ensures |r| + CountId(rows, id) == |rows|
  {
    if |rows| == 0 then []
    else
      var rest := RemoveId(rows[1..], id);
      if rows[0].id != id then [rows[0]] + rest else rest
  }

  /** The filter keeps exactly the rows with another id. */
  lemma {:induction false} RemoveIdMembers(rows: seq<Record>, id: Id)
    ensures forall x :: x in RemoveId(rows, id) <==> x in rows && x.id != id
    decreases |rows|
  {
    if |rows| > 0 {
      RemoveIdMembers(rows[1..], id);
      assert rows == [rows[0]] + rows[1..];
    }
  }

  /** `rows.map(item => item.id === updated.id ? updated : item)`. */
  function ReplaceId(rows: seq<Record>, updated: Record): (r: seq<Record>)
    ensures |r| == |rows|
    ensures forall i :: 0 <= i < |rows| && rows[i].id != updated.id ==> r[i] == rows[i]
    ensures forall i :: 0 <= i < |rows| && rows[i].id == updated.id ==> r[i] == updated
  {
    if |rows| == 0 then []
    else [if rows[0].id == updated.id then updated else rows[0]] + ReplaceId(rows[1..], updated)
  }

  /** The list the `setData` before the write installs. */
  function Propose(prior: seq<Record>, action: Action): (r: seq<Record>)
    ensures action.Add? ==> r == [TempRow(action.newRow, action.now)] + prior && r[0].id == Num(action.now)
    ensures action.Update? ==> |r| == |prior|
    ensures action.Delete? ==> forall x :: x in r <==> x in prior && x.id != action.id
  {
    match action
    case Add(newRow, now) => [TempRow(newRow, now)] + prior
    case Update(updated) => ReplaceId(prior, updated)
    case Delete(id) => RemoveIdMembers(prior, id); RemoveId(prior, id)
  }

  /** The synchronous half of a handler: snapshot, then propose. */
  function Begin(prior: seq<Record>, action: Action): (p: MutationState)
    ensures p.InFlight? && p.snapshot == prior && p.action == action
    ensures |p.rows| == |prior| + (if action.Add? then 1 else 0) - (if action.Delete? then CountId(prior, action.id) else 0)
  {
    InFlight(prior, action, Propose(prior, action))
  }

  /** The `try`/`catch` half. On success the optimistic list stays; on
      failure an add filters its temporary id out of the list on screen,
      while update and delete put the snapshot back. */
  function Finish(p: MutationState, outcome: Outcome): (s: MutationState)
    requires p.InFlight?
    ensures outcome == Succeeded ==> s == Confirmed(p.rows)
    ensures outcome == Failed ==> s.Reverted?
    ensures outcome == Failed && !p.action.Add? ==> s.rows == p.snapshot
    ensures outcome == Failed && p.action.Add? ==>
      forall x :: x in s.rows <==> x in p.rows && x.id != Num(p.action.now)
  {
    match outcome
    case Succeeded => Confirmed(p.rows)
    case Failed =>
      match p.action
      case Add(_, now) => RemoveIdMembers(p.rows, Num(now)); Reverted(RemoveId(p.rows, Num(now)))
      case _ => Reverted(p.snapshot)
  }

  /** One whole mutation run sequentially: `(prior, action, outcome) -> state`. */
  function Mutate(prior: seq<Record>, action: Action, outcome: Outcome): (s: MutationState)
    ensures outcome == Succeeded ==> s == Confirmed(Propose(prior, action))
    ensures outcome == Failed && !action.Add? ==> s == Reverted(prior)
    ensures outcome == Failed && action.Add? ==> s == Reverted(RemoveId(prior, Num(action.now)))
  {
    var p := Begin(prior, action);
    assert action.Add? ==> p.rows[1..] == prior;
    Finish(p, outcome)
  }

  predicate HasId(rows: seq<Record>, id: Id) {
    exists i :: 0 <= i < |rows| && rows[i].id == id
  }

  lemma {:induction false} RemoveAbsentId(rows: seq<Record>, id: Id)
    requires !HasId(rows, id)
    ensures RemoveId(rows, id) == rows
    decreases |rows|
  {
    if |rows| > 0 {
      assert !HasId(rows[1..], id) by {
        forall i | 0 <= i < |rows[1..]| ensures rows[1..][i].id != id {
          assert rows[1..][i] == rows[i + 1];
        }
      }
      RemoveAbsentId(rows[1..], id);
      assert rows == [rows[0]] + rows[1..];
    }
  }

  /** A failed add leaves the list exactly as it was if and only if no
      row already carried the temporary id: the revert is a filter, not a
      snapshot, so a clashing row would go too. */
  lemma FailedAddRestoresIff(prior: seq<Record>, newRow: Record, now: int)
    ensures Mutate(prior, Add(newRow, now), Failed).rows == prior <==> !HasId(prior, Num(now))
  {
    var s := Mutate(prior, Add(newRow, now), Failed);
    var p := Begin(prior, Add(newRow, now));
    assert RemoveId(p.rows, Num(now)) == RemoveId(prior, Num(now)) by {
      assert p.rows == [TempRow(newRow, now)] + prior;
      assert p.rows[1..] == prior;
    }
    if !HasId(prior, Num(now)) {
      RemoveAbsentId(prior, Num(now));
    } else {
      var i :| 0 <= i < |prior| && prior[i].id == Num(now);
      assert prior[i] !in s.rows;
      assert prior[i] in prior;
    }
  }

  /** Filtering by id commutes with concatenation, so delete keeps the
      relative order of the rows it keeps. */
  lemma {:induction false} RemoveIdAppend(a: seq<Record>, b: seq<Record>, id: Id)
    ensures RemoveId(a + b, id) == RemoveId(a, id) + RemoveId(b, id)
    decreases |a|
  {
    if |a| == 0 {
      assert a + b == b;
    } else {
      var c := if a[0].id != id then [a[0]] else [];
      assert (a + b)[1..] == a[1..] + b;
      RemoveIdAppend(a[1..], b, id);
      Assoc(c, RemoveId(a[1..], id), RemoveId(b, id));
    }
  }

  lemma Assoc<T>(c: seq<T>, x: seq<T>, y: seq<T>)
    ensures c + (x + y) == (c + x) + y
  {
  }

  /** Deleting twice is deleting once. */
  lemma RemoveIdIdempotent(rows: seq<Record>, id: Id)
    ensures RemoveId(RemoveId(rows, id), id) == RemoveId(rows, id)
  {
    RemoveAbsentId(RemoveId(rows, id), id);
  }

  /** Update never changes which ids the list holds, or where. */
  lemma ReplaceIdKeepsIds(rows: seq<Record>, updated: Record)
    ensures MapSeq(ReplaceId(rows, updated), IdOf) == MapSeq(rows, IdOf)
  {
  }

  /** Updating twice with the same row is updating once. */
  lemma ReplaceIdIdempotent(rows: seq<Record>, updated: Record)
    ensures ReplaceId(ReplaceId(rows, updated), updated) == ReplaceId(rows, updated)
  {
  }

  /** An update whose id no row carries changes nothing. */
  lemma ReplaceAbsentId(rows: seq<Record>, updated: Record)
    requires !HasId(rows, updated.id)
    ensures ReplaceId(rows, updated) == rows
  {
  }

  predicate UniqueIds(rows: seq<Record>) {
    forall i, j :: 0 <= i < j < |rows| ==> rows[i].id != rows[j].id
  }

  /** Each proposal keeps ids unique, an add provided its clock reading is
      not already an id. */
  lemma ProposeKeepsIdsUnique(prior: seq<Record>, action: Action)
    requires UniqueIds(prior)
    requires action.Add? ==> !HasId(prior, Num(action.now))
    ensures UniqueIds(Propose(prior, action))
  {
    var r := Propose(prior, action);
    match action
    case Add(newRow, now) =>
      forall i, j | 0 <= i < j < |r| ensures r[i].id != r[j].id {
        assert r[j] == prior[j - 1];
        if i > 0 {
          assert r[i] == prior[i - 1];
        }
      }
    case Update(updated) =>
      ReplaceIdKeepsIds(prior, updated);
      forall i, j | 0 <= i < j < |r| ensures r[i].id != r[j].id {
        assert MapSeq(r, IdOf)[i] == MapSeq(prior, IdOf)[i];
        assert MapSeq(r, IdOf)[j] == MapSeq(prior, IdOf)[j];
      }
    case Delete(id) =>
      RemoveIdKeepsUnique(prior, id);
  }

  lemma UniqueCons(h: Record, t: seq<Record>)
    ensures UniqueIds([h] + t) <==> UniqueIds(t) && forall x :: x in t ==> x.id != h.id
  {
    var r := [h] + t;
    assert r[1..] == t;
    if UniqueIds(r) {
      forall x | x in t ensures x.id != h.id {
        var k :| 0 <= k < |t| && t[k] == x;
        assert r[0] == h && r[k + 1] == x;
        assert r[0].id != r[k + 1].id;
      }
      forall i, j | 0 <= i < j < |t| ensures t[i].id != t[j].id {
        assert r[i + 1] == t[i] && r[j + 1] == t[j];
      }
    }
    if UniqueIds(t) && forall x :: x in t ==> x.id != h.id {
      forall i, j | 0 <= i < j < |r| ensures r[i].id != r[j].id {
        assert r[j] == t[j - 1] && r[j] in t;
        if i > 0 {
          assert r[i] == t[i - 1];
        }
      }
    }
  }

  lemma {:induction false} RemoveIdKeepsUnique(rows: seq<Record>, id: Id)
    requires UniqueIds(rows)
    ensures UniqueIds(RemoveId(rows, id))
    decreases |rows|
  {
    if |rows| > 0 {
      assert rows == [rows[0]] + rows[1..];
      UniqueCons(rows[0], rows[1..]);
      RemoveIdKeepsUnique(rows[1..], id);
      if rows[0].id != id {
        RemoveIdMembers(rows[1..], id);
        UniqueCons(rows[0], RemoveId(rows[1..], id));
      }
    }
  }
}
