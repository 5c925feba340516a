/** Relational tables as sequences of rows, in physical order, and the few query shapes the
    stores use: `fetch_one` (first matching row), `DELETE`/`UPDATE ... WHERE` (every matching
    row), `ORDER BY ... DESC` and `OFFSET`/`LIMIT`. */
module Tables {
  import opened Common

  /** A statement either runs (`None`) or the database reports a failure whose text becomes
      the private diagnostic (`Some(reason)`): lost connections, constraint checks the model
      does not spell out, and so on. */
  type Fault = Option<string>

  /** The database-reported reason for an insert whose primary key is already taken. */
  const DuplicateKeyReason: string := "duplicate key value violates unique constraint"

  /** A state-changing call: the state afterwards and the call's result. */
  datatype Outcome<S, T> = Outcome(state: S, result: Result<T>)

  /** Index of the first row satisfying `p`; what `fetch_one` reads. */
  function FirstIndex<T>(rows: seq<T>, p: T -> bool): (r: Option<nat>)
    ensures r.Some? ==> r.value < |rows| && p(rows[r.value])
    ensures r.Some? ==> forall j :: 0 <= j < r.value ==> !p(rows[j])
    ensures r.None? ==> forall j :: 0 <= j < |rows| ==> !p(rows[j])
    decreases |rows|
  {
    if |rows| == 0 then None
    else if p(rows[0]) then Some(0)
    else match FirstIndex(rows[1..], p)
      case None => None
      case Some(k) => Some(k + 1)
  }

  /** A row satisfying `p` with none before it is the one `FirstIndex` finds. */
  lemma FirstIndexAt<T>(rows: seq<T>, p: T -> bool, i: nat)
    requires i < |rows| && p(rows[i])
    requires forall j :: 0 <= j < i ==> !p(rows[j])
    ensures FirstIndex(rows, p) == Some(i)
  {
    var k := FirstIndex(rows, p).value;
    if k < i {
      assert false;
    } else if k > i {
      assert false;
    }
  }

  /** The first row satisfying `p`, if any. */
  function FirstWhere<T>(rows: seq<T>, p: T -> bool): (r: Option<T>)
    ensures r.Some? ==> r.value in rows && p(r.value)
    ensures r.None? <==> forall x :: x in rows ==> !p(x)
  {
    match FirstIndex(rows, p)
    case None => None
    case Some(i) => Some(rows[i])
  }

  /** The rows satisfying `p`, in table order. */
  function Select<T>(rows: seq<T>, p: T -> bool): (r: seq<T>)
    ensures |r| <= |rows|
    ensures forall x :: x in r ==> x in rows && p(x)
    ensures forall x :: x in rows && p(x) ==> x in r
    decreases |rows|
  {
    if |rows| == 0 then []
    else if p(rows[0]) then [rows[0]] + Select(rows[1..], p)
    else Select(rows[1..], p)
  }

  /** `DELETE ... WHERE p`: the rows that survive, in table order. */
  function Remove<T>(rows: seq<T>, p: T -> bool): (r: seq<T>)
    ensures |r| <= |rows|
    ensures forall x :: x in r ==> x in rows && !p(x)
    ensures forall x :: x in rows && !p(x) ==> x in r
    decreases |rows|
  {
    if |rows| == 0 then []
    else if p(rows[0]) then Remove(rows[1..], p)
    else [rows[0]] + Remove(rows[1..], p)
  }

  /** Every row either survives a delete or is counted in its affected rows. */
  lemma {:induction false} RemoveCountsAffected<T>(rows: seq<T>, p: T -> bool)
    ensures |Remove(rows, p)| + |Select(rows, p)| == |rows|
    decreases |rows|
  {
    if |rows| > 0 {
      RemoveCountsAffected(rows[1..], p);
    }
  }

  /** A delete that matches no row leaves the table exactly as it was. */
  lemma {:induction false} RemoveNothing<T>(rows: seq<T>, p: T -> bool)
    requires forall x :: x in rows ==> !p(x)
    ensures Remove(rows, p) == rows
    decreases |rows|
  {
    if |rows| > 0 {
      RemoveNothing(rows[1..], p);
      assert rows == [rows[0]] + rows[1..];
    }
  }

  /** A filter splits the table: the selected rows and the surviving rows together are the
      table's rows, each with its multiplicity. */
  lemma {:induction false} SelectRemovePartition<T>(rows: seq<T>, p: T -> bool)
    ensures multiset(Select(rows, p)) + multiset(Remove(rows, p)) == multiset(rows)
    decreases |rows|
  {
    if |rows| > 0 {
      SelectRemovePartition(rows[1..], p);
      assert rows == [rows[0]] + rows[1..];
    }
  }

  /** `Select` keeps every copy of a matching row and no copy of another; `Remove` the converse. */
  lemma SelectCounts<T>(rows: seq<T>, p: T -> bool, x: T)
    ensures multiset(Select(rows, p))[x] == if p(x) then multiset(rows)[x] else 0
    ensures multiset(Remove(rows, p))[x] == if p(x) then 0 else multiset(rows)[x]
  {
    SelectRemovePartition(rows, p);
    if p(x) {
      assert x !in Remove(rows, p);
    } else {
      assert x !in Select(rows, p);
    }
  }

  /** `Select` acts row by row and keeps table order: selecting from a concatenation
      concatenates the selections of the parts. */
  lemma {:induction false} SelectAppend<T>(a: seq<T>, b: seq<T>, p: T -> bool)
    ensures Select(a + b, p) == Select(a, p) + Select(b, p)
    decreases |a|
  {
    if |a| == 0 {
      assert a + b == b;
    } else {
      var ab := a + b;
      assert ab[0] == a[0] && ab[1..] == a[1..] + b;
      SelectAppend(a[1..], b, p);
      if p(a[0]) {
        calc {
          Select(ab, p);
          [a[0]] + Select(a[1..] + b, p);
          [a[0]] + (Select(a[1..], p) + Select(b, p));
          ([a[0]] + Select(a[1..], p)) + Select(b, p);
        }
      }
    }
  }

  /** `Remove` acts row by row and keeps table order, like `Select`. */
  lemma {:induction false} RemoveAppend<T>(a: seq<T>, b: seq<T>, p: T -> bool)
    ensures Remove(a + b, p) == Remove(a, p) + Remove(b, p)
    decreases |a|
  {
    if |a| == 0 {
      assert a + b == b;
    } else {
      var ab := a + b;
      assert ab[0] == a[0] && ab[1..] == a[1..] + b;
      RemoveAppend(a[1..], b, p);
      if !p(a[0]) {
        calc {
          Remove(ab, p);
          [a[0]] + Remove(a[1..] + b, p);
          [a[0]] + (Remove(a[1..], p) + Remove(b, p));
          ([a[0]] + Remove(a[1..], p)) + Remove(b, p);
        }
      }
    }
  }

  /** A one-row table: the row is selected exactly when it matches. */
  lemma FilterOne<T>(x: T, p: T -> bool)
    ensures Select([x], p) == (if p(x) then [x] else [])
    ensures Remove([x], p) == (if p(x) then [] else [x])
  {
    assert [x][1..] == [];
  }

  /** `UPDATE ... SET f WHERE p`: every matching row is rewritten in place, the others stay. */
  function UpdateWhere<T>(rows: seq<T>, p: T -> bool, f: T -> T): (r: seq<T>)
    ensures |r| == |rows|
    ensures forall i :: 0 <= i < |rows| ==> r[i] == (if p(rows[i]) then f(rows[i]) else rows[i])
    decreases |rows|
  {
    if |rows| == 0 then []
    else [if p(rows[0]) then f(rows[0]) else rows[0]] + UpdateWhere(rows[1..], p, f)
  }

  /** Apply `f` to every row (`SELECT <expression> FROM ...`). */
  function MapRows<T, U>(rows: seq<T>, f: T -> U): (r: seq<U>)
    ensures |r| == |rows|
    ensures forall i :: 0 <= i < |rows| ==> r[i] == f(rows[i])
  {
    seq(|rows|, i requires 0 <= i < |rows| => f(rows[i]))
  }

  /** Rows in non-increasing order of `key`. */
  ghost predicate SortedDesc<T>(rows: seq<T>, key: T -> int) {
    forall i, j :: 0 <= i < j < |rows| ==> key(rows[i]) >= key(rows[j])
  }

  /** Place `x` into a sorted sequence before the first row with a smaller key. */
  function InsertDesc<T>(x: T, rows: seq<T>, key: T -> int): (r: seq<T>)
    requires SortedDesc(rows, key)
    ensures SortedDesc(r, key)
    ensures multiset(r) == multiset(rows) + multiset{x}
    ensures forall i :: 0 <= i < |r| ==> r[i] == x || r[i] in rows
    decreases |rows|
  {
    if |rows| == 0 then [x]
    else if key(x) >= key(rows[0]) then [x] + rows
    else
      var rest := InsertDesc(x, rows[1..], key);
      assert rows == [rows[0]] + rows[1..];
      [rows[0]] + rest
  }

  /** `ORDER BY key DESC`: a permutation of the rows in non-increasing key order. The order
      among rows with equal keys is left open by SQL; the model fixes one such order. */
  function SortDesc<T>(rows: seq<T>, key: T -> int): (r: seq<T>)
    ensures SortedDesc(r, key)
    ensures multiset(r) == multiset(rows)
    decreases |rows|
  {
    if |rows| == 0 then []
    else
      assert rows == [rows[0]] + rows[1..];
      InsertDesc(rows[0], SortDesc(rows[1..], key), key)
  }

  function Min(a: int, b: int): int {
    if a <= b then a else b
  }

  /** `OFFSET skip LIMIT limit`: the window of at most `limit` rows starting after the first
      `skip` ones. */
  function Page<T>(rows: seq<T>, skip: nat, limit: nat): (r: seq<T>)
    ensures |r| <= limit
    ensures |r| == (if skip >= |rows| then 0 else Min(limit, |rows| - skip))
    ensures forall i :: 0 <= i < |r| ==> skip + i < |rows| && r[i] == rows[skip + i]
  {
    if skip >= |rows| then []
    else
      var rest := rows[skip..];
      if limit >= |rest| then rest else rest[..limit]
  }

  /** A window of a sorted sequence is sorted, holds only rows of it, and is all of it when it
      starts at the first row and is wide enough. */
  lemma PageOfSorted<T>(rows: seq<T>, key: T -> int, skip: nat, limit: nat)
    requires SortedDesc(rows, key)
    ensures SortedDesc(Page(rows, skip, limit), key)
    ensures forall x :: x in Page(rows, skip, limit) ==> x in rows
    ensures skip == 0 && limit >= |rows| ==> Page(rows, skip, limit) == rows
  {
    var r := Page(rows, skip, limit);
    forall i, j | 0 <= i < j < |r|
      ensures key(r[i]) >= key(r[j])
    {
      assert r[i] == rows[skip + i] && r[j] == rows[skip + j];
    }
    forall x | x in r
      ensures x in rows
    {
      var i :| 0 <= i < |r| && r[i] == x;
      assert rows[skip + i] == x;
    }
  }

  /** No two rows share a key (a primary key or unique constraint). */
  ghost predicate DistinctKeys<T, K>(rows: seq<T>, key: T -> K) {
    forall i, j :: 0 <= i < j < |rows| ==> key(rows[i]) != key(rows[j])
  }

  /** Whether some row has key `k`. */
  predicate HasKey<T, K(==)>(rows: seq<T>, key: T -> K, k: K) {
    exists i :: 0 <= i < |rows| && key(rows[i]) == k
  }

  /** Appending a row whose key is new keeps the keys distinct. */
  lemma AppendKeepsDistinct<T, K>(rows: seq<T>, key: T -> K, x: T)
    requires DistinctKeys(rows, key)
    requires !HasKey(rows, key, key(x))
    ensures DistinctKeys(rows + [x], key)
  {
    var r := rows + [x];
    forall i, j | 0 <= i < j < |r|
      ensures key(r[i]) != key(r[j])
    {
      if j == |rows| {
        assert r[i] == rows[i];
      } else {
        assert r[i] == rows[i] && r[j] == rows[j];
      }
    }
  }

  /** Deleting rows keeps the keys of the survivors distinct. */
  lemma {:induction false} RemoveKeepsDistinct<T, K>(rows: seq<T>, p: T -> bool, key: T -> K)
    requires DistinctKeys(rows, key)
    ensures DistinctKeys(Remove(rows, p), key)
    decreases |rows|
  {
    if |rows| > 0 {
      var rest := rows[1..];
      assert DistinctKeys(rest, key) by {
        forall i, j | 0 <= i < j < |rest|
          ensures key(rest[i]) != key(rest[j])
        {
          assert rest[i] == rows[i + 1] && rest[j] == rows[j + 1];
        }
      }
      RemoveKeepsDistinct(rest, p, key);
      if !p(rows[0]) {
        var tail := Remove(rest, p);
        var r := [rows[0]] + tail;
        forall i, j | 0 <= i < j < |r|
          ensures key(r[i]) != key(r[j])
        {
          if i == 0 {
            assert r[j] == tail[j - 1] && r[j] in rest;
            var k :| 0 <= k < |rest| && rest[k] == r[j];
            assert rows[k + 1] == r[j];
          } else {
            assert r[i] == tail[i - 1] && r[j] == tail[j - 1];
          }
        }
      }
    }
  }
}
