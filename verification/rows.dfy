/**
 * A table as the database keeps it: its rows in ascending primary-key order (the clustered
 * index), each row's key given by a key function. Lookup, insertion, replacement and deletion
 * by key.
 */
module Rows {
  import opened Wrappers

  /** The keys ascend strictly: rows are in primary-key order and no key occurs twice. */
  predicate Ordered<R>(rows: seq<R>, key: R -> int) {
    forall i, j | 0 <= i < j < |rows| :: key(rows[i]) < key(rows[j])
  }

  /** Some row has key k. */
  predicate HasKey<R>(rows: seq<R>, key: R -> int, k: int) {
    exists i | 0 <= i < |rows| :: key(rows[i]) == k
  }

  /** Find(k): the first row with key k, or null. */
  function Find<R>(rows: seq<R>, key: R -> int, k: int): (r: Option<R>)
    ensures r.Some? <==> HasKey(rows, key, k)
    ensures r.Some? ==> r.value in rows && key(r.value) == k
  {
    if rows == [] then None
    else if key(rows[0]) == k then Some(rows[0])
    else
      var r := Find(rows[1..], key, k);
      assert HasKey(rows, key, k) ==> HasKey(rows[1..], key, k) by {
        if HasKey(rows, key, k) {
          var i :| 0 <= i < |rows| && key(rows[i]) == k;
          assert key(rows[1..][i - 1]) == k;
        }
      }
      r
  }

  /** Count(k): how many rows have key k. */
  function CountKey<R>(rows: seq<R>, key: R -> int, k: int): (n: nat)
    ensures n <= |rows|
    ensures n > 0 <==> HasKey(rows, key, k)
  {
    if rows == [] then 0
    else
      var n := CountKey(rows[1..], key, k);
      assert HasKey(rows, key, k) <==> key(rows[0]) == k || HasKey(rows[1..], key, k) by {
        if HasKey(rows, key, k) && key(rows[0]) != k {
          var i :| 0 <= i < |rows| && key(rows[i]) == k;
          assert key(rows[1..][i - 1]) == k;
        }
        if HasKey(rows[1..], key, k) {
          var i :| 0 <= i < |rows[1..]| && key(rows[1..][i]) == k;
          assert key(rows[i + 1]) == k;
        }
      }
      (if key(rows[0]) == k then 1 else 0) + n
  }

  /** In rows in key order a key is counted at most once. */
  lemma {:induction false} CountKeyOrdered<R>(rows: seq<R>, key: R -> int, k: int)
    requires Ordered(rows, key)
    ensures CountKey(rows, key, k) <= 1
  {
    if rows != [] {
      var tail := rows[1..];
      CountKeyOrdered(tail, key, k);
      if key(rows[0]) == k {
        forall i | 0 <= i < |tail|
          ensures key(tail[i]) != k
        {
          assert key(rows[0]) < key(rows[i + 1]);
        }
      }
    }
  }

  /** In ordered rows a key names exactly one row, so Find returns that row. */
  lemma {:induction false} FindInOrdered<R>(rows: seq<R>, key: R -> int, i: int)
    requires Ordered(rows, key) && 0 <= i < |rows|
    ensures Find(rows, key, key(rows[i])) == Some(rows[i])
  {
    if i > 0 {
      assert key(rows[0]) < key(rows[i]);
      assert rows[1..][i - 1] == rows[i];
      FindInOrdered(rows[1..], key, i - 1);
    }
  }

  /** Inserts a row at the place its key calls for. */
  function Insert<R>(rows: seq<R>, key: R -> int, row: R): (r: seq<R>)
    ensures |r| == |rows| + 1
    ensures multiset(r) == multiset(rows) + multiset{row}
  {
    if rows == [] || key(row) < key(rows[0]) then [row] + rows
    else
      assert rows == [rows[0]] + rows[1..];
      [rows[0]] + Insert(rows[1..], key, row)
  }

  /** A property every row and the new row have holds of every row after the insertion. */
  lemma {:induction false} InsertAll<R>(rows: seq<R>, key: R -> int, row: R, p: R -> bool)
    requires forall i | 0 <= i < |rows| :: p(rows[i])
    requires p(row)
    ensures forall i | 0 <= i < |Insert(rows, key, row)| :: p(Insert(rows, key, row)[i])
  {
    var r := Insert(rows, key, row);
    if rows == [] || key(row) < key(rows[0]) {
      forall i | 0 <= i < |r|
        ensures p(r[i])
      {
        if i > 0 {
          assert r[i] == rows[i - 1];
        }
      }
    } else {
      var tail := rows[1..];
      forall i | 0 <= i < |tail|
        ensures p(tail[i])
      {
        assert tail[i] == rows[i + 1];
      }
      InsertAll(tail, key, row, p);
      var r' := Insert(tail, key, row);
      assert r == [rows[0]] + r';
      forall i | 0 <= i < |r|
        ensures p(r[i])
      {
        if i > 0 {
          assert r[i] == r'[i - 1];
        }
      }
    }
  }

  /** Inserting a row whose key is absent keeps the rows in key order. */
  lemma {:induction false} InsertOrdered<R>(rows: seq<R>, key: R -> int, row: R)
    requires Ordered(rows, key) && !HasKey(rows, key, key(row))
    ensures Ordered(Insert(rows, key, row), key)
  {
    var r := Insert(rows, key, row);
    if rows != [] && key(row) >= key(rows[0]) {
      assert key(rows[0]) != key(row);
      var tail := rows[1..];
      forall i | 0 <= i < |tail|
        ensures key(rows[0]) < key(tail[i]) && key(tail[i]) != key(row)
      {
        assert tail[i] == rows[i + 1];
      }
      InsertOrdered(tail, key, row);
      var low := key(rows[0]);
      InsertAll(tail, key, row, x => low < key(x));
      var r' := Insert(tail, key, row);
      assert r == [rows[0]] + r';
      forall a, b | 0 <= a < b < |r|
        ensures key(r[a]) < key(r[b])
      {
        assert r[b] == r'[b - 1];
        if a > 0 {
          assert r[a] == r'[a - 1];
        }
      }
    } else if rows != [] {
      forall a, b | 0 <= a < b < |r|
        ensures key(r[a]) < key(r[b])
      {
        assert r[b] == rows[b - 1];
        if a > 0 {
          assert r[a] == rows[a - 1];
        } else {
          assert key(rows[0]) <= key(rows[b - 1]);
        }
      }
    }
  }

  /** No two rows agree on f (a unique index on f). */
  ghost predicate DistinctBy<R, T>(rows: seq<R>, f: R -> T) {
    forall i, j | 0 <= i < j < |rows| :: f(rows[i]) != f(rows[j])
  }

  /** Inserting a row whose f differs from every row's keeps the values of f distinct. */
  lemma {:induction false} InsertKeepsDistinct<R, T>(rows: seq<R>, key: R -> int, row: R, f: R -> T)
    requires DistinctBy(rows, f)
    requires forall i | 0 <= i < |rows| :: f(rows[i]) != f(row)
    ensures DistinctBy(Insert(rows, key, row), f)
  {
    var r := Insert(rows, key, row);
    if rows == [] || key(row) < key(rows[0]) {
      forall i, j | 0 <= i < j < |r|
        ensures f(r[i]) != f(r[j])
      {
        assert r[j] == rows[j - 1];
        if i > 0 {
          assert r[i] == rows[i - 1];
        }
      }
    } else {
      var tail := rows[1..];
      forall i, j | 0 <= i < j < |tail|
        ensures f(tail[i]) != f(tail[j])
      {
        assert tail[i] == rows[i + 1] && tail[j] == rows[j + 1];
      }
      forall i | 0 <= i < |tail|
        ensures f(tail[i]) != f(row)
      {
        assert tail[i] == rows[i + 1];
      }
      InsertKeepsDistinct(tail, key, row, f);
      var r' := Insert(tail, key, row);
      assert DistinctBy(r', f);
      assert r == [rows[0]] + r';
      var first := f(rows[0]);
      forall i | 0 <= i < |tail|
        ensures f(tail[i]) != first
      {
        assert tail[i] == rows[i + 1];
      }
      InsertAll(tail, key, row, x => f(x) != first);
      forall i, j | 0 <= i < j < |r|
        ensures f(r[i]) != f(r[j])
      {
        assert r[j] == r'[j - 1];
        if i > 0 {
          assert r[i] == r'[i - 1];
          assert f(r'[i - 1]) != f(r'[j - 1]);
        } else {
          assert f(rows[0]) != f(r'[j - 1]);
        }
      }
    }
  }

  /** Every row with the key of row replaced by row; the others unchanged, in place. */
  function Replace<R>(rows: seq<R>, key: R -> int, row: R): (r: seq<R>)
    ensures |r| == |rows|
    ensures forall i | 0 <= i < |rows| :: r[i] == if key(rows[i]) == key(row) then row else rows[i]
  {
    if rows == [] then []
    else [if key(rows[0]) == key(row) then row else rows[0]] + Replace(rows[1..], key, row)
  }

  /** Replacing keeps every key where it was, hence the key order. */
  lemma ReplaceOrdered<R>(rows: seq<R>, key: R -> int, row: R)
    requires Ordered(rows, key)
    ensures Ordered(Replace(rows, key, row), key)
  {
    var r := Replace(rows, key, row);
    assert forall i | 0 <= i < |rows| :: key(r[i]) == key(rows[i]);
  }

  /** The rows whose key is not k, in their order. */
  function Remove<R>(rows: seq<R>, key: R -> int, k: int): (r: seq<R>)
    ensures |r| <= |rows|
    ensures forall i | 0 <= i < |r| :: r[i] in rows && key(r[i]) != k
    ensures forall i | 0 <= i < |rows| :: key(rows[i]) != k ==> rows[i] in r
  {
    if rows == [] then []
    else (if key(rows[0]) == k then [] else [rows[0]]) + Remove(rows[1..], key, k)
  }

  /** The rows after the first of ordered rows are ordered. */
  lemma TailOrdered<R>(rows: seq<R>, key: R -> int)
    requires Ordered(rows, key) && rows != []
    ensures Ordered(rows[1..], key)
  {
    var tail := rows[1..];
    forall i, j | 0 <= i < j < |tail|
      ensures key(tail[i]) < key(tail[j])
    {
      assert tail[i] == rows[i + 1] && tail[j] == rows[j + 1];
    }
  }

  /** The first key of ordered rows is below every later key. */
  lemma TailAbove<R>(rows: seq<R>, key: R -> int)
    requires Ordered(rows, key) && rows != []
    ensures forall i | 0 <= i < |rows[1..]| :: key(rows[0]) < key(rows[1..][i])
  {
    forall i | 0 <= i < |rows[1..]|
      ensures key(rows[0]) < key(rows[1..][i])
    {
      assert rows[1..][i] == rows[i + 1];
    }
  }

  /** A row below every key of ordered rows can go in front of them. */
  lemma ConsOrdered<R>(x: R, rows: seq<R>, key: R -> int)
    requires Ordered(rows, key)
    requires forall i | 0 <= i < |rows| :: key(x) < key(rows[i])
    ensures Ordered([x] + rows, key)
  {
    var r := [x] + rows;
    forall a, b | 0 <= a < b < |r|
      ensures key(r[a]) < key(r[b])
    {
      assert r[b] == rows[b - 1];
      if a > 0 {
        assert r[a] == rows[a - 1];
      }
    }
  }

  /** Removing rows keeps a lower bound of the keys. */
  lemma {:induction false} RemoveAbove<R>(rows: seq<R>, key: R -> int, k: int, low: int)
    requires forall i | 0 <= i < |rows| :: low < key(rows[i])
    ensures forall i | 0 <= i < |Remove(rows, key, k)| :: low < key(Remove(rows, key, k)[i])
  {
    if rows != [] {
      RemoveAbove(rows[1..], key, k, low);
    }
  }

  /** Removing rows keeps the others in key order. */
  lemma {:induction false} RemoveOrdered<R>(rows: seq<R>, key: R -> int, k: int)
    requires Ordered(rows, key)
    ensures Ordered(Remove(rows, key, k), key)
  {
    if rows != [] {
      var tail := rows[1..];
      TailOrdered(rows, key);
      RemoveOrdered(tail, key, k);
      var r', r := Remove(tail, key, k), Remove(rows, key, k);
      if key(rows[0]) != k {
        TailAbove(rows, key);
        RemoveAbove(tail, key, k, key(rows[0]));
        assert r == [rows[0]] + r';
        ConsOrdered(rows[0], r', key);
      } else {
        assert r == r';
      }
    }
  }

  /** With the rows in key order, removing key k takes away exactly the one row that had it. */
  lemma RemoveCount<R>(rows: seq<R>, key: R -> int, k: int)
    requires Ordered(rows, key)
    ensures |Remove(rows, key, k)| == if HasKey(rows, key, k) then |rows| - 1 else |rows|
  {
    if rows != [] {
      var tail := rows[1..];
      assert Ordered(tail, key);
      RemoveCount(tail, key, k);
      if key(rows[0]) == k {
        forall i | 0 <= i < |tail|
          ensures key(tail[i]) != k
        {
          assert key(rows[0]) < key(rows[i + 1]);
        }
      } else {
        assert HasKey(rows, key, k) <==> HasKey(tail, key, k) by {
          if HasKey(rows, key, k) {
            var i :| 0 <= i < |rows| && key(rows[i]) == k;
            assert i > 0 && key(tail[i - 1]) == k;
          }
          if HasKey(tail, key, k) {
            var i :| 0 <= i < |tail| && key(tail[i]) == k;
            assert key(rows[i + 1]) == k;
          }
        }
      }
    }
  }

  /** After an insertion, the new key finds the new row and every other key what it found before. */
  lemma {:induction false} FindInsert<R>(rows: seq<R>, key: R -> int, row: R, k: int)
    requires Ordered(rows, key) && !HasKey(rows, key, key(row))
    ensures Find(Insert(rows, key, row), key, k) == if k == key(row) then Some(row) else Find(rows, key, k)
  {
    if rows != [] && key(row) >= key(rows[0]) {
      assert key(rows[0]) != key(row);
      var tail := rows[1..];
      forall i | 0 <= i < |tail|
        ensures key(tail[i]) != key(row)
      {
        assert tail[i] == rows[i + 1];
      }
      FindInsert(tail, key, row, k);
    }
  }

  /** After a replacement, its key finds the new row (if it was present) and every other key what it found before. */
  lemma {:induction false} FindReplace<R>(rows: seq<R>, key: R -> int, row: R, k: int)
    ensures Find(Replace(rows, key, row), key, k)
      == if k == key(row) then (if HasKey(rows, key, k) then Some(row) else None) else Find(rows, key, k)
  {
    if rows != [] {
      FindReplace(rows[1..], key, row, k);
      var r := Replace(rows, key, row);
      assert r[1..] == Replace(rows[1..], key, row);
    }
  }

  /** After a removal, its key finds nothing and every other key what it found before. */
  lemma {:induction false} FindRemove<R>(rows: seq<R>, key: R -> int, k: int, j: int)
    ensures Find(Remove(rows, key, k), key, j) == if j == k then None else Find(rows, key, j)
  {
    if rows != [] {
      var tail := rows[1..];
      FindRemove(tail, key, k, j);
      var r := Remove(rows, key, k);
      if key(rows[0]) == k {
        assert r == Remove(tail, key, k);
      } else {
        var r' := Remove(tail, key, k);
        assert r == [rows[0]] + r';
        assert r[0] == rows[0] && r[1..] == r';
      }
    }
  }
}
