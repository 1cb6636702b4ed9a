/**
 * What the DAOs share about a table held as a sequence of rows: the rows a
 * WHERE clause keeps, in table order.
 */
module SqlTable {

  /** The rows a WHERE clause keeps, in table order. */
  function Filter<R(!new)>(rows: seq<R>, keep: R -> bool): (kept: seq<R>)
    ensures |kept| <= |rows|
    ensures forall r :: r in kept <==> r in rows && keep(r)
    ensures forall i :: 0 <= i < |kept| ==> kept[i] in rows
  {
    if rows == [] then []
    else (if keep(rows[0]) then [rows[0]] else []) + Filter(rows[1..], keep)
  }

  /** Filtering with the same condition twice keeps what filtering once keeps. */
  lemma {:induction false} FilterIdempotent<R(!new)>(rows: seq<R>, keep: R -> bool)
    ensures Filter(Filter(rows, keep), keep) == Filter(rows, keep)
  {
    if rows != [] {
      FilterIdempotent(rows[1..], keep);
      var once := Filter(rows, keep);
      if keep(rows[0]) {
        assert once[0] == rows[0] && once[1..] == Filter(rows[1..], keep);
        assert Filter(once, keep) == [rows[0]] + Filter(once[1..], keep);
      } else {
        assert once == Filter(rows[1..], keep);
      }
    }
  }

  /** A row kept by the filter keeps its multiplicity; one it drops disappears. */
  lemma {:induction false} FilterMultiset<R(!new)>(rows: seq<R>, keep: R -> bool, r: R)
    ensures multiset(Filter(rows, keep))[r] == if keep(r) then multiset(rows)[r] else 0
  {
    if rows != [] {
      FilterMultiset(rows[1..], keep, r);
      assert rows == [rows[0]] + rows[1..];
    }
  }

  /** No two rows agree on the key. */
  predicate DistinctBy<R, K(==)>(rows: seq<R>, key: R -> K) {
    forall i, j :: 0 <= i < |rows| && 0 <= j < |rows| && i != j ==> key(rows[i]) != key(rows[j])
  }

  /** A WHERE clause never makes keys collide. */
  lemma {:induction false} FilterKeepsDistinct<R(!new), K>(rows: seq<R>, keep: R -> bool, key: R -> K)
    requires DistinctBy(rows, key)
    ensures DistinctBy(Filter(rows, keep), key)
  {
    if rows != [] {
      var tail := rows[1..];
      assert DistinctBy(tail, key) by {
        forall i, j | 0 <= i < |tail| && 0 <= j < |tail| && i != j
          ensures key(tail[i]) != key(tail[j])
        {
          assert tail[i] == rows[i + 1] && tail[j] == rows[j + 1];
        }
      }
      FilterKeepsDistinct(tail, keep, key);
      forall x | x in Filter(tail, keep)
        ensures key(x) != key(rows[0])
      {
        var k :| 0 <= k < |tail| && tail[k] == x;
        assert rows[k + 1] == x;
      }
    }
  }
}
