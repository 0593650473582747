/**
 * Row-set semantics shared by both stores. A table is a sequence of rows in
 * storage order; an AUTOINCREMENT primary key is a column that ascends in
 * storage order and stays below the table's counter; a UNIQUE column is one
 * whose values are pairwise distinct. Columns are passed as named functions.
 */
module Tables {

  /** The rows satisfying `keep`, in storage order (a `WHERE` filter; a `DELETE` keeps the complement). */
  function Where<T(==,!new)>(rows: seq<T>, keep: T -> bool): (r: seq<T>)
    ensures |r| <= |rows|
    ensures forall x :: x in r <==> x in rows && keep(x)
  {
    if |rows| == 0 then []
    else
      assert rows == [rows[0]] + rows[1..];
      (if keep(rows[0]) then [rows[0]] else []) + Where(rows[1..], keep)
  }

  /** Primary keys strictly ascending in storage order and all below the next key `next`. */
  ghost predicate Keyed<T>(rows: seq<T>, key: T -> nat, next: nat) {
    (forall i, j :: 0 <= i < j < |rows| ==> key(rows[i]) < key(rows[j])) &&
    (forall i :: 0 <= i < |rows| ==> key(rows[i]) < next)
  }

  /** A UNIQUE column: no two rows agree on `col`. */
  ghost predicate Distinct<T, K>(rows: seq<T>, col: T -> K) {
    forall i, j :: 0 <= i < j < |rows| ==> col(rows[i]) != col(rows[j])
  }

  /** Some row has `col` equal to `v`. */
  predicate Occurs<T, K(==)>(rows: seq<T>, col: T -> K, v: K) {
    exists i :: 0 <= i < |rows| && col(rows[i]) == v
  }

  /** Dropping the first row keeps keys and uniqueness. */
  lemma KeyedTail<T>(rows: seq<T>, key: T -> nat, next: nat)
    requires Keyed(rows, key, next) && |rows| > 0
    ensures Keyed(rows[1..], key, next)
  {
    forall i, j | 0 <= i < j < |rows[1..]| ensures key(rows[1..][i]) < key(rows[1..][j]) {
      assert rows[1..][i] == rows[i + 1] && rows[1..][j] == rows[j + 1];
    }
  }

  lemma DistinctTail<T, K>(rows: seq<T>, col: T -> K)
    requires Distinct(rows, col) && |rows| > 0
    ensures Distinct(rows[1..], col)
  {
    forall i, j | 0 <= i < j < |rows[1..]| ensures col(rows[1..][i]) != col(rows[1..][j]) {
      assert rows[1..][i] == rows[i + 1] && rows[1..][j] == rows[j + 1];
    }
  }

  /** A filter that every row passes keeps the table as it is. */
  lemma {:induction false} WhereAll<T(!new)>(rows: seq<T>, keep: T -> bool)
    requires forall x :: x in rows ==> keep(x)
    ensures Where(rows, keep) == rows
  {
    if |rows| > 0 {
      assert rows[0] in rows;
      forall x | x in rows[1..] ensures keep(x) {
        var m :| 0 <= m < |rows[1..]| && rows[1..][m] == x;
        assert rows[m + 1] == x;
      }
      WhereAll(rows[1..], keep);
      assert rows == [rows[0]] + rows[1..];
    }
  }

  /** A filter that no row passes leaves nothing. */
  lemma WhereNone<T(!new)>(rows: seq<T>, keep: T -> bool)
    requires forall x :: x in rows ==> !keep(x)
    ensures Where(rows, keep) == []
  {
  }

  lemma {:induction false} WhereKeyed<T(!new)>(rows: seq<T>, keep: T -> bool, key: T -> nat, next: nat)
    requires Keyed(rows, key, next)
    ensures Keyed(Where(rows, keep), key, next)
  {
    if |rows| > 0 {
      var tail := rows[1..];
      KeyedTail(rows, key, next);
      WhereKeyed(tail, keep, key, next);
      if keep(rows[0]) {
        var rest := Where(tail, keep);
        forall y | y in rest ensures key(rows[0]) < key(y) {
          var m :| 0 <= m < |tail| && tail[m] == y;
          assert tail[m] == rows[m + 1];
        }
        KeyedCons(rows[0], rest, key, next);
      }
    }
  }

  lemma {:induction false} WhereDistinct<T(!new), K>(rows: seq<T>, keep: T -> bool, col: T -> K)
    requires Distinct(rows, col)
    ensures Distinct(Where(rows, keep), col)
  {
    if |rows| > 0 {
      var tail := rows[1..];
      DistinctTail(rows, col);
      WhereDistinct(tail, keep, col);
      if keep(rows[0]) {
        var rest := Where(tail, keep);
        forall y | y in rest ensures col(rows[0]) != col(y) {
          var m :| 0 <= m < |tail| && tail[m] == y;
          assert tail[m] == rows[m + 1];
        }
        DistinctCons(rows[0], rest, col);
      }
    }
  }

  /** A row placed before rows with larger keys keeps the keys ascending. */
  lemma KeyedCons<T>(x: T, rest: seq<T>, key: T -> nat, next: nat)
    requires Keyed(rest, key, next) && key(x) < next
    requires forall y :: y in rest ==> key(x) < key(y)
    ensures Keyed([x] + rest, key, next)
  {
    var r := [x] + rest;
    forall i, j | 0 <= i < j < |r| ensures key(r[i]) < key(r[j]) {
      assert r[j] == rest[j - 1] && rest[j - 1] in rest;
      if i > 0 { assert r[i] == rest[i - 1]; }
    }
  }

  /** A row whose value no later row repeats keeps the column unique. */
  lemma DistinctCons<T, K>(x: T, rest: seq<T>, col: T -> K)
    requires Distinct(rest, col)
    requires forall y :: y in rest ==> col(x) != col(y)
    ensures Distinct([x] + rest, col)
  {
    var r := [x] + rest;
    forall i, j | 0 <= i < j < |r| ensures col(r[i]) != col(r[j]) {
      assert r[j] == rest[j - 1] && rest[j - 1] in rest;
      if i > 0 { assert r[i] == rest[i - 1]; }
    }
  }

  /** `Where` distributes over concatenation of row sequences. */
  lemma {:induction false} WhereConcat<T(!new)>(a: seq<T>, b: seq<T>, keep: T -> bool)
    ensures Where(a + b, keep) == Where(a, keep) + Where(b, keep)
  {
    if |a| > 0 {
      assert (a + b)[1..] == a[1..] + b;
      WhereConcat(a[1..], b, keep);
    } else {
      assert a + b == b;
    }
  }

  /** Appending a row whose key is the counter keeps the keys, with the counter advanced. */
  lemma KeyedAppend<T>(rows: seq<T>, x: T, key: T -> nat, next: nat)
    requires Keyed(rows, key, next) && key(x) == next
    ensures Keyed(rows + [x], key, next + 1)
  {
  }

  /** Appending a row with a value not yet in a UNIQUE column keeps it unique. */
  lemma DistinctAppend<T, K>(rows: seq<T>, x: T, col: T -> K)
    requires Distinct(rows, col) && !Occurs(rows, col, col(x))
    ensures Distinct(rows + [x], col)
  {
    forall i, j | 0 <= i < j < |rows + [x]| ensures col((rows + [x])[i]) != col((rows + [x])[j]) {
      if j == |rows| {
        assert (rows + [x])[i] == rows[i];
      }
    }
  }

  /** A row-by-row update that leaves a column as it was keeps keys and uniqueness of that column. */
  lemma SameColumn<T, K>(rows: seq<T>, rows': seq<T>, col: T -> K)
    requires |rows'| == |rows|
    requires forall k :: 0 <= k < |rows| ==> col(rows'[k]) == col(rows[k])
    ensures Distinct(rows, col) ==> Distinct(rows', col)
    ensures forall v :: Occurs(rows, col, v) <==> Occurs(rows', col, v)
  {
    forall v ensures Occurs(rows, col, v) <==> Occurs(rows', col, v) {
      if Occurs(rows, col, v) {
        var i :| 0 <= i < |rows| && col(rows[i]) == v;
        assert col(rows'[i]) == v;
      }
      if Occurs(rows', col, v) {
        var i :| 0 <= i < |rows'| && col(rows'[i]) == v;
        assert col(rows[i]) == v;
      }
    }
  }

  lemma SameKeys<T>(rows: seq<T>, rows': seq<T>, key: T -> nat, next: nat)
    requires |rows'| == |rows|
    requires forall k :: 0 <= k < |rows| ==> key(rows'[k]) == key(rows[k])
    requires Keyed(rows, key, next)
    ensures Keyed(rows', key, next)
  {
  }

  /** In a keyed table a key names exactly one position. */
  lemma KeyedUnique<T>(rows: seq<T>, key: T -> nat, next: nat, i: nat, j: nat)
    requires Keyed(rows, key, next) && i < |rows| && j < |rows|
    requires key(rows[i]) == key(rows[j])
    ensures i == j
  {
  }
}
