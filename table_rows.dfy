/**
 * In-memory stand-ins for the relational tables the controllers work on.
 * A table is a sequence of rows; `Keep` is a `DELETE ... WHERE` (what stays),
 * `Count` the number of rows a `WHERE` clause selects, and `Distinct` the
 * unique index over a composite (user, movie) key.
 */
module TableRows {
  import opened JsValues

  /** The composite key of the unique indexes on (user_id, movie_id). */
  datatype Key = Key(user: int, movie: int)

  /** No two rows share a key. */
  predicate Distinct<T>(rows: seq<T>, key: T -> Key)
  {
    forall i, j :: 0 <= i < j < |rows| ==> key(rows[i]) != key(rows[j])
  }

  /** The number of rows selected by `p`. */
  function Count<T>(rows: seq<T>, p: T -> bool): (n: nat)
    ensures n <= |rows|
    ensures n == 0 <==> forall i :: 0 <= i < |rows| ==> !p(rows[i])
  {
    if rows == [] then 0
    else
      var rest := Count(rows[1..], p);
      assert forall i :: 1 <= i < |rows| ==> rows[i] == rows[1..][i - 1];
      (if p(rows[0]) then 1 else 0) + rest
  }

  /** The rows that a delete selecting `drop` leaves, in their original order. */
  function Keep<T>(rows: seq<T>, drop: T -> bool): (r: seq<T>)
    ensures |r| + Count(rows, drop) == |rows|
    ensures forall i :: 0 <= i < |r| ==> r[i] in rows && !drop(r[i])
    ensures forall i :: 0 <= i < |rows| && !drop(rows[i]) ==> rows[i] in r
    ensures Count(rows, drop) == 0 ==> r == rows
  {
    if rows == [] then []
    else if drop(rows[0]) then Keep(rows[1..], drop)
    else [rows[0]] + Keep(rows[1..], drop)
  }

  /** `SELECT ... WHERE p`: the rows `p` selects, in table order. */
  function Where<T>(rows: seq<T>, p: T -> bool): (r: seq<T>)
    ensures |r| == Count(rows, p)
    ensures forall i :: 0 <= i < |r| ==> r[i] in rows && p(r[i])
    ensures forall i :: 0 <= i < |rows| && p(rows[i]) ==> rows[i] in r
  {
    if rows == [] then []
    else if p(rows[0]) then [rows[0]] + Where(rows[1..], p)
    else Where(rows[1..], p)
  }

  /** Selecting from a table grown by one row selects that row last, if at all. */
  lemma {:induction false} WhereAppend<T>(rows: seq<T>, x: T, p: T -> bool)
    ensures Where(rows + [x], p) == Where(rows, p) + (if p(x) then [x] else [])
  {
    if rows == [] {
      assert [x][1..] == [];
    } else {
      assert (rows + [x])[1..] == rows[1..] + [x];
      WhereAppend(rows[1..], x, p);
    }
  }

  /** A clause that selects at least what another selects counts at least as many rows. */
  lemma {:induction false} CountMono<T>(rows: seq<T>, p: T -> bool, q: T -> bool)
    requires forall x :: p(x) ==> q(x)
    ensures Count(rows, p) <= Count(rows, q)
  {
    if rows != [] {
      CountMono(rows[1..], p, q);
    }
  }

  /** A count over a clause that is the disjoint union of two clauses splits. */
  lemma {:induction false} CountSplit<T>(rows: seq<T>, p: T -> bool, q: T -> bool, both: T -> bool)
    requires forall x :: both(x) <==> p(x) || q(x)
    requires forall x :: !(p(x) && q(x))
    ensures Count(rows, both) == Count(rows, p) + Count(rows, q)
  {
    if rows != [] {
      CountSplit(rows[1..], p, q, both);
    }
  }

  /** Deleting rows never breaks a unique index. */
  lemma {:induction false} KeepDistinct<T>(rows: seq<T>, drop: T -> bool, key: T -> Key)
    requires Distinct(rows, key)
    ensures Distinct(Keep(rows, drop), key)
  {
    if rows != [] {
      var tail := rows[1..];
      assert Distinct(tail, key) by {
        forall i, j | 0 <= i < j < |tail| ensures key(tail[i]) != key(tail[j]) {
          assert tail[i] == rows[i + 1] && tail[j] == rows[j + 1];
        }
      }
      KeepDistinct(tail, drop, key);
      if !drop(rows[0]) {
        var kt := Keep(tail, drop);
        forall i | 0 <= i < |tail| ensures key(tail[i]) != key(rows[0]) {
          assert tail[i] == rows[i + 1];
        }
        KeepAvoidsKey(tail, drop, key, key(rows[0]));
        PrependDistinct(rows[0], kt, key);
      }
    }
  }

  lemma KeepAvoidsKey<T>(rows: seq<T>, drop: T -> bool, key: T -> Key, k: Key)
    requires forall i :: 0 <= i < |rows| ==> key(rows[i]) != k
    ensures forall i :: 0 <= i < |Keep(rows, drop)| ==> key(Keep(rows, drop)[i]) != k
  {
    var r := Keep(rows, drop);
    forall i | 0 <= i < |r| ensures key(r[i]) != k {
      assert r[i] in rows;
    }
  }

  lemma PrependDistinct<T>(x: T, rows: seq<T>, key: T -> Key)
    requires Distinct(rows, key)
    requires forall i :: 0 <= i < |rows| ==> key(rows[i]) != key(x)
    ensures Distinct([x] + rows, key)
  {
    var r := [x] + rows;
    forall i, j | 0 <= i < j < |r| ensures key(r[i]) != key(r[j]) {
      assert r[j] == rows[j - 1];
      if i > 0 {
        assert r[i] == rows[i - 1];
      }
    }
  }

  /** Deleting rows that `q` never selects leaves the `q`-count alone. */
  lemma {:induction false} CountKeep<T>(rows: seq<T>, drop: T -> bool, q: T -> bool)
    requires forall x :: q(x) ==> !drop(x)
    ensures Count(Keep(rows, drop), q) == Count(rows, q)
  {
    if rows != [] {
      CountKeep(rows[1..], drop, q);
      if !drop(rows[0]) {
        assert ([rows[0]] + Keep(rows[1..], drop))[1..] == Keep(rows[1..], drop);
      }
    }
  }

  /** Inserting a row adds one to the count of every clause that selects it. */
  lemma {:induction false} CountAppend<T>(rows: seq<T>, x: T, p: T -> bool)
    ensures Count(rows + [x], p) == Count(rows, p) + (if p(x) then 1 else 0)
  {
    if rows != [] {
      assert (rows + [x])[1..] == rows[1..] + [x];
      CountAppend(rows[1..], x, p);
    }
  }

  /** The position of the row with key `k`, as `findOne` would find it. */
  function IndexOf<T>(rows: seq<T>, key: T -> Key, k: Key): (r: Option<nat>)
    ensures r.Some? ==> r.value < |rows| && key(rows[r.value]) == k
    ensures r.None? <==> forall i :: 0 <= i < |rows| ==> key(rows[i]) != k
  {
    if rows == [] then None
    else if key(rows[0]) == k then Some(0)
    else
      assert forall i :: 1 <= i < |rows| ==> rows[i] == rows[1..][i - 1];
      match IndexOf(rows[1..], key, k)
      case None => None
      case Some(j) => Some(j + 1)
  }

  /** `DELETE ... WHERE user_id = k.user AND movie_id = k.movie`. */
  function DropKey<T>(rows: seq<T>, key: T -> Key, k: Key): seq<T>
  {
    Keep(rows, x => key(x) == k)
  }

  /** `COUNT(*) ... WHERE user_id = k.user AND movie_id = k.movie`. */
  function CountKey<T>(rows: seq<T>, key: T -> Key, k: Key): nat
  {
    Count(rows, x => key(x) == k)
  }

  /** Under a unique index a key selects at most one row. */
  lemma {:induction false} DistinctCountKey<T>(rows: seq<T>, key: T -> Key, k: Key)
    requires Distinct(rows, key)
    ensures CountKey(rows, key, k) <= 1
  {
    if rows != [] {
      var tail := rows[1..];
      assert Distinct(tail, key) by {
        forall i, j | 0 <= i < j < |tail| ensures key(tail[i]) != key(tail[j]) {
          assert tail[i] == rows[i + 1] && tail[j] == rows[j + 1];
        }
      }
      DistinctCountKey(tail, key, k);
      if key(rows[0]) == k {
        forall i | 0 <= i < |tail| ensures key(tail[i]) != k {
          assert tail[i] == rows[i + 1];
        }
      }
    }
  }

  /** Deleting a key removes every row with that key and no row with another key. */
  lemma DropKeyCounts<T>(rows: seq<T>, key: T -> Key, k: Key, other: Key)
    requires other != k
    ensures CountKey(DropKey(rows, key, k), key, k) == 0
    ensures CountKey(DropKey(rows, key, k), key, other) == CountKey(rows, key, other)
    ensures |DropKey(rows, key, k)| + CountKey(rows, key, k) == |rows|
  {
    var r := DropKey(rows, key, k);
    forall i | 0 <= i < |r| ensures key(r[i]) != k {
      assert r[i] in r;
    }
    CountKeep(rows, x => key(x) == k, x => key(x) == other);
  }

  lemma DropKeyDistinct<T>(rows: seq<T>, key: T -> Key, k: Key)
    requires Distinct(rows, key)
    ensures Distinct(DropKey(rows, key, k), key)
  {
    KeepDistinct(rows, x => key(x) == k, key);
  }

  /** The row with key `k` is inserted only when no such row exists. */
  function InsertIfAbsent<T>(rows: seq<T>, key: T -> Key, k: Key, row: T): seq<T>
  {
    if IndexOf(rows, key, k).Some? then rows else rows + [row]
  }

  /** After an insert-if-absent of a row with key `k`, the table holds exactly
      one such row, still has a unique index, and no other key's count moves. */
  lemma InsertIfAbsentOnce<T>(rows: seq<T>, key: T -> Key, k: Key, row: T, other: Key)
    requires Distinct(rows, key) && key(row) == k && other != k
    ensures Distinct(InsertIfAbsent(rows, key, k, row), key)
    ensures CountKey(InsertIfAbsent(rows, key, k, row), key, k) == 1
    ensures CountKey(InsertIfAbsent(rows, key, k, row), key, other) == CountKey(rows, key, other)
  {
    var r := InsertIfAbsent(rows, key, k, row);
    if IndexOf(rows, key, k).None? {
      CountAppend(rows, row, x => key(x) == k);
      CountAppend(rows, row, x => key(x) == other);
      assert CountKey(rows, key, k) == 0;
      assert r == rows + [row];
      forall i, j | 0 <= i < j < |r| ensures key(r[i]) != key(r[j]) {
        if j == |rows| {
          assert r[i] == rows[i];
        } else {
          assert r[i] == rows[i] && r[j] == rows[j];
        }
      }
    } else {
      var i := IndexOf(rows, key, k).value;
      assert CountKey(rows, key, k) != 0;
      DistinctCountKey(rows, key, k);
    }
  }
}
