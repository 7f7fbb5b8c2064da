/** The table operations the repositories' SQL statements are built from. A table is a
    sequence of rows in insertion order; a WHERE clause is a predicate on rows. */
module Tables {
  import opened Common

  /** `WHERE p ORDER BY <primary key> LIMIT 1` (gorm's `First`): the position of the
      first row that satisfies `p`, if any. Position order is key order in the tables
      whose keys are their positions (users, refresh tokens); in the item tables the
      clauses pin the primary key, which is unique, so at most one row can match and
      the order is immaterial (`AtMostOneWithKey`). */
  function FirstWhere<T>(rows: seq<T>, p: T -> bool): (r: Option<nat>)
    ensures r.Some? ==> r.value < |rows| && p(rows[r.value])
    ensures r.Some? ==> forall j :: 0 <= j < r.value ==> !p(rows[j])
    ensures r.None? <==> forall j :: 0 <= j < |rows| ==> !p(rows[j])
  {
    if rows == [] then None
    else if p(rows[0]) then Some(0)
    else match FirstWhere(rows[1..], p)
      case None => None
      case Some(k) => Some(k + 1)
  }

  /** `FirstWhere` finds the least satisfying position. */
  lemma FirstWhereIsLeast<T>(rows: seq<T>, p: T -> bool, k: nat)
    requires k < |rows| && p(rows[k])
    requires forall j :: 0 <= j < k ==> !p(rows[j])
    ensures FirstWhere(rows, p) == Some(k)
  {
  }

  /** `SELECT * WHERE p` (gorm's `Find`): the rows that satisfy `p`, in table order.
      A `DELETE WHERE q` leaves `Where(rows, x => !q(x))`. */
  function Where<T(==)>(rows: seq<T>, p: T -> bool): (r: seq<T>)
    ensures |r| <= |rows|
    ensures forall i :: 0 <= i < |r| ==> r[i] in rows && p(r[i])
    ensures forall i :: 0 <= i < |rows| && p(rows[i]) ==> rows[i] in r
    ensures |r| == |rows| <==> forall i :: 0 <= i < |rows| ==> p(rows[i])
  {
    if rows == [] then []
    else if p(rows[0]) then [rows[0]] + Where(rows[1..], p)
    else Where(rows[1..], p)
  }

  /** `Where` keeps every satisfying row as many times as the table holds it and drops
      every other row: it is the order-preserving filter, not merely a set of rows. */
  lemma {:induction false} WhereCounts<T(!new)>(rows: seq<T>, p: T -> bool)
    ensures forall x :: multiset(Where(rows, p))[x] == if p(x) then multiset(rows)[x] else 0
  {
    if rows != [] {
      WhereCounts(rows[1..], p);
      assert rows == [rows[0]] + rows[1..];
    }
  }

  /** `UPDATE ... SET f WHERE p`: every row satisfying `p` is replaced by `f` of it. */
  function UpdateWhere<T>(rows: seq<T>, p: T -> bool, f: T -> T): (r: seq<T>)
    ensures |r| == |rows|
    ensures forall i :: 0 <= i < |rows| && p(rows[i]) ==> r[i] == f(rows[i])
    ensures forall i :: 0 <= i < |rows| && !p(rows[i]) ==> r[i] == rows[i]
  {
    seq(|rows|, i requires 0 <= i < |rows| => if p(rows[i]) then f(rows[i]) else rows[i])
  }

  /** No two rows share a primary key. */
  ghost predicate KeysUnique<T>(rows: seq<T>, key: T -> nat)
  {
    forall i, j :: 0 <= i < j < |rows| ==> key(rows[i]) != key(rows[j])
  }

  /** Deleting or selecting rows never makes two rows share a key. */
  lemma {:induction false} WhereKeepsKeysUnique<T>(rows: seq<T>, p: T -> bool, key: T -> nat)
    requires KeysUnique(rows, key)
    ensures KeysUnique(Where(rows, p), key)
  {
    if rows != [] {
      var tail := Where(rows[1..], p);
      assert KeysUnique(rows[1..], key) by {
        forall i, j | 0 <= i < j < |rows[1..]|
          ensures key(rows[1..][i]) != key(rows[1..][j])
        {
          assert rows[1..][i] == rows[i + 1] && rows[1..][j] == rows[j + 1];
        }
      }
      WhereKeepsKeysUnique(rows[1..], p, key);
      if p(rows[0]) {
        var r := [rows[0]] + tail;
        forall i, j | 0 <= i < j < |r| ensures key(r[i]) != key(r[j]) {
          if i == 0 {
            assert r[j] in rows[1..];
            var k :| 0 <= k < |rows[1..]| && rows[1..][k] == r[j];
            assert rows[k + 1] == r[j];
          } else {
            assert r[i] == tail[i - 1] && r[j] == tail[j - 1];
          }
        }
      }
    }
  }

  /** With unique keys, a clause that fixes the key is met by at most one row. */
  lemma AtMostOneWithKey<T>(rows: seq<T>, key: T -> nat, p: T -> bool, k: nat, i: nat, j: nat)
    requires KeysUnique(rows, key)
    requires forall x :: p(x) ==> key(x) == k
    requires i < |rows| && j < |rows| && p(rows[i]) && p(rows[j])
    ensures i == j
  {
  }

  /** An update that keeps every row's key keeps the keys unique. */
  lemma UpdateKeepsKeysUnique<T>(rows: seq<T>, p: T -> bool, f: T -> T, key: T -> nat)
    requires KeysUnique(rows, key)
    requires forall x :: key(f(x)) == key(x)
    ensures KeysUnique(UpdateWhere(rows, p, f), key)
  {
    var r := UpdateWhere(rows, p, f);
    forall i, j | 0 <= i < j < |r| ensures key(r[i]) != key(r[j]) {
      assert key(r[i]) == key(rows[i]) && key(r[j]) == key(rows[j]);
    }
  }
}
