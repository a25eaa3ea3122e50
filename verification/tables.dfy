/**
 * A table is a sequence of rows in storage order; `key` gives a row's primary key.
 * These are the row-level operations both databases provide: look up by key,
 * update the row with a key, delete the row with a key.
 */
module Tables {
  import opened Wrappers

  /** `FirstOrDefault(r => key(r) == id)`: the first row with that key, if any. */
  function FirstWithKey<T>(rows: seq<T>, key: T -> int, id: int): (r: Option<T>)
    ensures r.Some? ==> r.value in rows && key(r.value) == id
    ensures r.None? <==> forall i :: 0 <= i < |rows| ==> key(rows[i]) != id
  {
    if rows == [] then None
    else if key(rows[0]) == id then Some(rows[0])
    else FirstWithKey(rows[1..], key, id)
  }

  /** No two rows share a primary key. */
  ghost predicate UniqueKeys<T>(rows: seq<T>, key: T -> int) {
    forall i, j :: 0 <= i < j < |rows| ==> key(rows[i]) != key(rows[j])
  }

  predicate HasKey<T>(rows: seq<T>, key: T -> int, id: int) {
    exists i :: 0 <= i < |rows| && key(rows[i]) == id
  }

  /** With unique keys, the lookup finds exactly the row that has the key. */
  lemma {:induction false} FirstWithKeyUnique<T>(rows: seq<T>, key: T -> int, x: T)
    requires UniqueKeys(rows, key)
    requires x in rows
    ensures FirstWithKey(rows, key, key(x)) == Some(x)
  {
    if rows[0] != x {
      assert rows == [rows[0]] + rows[1..];
      assert key(rows[0]) != key(x) by {
        var j :| 0 <= j < |rows| && rows[j] == x;
      }
      FirstWithKeyUnique(rows[1..], key, x);
    }
  }

  /**
   * With unique keys, looking a key up in a reordering of the table (such as a
   * sorted listing) finds the same row as looking it up in the table.
   */
  lemma {:induction false} FirstWithKeyPermutation<T>(rows: seq<T>, other: seq<T>, key: T -> int, id: int)
    requires UniqueKeys(rows, key)
    requires multiset(other) == multiset(rows)
    ensures FirstWithKey(other, key, id) == FirstWithKey(rows, key, id)
  {
    match FirstWithKey(other, key, id)
    case Some(y) =>
      assert y in multiset(rows);
      FirstWithKeyUnique(rows, key, y);
    case None =>
      forall i | 0 <= i < |rows| ensures key(rows[i]) != id {
        assert rows[i] in multiset(other);
      }
  }

  /** SQL `UPDATE ... WHERE Id = key(x)`: every row with the key of `x` becomes `x`. */
  function ReplaceWithKey<T>(rows: seq<T>, key: T -> int, x: T): (r: seq<T>)
    ensures |r| == |rows|
    ensures forall i :: 0 <= i < |rows| ==> r[i] == if key(rows[i]) == key(x) then x else rows[i]
  {
    if rows == [] then []
    else [if key(rows[0]) == key(x) then x else rows[0]] + ReplaceWithKey(rows[1..], key, x)
  }

  /** SQL `DELETE ... WHERE Id = id`: the rows without that key, in their order. */
  function RemoveWithKey<T(!new)>(rows: seq<T>, key: T -> int, id: int): (r: seq<T>)
    ensures forall x :: x in r <==> x in rows && key(x) != id
    ensures multiset(r) <= multiset(rows)
    ensures HasKey(rows, key, id) ==> |r| < |rows|
    ensures !HasKey(rows, key, id) ==> r == rows
  {
    if rows == [] then []
    else
      var t := RemoveWithKey(rows[1..], key, id);
      assert rows == [rows[0]] + rows[1..];
      assert HasKey(rows, key, id) && key(rows[0]) != id ==> HasKey(rows[1..], key, id) by {
        if HasKey(rows, key, id) && key(rows[0]) != id {
          var i :| 0 <= i < |rows| && key(rows[i]) == id;
          assert rows[1..][i - 1] == rows[i];
        }
      }
      if key(rows[0]) == id then t else [rows[0]] + t
  }

  /** Prepending a row whose key no other row has keeps keys unique. */
  lemma ConsUnique<T>(x: T, t: seq<T>, pk: T -> int)
    requires UniqueKeys(t, pk)
    requires forall y :: y in t ==> pk(y) != pk(x)
    ensures UniqueKeys([x] + t, pk)
  {
    var r := [x] + t;
    forall i, j | 0 <= i < j < |r| ensures pk(r[i]) != pk(r[j]) {
      assert r[j] == t[j - 1];
      if i > 0 {
        assert r[i] == t[i - 1];
      }
    }
  }

  /** Deleting rows (by any key) keeps a key that was unique unique. */
  lemma {:induction false} RemoveWithKeyUnique<T(!new)>(rows: seq<T>, key: T -> int, id: int, pk: T -> int)
    requires UniqueKeys(rows, pk)
    ensures UniqueKeys(RemoveWithKey(rows, key, id), pk)
  {
    if rows != [] {
      var tail := rows[1..];
      assert UniqueKeys(tail, pk) by {
        forall i, j | 0 <= i < j < |tail| ensures pk(tail[i]) != pk(tail[j]) {
          assert tail[i] == rows[i + 1] && tail[j] == rows[j + 1];
        }
      }
      RemoveWithKeyUnique(tail, key, id, pk);
      var t := RemoveWithKey(tail, key, id);
      if key(rows[0]) != id {
        forall y | y in t ensures pk(y) != pk(rows[0]) {
          var k :| 0 <= k < |tail| && tail[k] == y;
          assert y == rows[k + 1];
        }
        ConsUnique(rows[0], t, pk);
      }
    }
  }

  /** Each row's key is positive and below the table's next autoincrement value. */
  ghost predicate KeysBelow<T>(rows: seq<T>, key: T -> int, next: int) {
    forall x :: x in rows ==> 0 < key(x) < next
  }

  /** Deleting rows keeps every remaining key within bounds. */
  lemma KeysBelowRemove<T(!new)>(rows: seq<T>, key: T -> int, id: int, pk: T -> int, next: int)
    requires KeysBelow(rows, pk, next)
    ensures KeysBelow(RemoveWithKey(rows, key, id), pk, next)
  {
    var r := RemoveWithKey(rows, key, id);
    forall x | x in r ensures 0 < pk(x) < next {
      assert x in rows;
    }
  }

  /** Replacing rows by key keeps the keys unique and within bounds. */
  lemma KeysAfterReplace<T>(rows: seq<T>, key: T -> int, x: T, next: int)
    requires UniqueKeys(rows, key) && KeysBelow(rows, key, next)
    ensures UniqueKeys(ReplaceWithKey(rows, key, x), key) && KeysBelow(ReplaceWithKey(rows, key, x), key, next)
  {
    var r := ReplaceWithKey(rows, key, x);
    forall y | y in r ensures 0 < key(y) < next {
      var i :| 0 <= i < |r| && r[i] == y;
      assert rows[i] in rows;
    }
  }

  /** Appending a row under the next key keeps the keys unique and within bounds. */
  lemma KeysAfterAppend<T>(rows: seq<T>, key: T -> int, x: T, next: int)
    requires UniqueKeys(rows, key) && KeysBelow(rows, key, next)
    requires 0 < key(x) == next
    ensures UniqueKeys(rows + [x], key) && KeysBelow(rows + [x], key, next + 1)
  {
    var r := rows + [x];
    forall i, j | 0 <= i < j < |r| ensures key(r[i]) != key(r[j]) {
      assert r[i] == rows[i];
      if j < |rows| {
        assert r[j] == rows[j];
      } else {
        assert rows[i] in rows;
      }
    }
  }


  /** `Where(p)`: the rows satisfying `p`, in table order. */
  function Where<T(!new)>(rows: seq<T>, p: T -> bool): (r: seq<T>)
    ensures forall x :: x in r <==> x in rows && p(x)
    ensures |r| <= |rows|
  {
    if rows == [] then []
    else
      var t := Where(rows[1..], p);
      assert forall x :: x in rows <==> x == rows[0] || x in rows[1..];
      if p(rows[0]) then [rows[0]] + t else t
  }

  /** Filtering keeps a key that was unique unique. */
  lemma {:induction false} WhereUnique<T(!new)>(rows: seq<T>, p: T -> bool, pk: T -> int)
    requires UniqueKeys(rows, pk)
    ensures UniqueKeys(Where(rows, p), pk)
  {
    if rows != [] {
      var tail := rows[1..];
      assert UniqueKeys(tail, pk) by {
        forall i, j | 0 <= i < j < |tail| ensures pk(tail[i]) != pk(tail[j]) {
          assert tail[i] == rows[i + 1] && tail[j] == rows[j + 1];
        }
      }
      WhereUnique(tail, p, pk);
      var t := Where(tail, p);
      if p(rows[0]) {
        forall y | y in t ensures pk(y) != pk(rows[0]) {
          var k :| 0 <= k < |tail| && tail[k] == y;
          assert y == rows[k + 1];
        }
        ConsUnique(rows[0], t, pk);
      }
    }
  }

  /** Filtering keeps every remaining key within bounds. */
  lemma WhereKeysBelow<T(!new)>(rows: seq<T>, p: T -> bool, pk: T -> int, next: int)
    requires KeysBelow(rows, pk, next)
    ensures KeysBelow(Where(rows, p), pk, next)
  {
  }

  /** A key other than the deleted one is still present after the delete. */
  lemma HasKeyAfterRemove<T(!new)>(rows: seq<T>, key: T -> int, id: int, k: int)
    requires HasKey(rows, key, k) && k != id
    ensures HasKey(RemoveWithKey(rows, key, id), key, k)
  {
    var i :| 0 <= i < |rows| && key(rows[i]) == k;
    var r := RemoveWithKey(rows, key, id);
    assert rows[i] in r;
    var j :| 0 <= j < |r| && r[j] == rows[i];
  }
}
