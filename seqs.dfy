/** Order-preserving selection over sequences: the `WHERE` of every table query. */
module Seqs {

  /** The elements of `s` that satisfy `f`, in their order in `s`. */
  function Filter<T(!new)>(f: T -> bool, s: seq<T>): (r: seq<T>)
    ensures |r| <= |s|
    ensures forall x :: x in r <==> x in s && f(x)
  {
    if s == [] then []
    else if f(s[0]) then [s[0]] + Filter(f, s[1..])
    else Filter(f, s[1..])
  }

  lemma {:induction false} FilterAppend<T(!new)>(f: T -> bool, a: seq<T>, b: seq<T>)
    ensures Filter(f, a + b) == Filter(f, a) + Filter(f, b)
  {
    if a == [] {
      assert a + b == b;
    } else {
      assert (a + b)[1..] == a[1..] + b;
      FilterAppend(f, a[1..], b);
    }
  }

  /** No two elements of `s` share a key. */
  ghost predicate DistinctKeys<T, K>(key: T -> K, s: seq<T>) {
    forall i, j :: 0 <= i < j < |s| ==> key(s[i]) != key(s[j])
  }

  lemma {:induction false} FilterDistinctKeys<T(!new), K>(key: T -> K, f: T -> bool, s: seq<T>)
    requires DistinctKeys(key, s)
    ensures DistinctKeys(key, Filter(f, s))
  {
    if s != [] {
      FilterDistinctKeys(key, f, s[1..]);
      var rest := Filter(f, s[1..]);
      if f(s[0]) {
        forall k | 0 <= k < |rest| ensures key(rest[k]) != key(s[0]) {
          assert rest[k] in s[1..];
          var m :| 0 <= m < |s[1..]| && s[1..][m] == rest[k];
          assert s[m + 1] == rest[k];
        }
      }
    }
  }

  /** Two sequences with distinct keys and no key in common concatenate to one with distinct keys. */
  lemma DistinctKeysAppend<T, K>(key: T -> K, a: seq<T>, b: seq<T>)
    requires DistinctKeys(key, a) && DistinctKeys(key, b)
    requires forall x, y :: x in a && y in b ==> key(x) != key(y)
    ensures DistinctKeys(key, a + b)
  {
    var s := a + b;
    forall i, j | 0 <= i < j < |s| ensures key(s[i]) != key(s[j]) {
      if j < |a| {
        assert s[i] == a[i] && s[j] == a[j];
      } else if i >= |a| {
        assert s[i] == b[i - |a|] && s[j] == b[j - |a|];
      } else {
        assert s[i] in a && s[j] in b;
      }
    }
  }

  /** The keys of `s` strictly increase: row order is id order. */
  ghost predicate IncreasingKeys<T>(key: T -> int, s: seq<T>) {
    forall i, j :: 0 <= i < j < |s| ==> key(s[i]) < key(s[j])
  }

  lemma {:induction false} FilterIncreasingKeys<T(!new)>(key: T -> int, f: T -> bool, s: seq<T>)
    requires IncreasingKeys(key, s)
    ensures IncreasingKeys(key, Filter(f, s))
  {
    if s != [] {
      FilterIncreasingKeys(key, f, s[1..]);
      var rest := Filter(f, s[1..]);
      if f(s[0]) {
        forall k | 0 <= k < |rest| ensures key(s[0]) < key(rest[k]) {
          assert rest[k] in s[1..];
          var m :| 0 <= m < |s[1..]| && s[1..][m] == rest[k];
          assert s[m + 1] == rest[k];
        }
      }
    }
  }

  /**
   * Insertion with `OnConflictStrategy.REPLACE` on a unique key: the rows holding the new
   * row's key are deleted, and the new row goes to the end of the table.
   */
  function ReplaceByKey<T(!new), K(==)>(key: T -> K, rows: seq<T>, row: T): (r: seq<T>)
    ensures forall x :: x in r <==> x == row || (x in rows && key(x) != key(row))
    ensures |r| <= |rows| + 1
  {
    Filter(x => key(x) != key(row), rows) + [row]
  }

  /** A replacing insert keeps keys unique, leaves exactly one row with the new key, and keeps id order when the new id is the largest. */
  lemma ReplaceByKeyKeeps<T(!new), K>(key: T -> K, id: T -> int, rows: seq<T>, row: T)
    requires DistinctKeys(key, rows) && IncreasingKeys(id, rows)
    requires forall x :: x in rows ==> id(x) < id(row)
    ensures DistinctKeys(key, ReplaceByKey(key, rows, row))
    ensures IncreasingKeys(id, ReplaceByKey(key, rows, row))
    ensures forall x :: x in ReplaceByKey(key, rows, row) && key(x) == key(row) ==> x == row
  {
    var kept := Filter(x => key(x) != key(row), rows);
    FilterDistinctKeys(key, x => key(x) != key(row), rows);
    FilterIncreasingKeys(id, x => key(x) != key(row), rows);
    var r := kept + [row];
    assert r == ReplaceByKey(key, rows, row);
    forall i, j | 0 <= i < j < |r| ensures key(r[i]) != key(r[j]) && id(r[i]) < id(r[j]) {
      if j == |r| - 1 {
        assert r[i] in kept;
      } else {
        assert r[i] == kept[i] && r[j] == kept[j];
      }
    }
  }

  /** Filtering by a condition every element meets changes nothing. */
  lemma {:induction false} FilterAll<T(!new)>(f: T -> bool, s: seq<T>)
    requires forall x :: x in s ==> f(x)
    ensures Filter(f, s) == s
  {
    if s != [] {
      assert forall x :: x in s[1..] ==> x in s;
      FilterAll(f, s[1..]);
    }
  }

  /** A replacing insert of a key the table does not hold appends the row and keeps the rest in order. */
  lemma ReplaceByKeyAbsent<T(!new), K>(key: T -> K, rows: seq<T>, row: T)
    requires forall x :: x in rows ==> key(x) != key(row)
    ensures ReplaceByKey(key, rows, row) == rows + [row]
  {
    FilterAll(x => key(x) != key(row), rows);
  }

  /** The concatenation of a sequence of sequences, in order. */
  function Flatten<T(!new)>(ss: seq<seq<T>>): (r: seq<T>)
    ensures forall x :: x in r <==> exists i :: 0 <= i < |ss| && x in ss[i]
  {
    if ss == [] then []
    else ss[0] + Flatten(ss[1..])
  }

  lemma FlattenSnoc<T(!new)>(ss: seq<seq<T>>, s: seq<T>)
    ensures Flatten(ss + [s]) == Flatten(ss) + s
  {
    if ss == [] {
      assert [s][1..] == [];
    } else {
      assert (ss + [s])[1..] == ss[1..] + [s];
      FlattenSnoc(ss[1..], s);
    }
  }
}
