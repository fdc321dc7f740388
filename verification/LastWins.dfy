/** Tables filled from a list by repeated assignment: of several entries with one key the last one counts. */
module LastWins {

  function TableUpTo<K, V>(entries: seq<(K, V)>, n: nat): map<K, V>
    requires n <= |entries|
  {
    if n == 0 then map[] else TableUpTo(entries, n - 1)[entries[n - 1].0 := entries[n - 1].1]
  }

  function Table<K, V>(entries: seq<(K, V)>): map<K, V> {
    TableUpTo(entries, |entries|)
  }

  /** Entry `i` is the last of the first `n` with its key. */
  ghost predicate IsLast<K, V>(entries: seq<(K, V)>, n: nat, i: nat)
    requires i < n <= |entries|
  {
    forall i' | i < i' < n :: entries[i'].0 != entries[i].0
  }

  /** The table holds the keys of the entries, each with the value of its last entry. */
  lemma {:induction false} TableMeaning<K, V>(entries: seq<(K, V)>, n: nat)
    requires n <= |entries|
    ensures forall i | 0 <= i < n :: entries[i].0 in TableUpTo(entries, n)
    ensures forall k | k in TableUpTo(entries, n) ::
      exists i :: 0 <= i < n && entries[i].0 == k && IsLast(entries, n, i)
    ensures forall i | 0 <= i < n && IsLast(entries, n, i) :: TableUpTo(entries, n)[entries[i].0] == entries[i].1
  {
    if n > 0 {
      TableMeaning(entries, n - 1);
      forall k | k in TableUpTo(entries, n)
        ensures exists i :: 0 <= i < n && entries[i].0 == k && IsLast(entries, n, i)
      {
        if entries[n - 1].0 == k {
          assert IsLast(entries, n, n - 1);
        } else {
          var i :| 0 <= i < n - 1 && entries[i].0 == k && IsLast(entries, n - 1, i);
          assert IsLast(entries, n, i);
        }
      }
      forall i | 0 <= i < n && IsLast(entries, n, i)
        ensures TableUpTo(entries, n)[entries[i].0] == entries[i].1
      {
        if i < n - 1 {
          assert IsLast(entries, n - 1, i);
          assert entries[n - 1].0 != entries[i].0;
        }
      }
    }
  }

  /** Lists with the same keys fill tables with the same keys. */
  lemma {:induction false} SameKeys<K, V, W>(a: seq<(K, V)>, b: seq<(K, W)>, n: nat)
    requires n <= |a| && n <= |b| && forall i | 0 <= i < n :: a[i].0 == b[i].0
    ensures TableUpTo(a, n).Keys == TableUpTo(b, n).Keys
  {
    if n > 0 {
      SameKeys(a, b, n - 1);
    }
  }

  /** A longer list agrees with its prefix on the entries of the prefix. */
  lemma {:induction false} TablePrefix<K, V>(a: seq<(K, V)>, b: seq<(K, V)>, n: nat)
    requires n <= |a| <= |b| && forall i | 0 <= i < n :: a[i] == b[i]
    ensures TableUpTo(a, n) == TableUpTo(b, n)
  {
    if n > 0 {
      TablePrefix(a, b, n - 1);
    }
  }

  lemma TableSnoc<K, V>(entries: seq<(K, V)>, e: (K, V))
    ensures Table(entries + [e]) == Table(entries)[e.0 := e.1]
  {
    TablePrefix(entries, entries + [e], |entries|);
  }

  lemma {:induction false} TableConcat<K, V>(a: seq<(K, V)>, b: seq<(K, V)>)
    ensures Table(a + b) == Table(a) + Table(b)
  {
    if b == [] {
      assert a + b == a;
    } else {
      var b', e := b[..|b| - 1], b[|b| - 1];
      assert a + b == (a + b') + [e] && b == b' + [e];
      TableConcat(a, b');
      TableSnoc(a + b', e);
      TableSnoc(b', e);
    }
  }
}
