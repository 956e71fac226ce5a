/** Keyed operations on ordered row lists.

    The store keeps its files, its file states and its pending batches as
    plain lists. Inserts and pushes append to them; deletes, commits and
    rejects filter entries out by key; updates replace the entries that carry
    a given key. The filter and the replace are defined here once, generic in
    the row type and in the function that extracts a row's key. */
module KeyedSeq {

  /** The entries of `s` whose key is not in `drop`, in their original order. */
  function Without<T(!new), K(==)>(s: seq<T>, key: T -> K, drop: set<K>): (r: seq<T>)
    ensures |r| <= |s|
    ensures forall x :: x in r <==> x in s && key(x) !in drop
    ensures (forall i :: 0 <= i < |s| ==> key(s[i]) !in drop) ==> r == s
  {
    if s == [] then []
    else (if key(s[0]) in drop then [] else [s[0]]) + Without(s[1..], key, drop)
  }

  /** `s` where every entry sharing `row`'s key has become `row`. */
  function Replace<T, K(==)>(s: seq<T>, key: T -> K, row: T): (r: seq<T>)
    ensures |r| == |s|
    ensures forall i :: 0 <= i < |s| ==> key(r[i]) == key(s[i])
    ensures forall i :: 0 <= i < |s| && key(s[i]) == key(row) ==> r[i] == row
    ensures forall i :: 0 <= i < |s| && key(s[i]) != key(row) ==> r[i] == s[i]
  {
    if s == [] then []
    else [if key(s[0]) == key(row) then row else s[0]] + Replace(s[1..], key, row)
  }

  /** Some entry of `s` carries key `k`. */
  ghost predicate HasKey<T, K>(s: seq<T>, key: T -> K, k: K) {
    exists i :: 0 <= i < |s| && key(s[i]) == k
  }

  /** No two entries of `s` carry the same key. */
  ghost predicate UniqueKeys<T, K>(s: seq<T>, key: T -> K) {
    forall i, j :: 0 <= i < j < |s| ==> key(s[i]) != key(s[j])
  }

  /** Filtering distributes over concatenation; together with the one-entry
      case this pins `Without` down as the order-preserving filter. */
  lemma {:induction false} WithoutAppend<T(!new), K>(a: seq<T>, b: seq<T>, key: T -> K, drop: set<K>)
    ensures Without(a + b, key, drop) == Without(a, key, drop) + Without(b, key, drop)
  {
    if a == [] {
      assert a + b == b;
    } else {
      assert (a + b)[1..] == a[1..] + b;
      WithoutAppend(a[1..], b, key, drop);
    }
  }

  /** Filtering twice is filtering once by both sets of keys: so filters
      commute, and filtering again by the same keys changes nothing. */
  lemma {:induction false} WithoutWithout<T(!new), K>(s: seq<T>, key: T -> K, d1: set<K>, d2: set<K>)
    ensures Without(Without(s, key, d1), key, d2) == Without(s, key, d1 + d2)
  {
    if s != [] {
      var head := if key(s[0]) in d1 then [] else [s[0]];
      WithoutAppend(head, Without(s[1..], key, d1), key, d2);
      WithoutWithout(s[1..], key, d1, d2);
    }
  }

  /** Replacing distributes over concatenation. */
  lemma ReplaceAppend<T, K>(a: seq<T>, b: seq<T>, key: T -> K, row: T)
    ensures Replace(a + b, key, row) == Replace(a, key, row) + Replace(b, key, row)
  {
  }

  /** A delete after a replace: deleting the replaced key undoes the replace,
      deleting another key commutes with it. */
  lemma {:induction false} WithoutReplace<T(!new), K>(s: seq<T>, key: T -> K, row: T, drop: set<K>)
    ensures Without(Replace(s, key, row), key, drop)
         == if key(row) in drop then Without(s, key, drop)
            else Replace(Without(s, key, drop), key, row)
  {
    if s != [] {
      var x := if key(s[0]) == key(row) then row else s[0];
      assert Replace(s, key, row) == [x] + Replace(s[1..], key, row);
      WithoutAppend([x], Replace(s[1..], key, row), key, drop);
      WithoutReplace(s[1..], key, row, drop);
      if key(row) !in drop {
        var head := if key(s[0]) in drop then [] else [s[0]];
        ReplaceAppend(head, Without(s[1..], key, drop), key, row);
      }
    }
  }

  /** Of two replaces on one key the later wins; on different keys they commute. */
  lemma ReplaceReplace<T, K>(s: seq<T>, key: T -> K, r1: T, r2: T)
    ensures key(r1) == key(r2) ==> Replace(Replace(s, key, r1), key, r2) == Replace(s, key, r2)
    ensures key(r1) != key(r2) ==>
      Replace(Replace(s, key, r1), key, r2) == Replace(Replace(s, key, r2), key, r1)
  {
  }

  /** Filtering never creates a duplicate key. */
  lemma {:induction false} WithoutKeepsUniqueKeys<T(!new), K>(s: seq<T>, key: T -> K, drop: set<K>)
    requires UniqueKeys(s, key)
    ensures UniqueKeys(Without(s, key, drop), key)
  {
    if s != [] {
      var tail := Without(s[1..], key, drop);
      WithoutKeepsUniqueKeys(s[1..], key, drop);
      forall j | 0 <= j < |tail| ensures key(s[0]) != key(tail[j]) {
        assert tail[j] in s[1..];
        var k :| 0 <= k < |s[1..]| && s[1..][k] == tail[j];
        assert s[k + 1] == tail[j];
      }
    }
  }

  /** Appending a row keeps keys unique exactly when its key is new. */
  lemma AppendUniqueKeys<T, K>(s: seq<T>, key: T -> K, row: T)
    requires UniqueKeys(s, key)
    ensures UniqueKeys(s + [row], key) <==> !HasKey(s, key, key(row))
  {
    var t := s + [row];
    if HasKey(s, key, key(row)) {
      var i :| 0 <= i < |s| && key(s[i]) == key(row);
      assert key(t[i]) == key(t[|s|]);
    } else {
      forall i, j | 0 <= i < j < |t| ensures key(t[i]) != key(t[j]) {
        if j == |s| {
          assert key(s[i]) != key(row);
        }
      }
    }
  }
}
