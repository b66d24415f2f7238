/**
 * Python's `sorted(xs, key=...)` for the keys the document review uses:
 * a severity rank followed by up to two strings, compared as a tuple.
 * The sort is an insertion sort; it is stable, as Python's is.
 */
module Sorting {
  import opened Text

  /** A sort key `(rank, primary, secondary)`; unused positions hold "". */
  datatype SortKey = SortKey(rank: int, primary: string, secondary: string)

  /** Tuple comparison `a <= b`. */
  predicate KeyLe(a: SortKey, b: SortKey) {
    a.rank < b.rank
    || (a.rank == b.rank
        && ((StrLe(a.primary, b.primary) && a.primary != b.primary)
            || (a.primary == b.primary && StrLe(a.secondary, b.secondary))))
  }

  lemma KeyLeReflexive(a: SortKey)
    ensures KeyLe(a, a)
  {
    StrLeTotal(a.secondary, a.secondary);
  }

  lemma KeyLeTotal(a: SortKey, b: SortKey)
    ensures KeyLe(a, b) || KeyLe(b, a)
  {
    StrLeTotal(a.primary, b.primary);
    StrLeTotal(a.secondary, b.secondary);
  }

  lemma KeyLeTransitive(a: SortKey, b: SortKey, c: SortKey)
    requires KeyLe(a, b) && KeyLe(b, c)
    ensures KeyLe(a, c)
  {
    if a.rank == b.rank == c.rank {
      StrLeTotal(b.primary, b.primary);
      StrLeTotal(c.primary, c.primary);
      if a.primary == b.primary == c.primary {
        StrLeTransitive(a.secondary, b.secondary, c.secondary);
      } else {
        StrLeTransitive(a.primary, b.primary, c.primary);
        if a.primary == c.primary {
          StrLeAntisymmetric(a.primary, b.primary);
        }
      }
    }
  }

  ghost predicate SortedBy<T>(s: seq<T>, key: T -> SortKey) {
    forall i, j :: 0 <= i < j < |s| ==> KeyLe(key(s[i]), key(s[j]))
  }

  /** The elements of `s` whose key is `k`, in their order in `s`. */
  function WithKey<T>(s: seq<T>, key: T -> SortKey, k: SortKey): seq<T> {
    if s == [] then [] else (if key(s[0]) == k then [s[0]] else []) + WithKey(s[1..], key, k)
  }

  /** Inserts `x` in front of the first element whose key is not below `x`'s. */
  function Insert<T>(x: T, t: seq<T>, key: T -> SortKey): seq<T> {
    if t == [] then [x]
    else if KeyLe(key(x), key(t[0])) then [x] + t
    else [t[0]] + Insert(x, t[1..], key)
  }

  /** `sorted(s, key=key)`. */
  function SortBy<T>(s: seq<T>, key: T -> SortKey): seq<T> {
    if s == [] then [] else Insert(s[0], SortBy(s[1..], key), key)
  }

  lemma {:induction false} InsertPermutes<T>(x: T, t: seq<T>, key: T -> SortKey)
    ensures multiset(Insert(x, t, key)) == multiset(t) + multiset{x}
  {
    if t != [] && !KeyLe(key(x), key(t[0])) {
      InsertPermutes(x, t[1..], key);
      assert t == [t[0]] + t[1..];
    }
  }

  lemma {:induction false} InsertSorted<T>(x: T, t: seq<T>, key: T -> SortKey)
    requires SortedBy(t, key)
    ensures SortedBy(Insert(x, t, key), key)
  {
    if t == [] {
    } else if KeyLe(key(x), key(t[0])) {
      forall j | 0 <= j < |t| ensures KeyLe(key(x), key(t[j])) {
        if j > 0 { KeyLeTransitive(key(x), key(t[0]), key(t[j])); }
      }
    } else {
      KeyLeTotal(key(x), key(t[0]));
      InsertSorted(x, t[1..], key);
      var r := Insert(x, t[1..], key);
      InsertPermutes(x, t[1..], key);
      forall j | 0 <= j < |r| ensures KeyLe(key(t[0]), key(r[j])) {
        assert r[j] in multiset(r);
        assert r[j] == x || r[j] in multiset(t[1..]);
        if r[j] != x {
          var m :| 0 <= m < |t[1..]| && t[1..][m] == r[j];
          assert t[m + 1] == r[j];
        }
      }
    }
  }

  lemma {:induction false} SortByPermutes<T>(s: seq<T>, key: T -> SortKey)
    ensures multiset(SortBy(s, key)) == multiset(s)
  {
    if s != [] {
      var rest := SortBy(s[1..], key);
      SortByPermutes(s[1..], key);
      InsertPermutes(s[0], rest, key);
      assert s == [s[0]] + s[1..];
    }
  }

  lemma {:induction false} SortBySorted<T>(s: seq<T>, key: T -> SortKey)
    ensures SortedBy(SortBy(s, key), key)
  {
    if s != [] {
      SortBySorted(s[1..], key);
      InsertSorted(s[0], SortBy(s[1..], key), key);
    }
  }

  /** The sorted list is a permutation of the input, in key order. */
  lemma SortByCorrect<T>(s: seq<T>, key: T -> SortKey)
    ensures multiset(SortBy(s, key)) == multiset(s)
    ensures |SortBy(s, key)| == |s|
    ensures SortedBy(SortBy(s, key), key)
  {
    SortByPermutes(s, key);
    SortBySorted(s, key);
    var r := SortBy(s, key);
    assert |multiset(r)| == |r|;
  }

  lemma {:induction false} InsertStable<T>(x: T, t: seq<T>, key: T -> SortKey, k: SortKey)
    ensures WithKey(Insert(x, t, key), key, k) == WithKey([x] + t, key, k)
  {
    if t == [] {
    } else if KeyLe(key(x), key(t[0])) {
    } else {
      InsertStable(x, t[1..], key, k);
      KeyLeReflexive(key(x));
      assert key(x) != key(t[0]);
      assert ([x] + t)[1..] == t;
      assert ([x] + t[1..])[1..] == t[1..];
      assert (([t[0]] + Insert(x, t[1..], key)))[1..] == Insert(x, t[1..], key);
      assert t == [t[0]] + t[1..];
    }
  }

  /** Stability: for every key value, the elements carrying it keep their
      relative order. */
  lemma {:induction false} SortByStable<T>(s: seq<T>, key: T -> SortKey, k: SortKey)
    ensures WithKey(SortBy(s, key), key, k) == WithKey(s, key, k)
  {
    if s != [] {
      SortByStable(s[1..], key, k);
      InsertStable(s[0], SortBy(s[1..], key), key, k);
      assert ([s[0]] + SortBy(s[1..], key))[1..] == SortBy(s[1..], key);
    }
  }

  /** A sorted list starts with an element of least key. */
  lemma SortedHeadIsLeast<T>(s: seq<T>, key: T -> SortKey, i: nat)
    requires SortedBy(s, key) && i < |s|
    ensures KeyLe(key(s[0]), key(s[i]))
  {
    if i == 0 { KeyLeReflexive(key(s[0])); }
  }
}
