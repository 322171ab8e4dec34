/**
 * `Array.prototype.sort` with a comparator, as the services use it: a stable
 * sort (ECMAScript 2019 requires stability) that orders elements by a key.
 * The model is a stable insertion sort; the lemmas state that its result is a
 * permutation of the input, ordered by the key, and unchanged when the input
 * is already ordered.
 */
module Sorting {

  /** `le` orders keys: it is total and transitive (ties allowed). */
  ghost predicate TotalPreorder<K(!new)>(le: (K, K) -> bool)
  {
    (forall a, b :: le(a, b) || le(b, a)) &&
    (forall a, b, c :: le(a, b) && le(b, c) ==> le(a, c))
  }

  /** The comparator `(a, b) => a - b` on integer keys: ascending order. */
  function LeInt(a: int, b: int): bool { a <= b }

  /** The comparator `(a, b) => b - a` on integer keys: descending order. */
  function GeInt(a: int, b: int): bool { a >= b }

  lemma IntOrdersAreTotalPreorders()
    ensures TotalPreorder(LeInt) && TotalPreorder(GeInt)
  {
  }

  /** Every element's key is `le` every later element's key. */
  ghost predicate SortedBy<T, K>(s: seq<T>, key: T -> K, le: (K, K) -> bool)
  {
    forall i, j :: 0 <= i < j < |s| ==> le(key(s[i]), key(s[j]))
  }

  /**
   * Inserts `x` into the ordered `t` after every element whose key is `le`
   * the key of `x`: equal keys keep their input order.
   */
  function Insert<T, K>(t: seq<T>, x: T, key: T -> K, le: (K, K) -> bool): (r: seq<T>)
    ensures multiset(r) == multiset(t) + multiset{x}
    ensures |r| == |t| + 1
  {
    if t == [] then [x]
    else if le(key(t[|t| - 1]), key(x)) then t + [x]
    else
      var init := t[..|t| - 1];
      assert t == init + [t[|t| - 1]];
      Insert(init, x, key, le) + [t[|t| - 1]]
  }

  /** The stable sort of `s` by `key` under the order `le`. */
  function SortBy<T, K>(s: seq<T>, key: T -> K, le: (K, K) -> bool): (r: seq<T>)
    ensures multiset(r) == multiset(s)
    ensures |r| == |s|
  {
    if s == [] then []
    else
      assert s == s[..|s| - 1] + [s[|s| - 1]];
      Insert(SortBy(s[..|s| - 1], key, le), s[|s| - 1], key, le)
  }

  lemma {:induction false} InsertSorted<T, K(!new)>(t: seq<T>, x: T, key: T -> K, le: (K, K) -> bool)
    requires TotalPreorder(le)
    requires SortedBy(t, key, le)
    ensures SortedBy(Insert(t, x, key, le), key, le)
  {
    if t != [] && !le(key(t[|t| - 1]), key(x)) {
      var init := t[..|t| - 1];
      var last := t[|t| - 1];
      assert SortedBy(init, key, le);
      InsertSorted(init, x, key, le);
      var ins := Insert(init, x, key, le);
      assert le(key(x), key(last));
      forall i | 0 <= i < |ins| ensures le(key(ins[i]), key(last)) {
        assert ins[i] in multiset(ins);
        if ins[i] != x {
          assert ins[i] in multiset(init);
          var k :| 0 <= k < |init| && init[k] == ins[i];
          assert t[k] == ins[i];
        }
      }
    }
  }

  /** The sort returns a permutation of its input ordered by the key. */
  lemma {:induction false} SortBySorted<T, K(!new)>(s: seq<T>, key: T -> K, le: (K, K) -> bool)
    requires TotalPreorder(le)
    ensures SortedBy(SortBy(s, key, le), key, le)
    ensures multiset(SortBy(s, key, le)) == multiset(s)
  {
    if s != [] {
      SortBySorted(s[..|s| - 1], key, le);
      InsertSorted(SortBy(s[..|s| - 1], key, le), s[|s| - 1], key, le);
    }
  }

  /** Stability: an input that is already ordered comes back unchanged. */
  lemma {:induction false} SortByOfSorted<T, K>(s: seq<T>, key: T -> K, le: (K, K) -> bool)
    requires SortedBy(s, key, le)
    ensures SortBy(s, key, le) == s
  {
    if s != [] {
      var init := s[..|s| - 1];
      assert SortedBy(init, key, le);
      SortByOfSorted(init, key, le);
      assert s == init + [s[|s| - 1]];
      if init != [] {
        assert le(key(init[|init| - 1]), key(s[|s| - 1]));
      }
    }
  }

  /** The elements of `s` whose key is `k`, in their order in `s`. */
  function WithKey<T, K(==)>(s: seq<T>, key: T -> K, k: K): (r: seq<T>)
    ensures |r| <= |s|
  {
    if s == [] then [] else WithKey(s[..|s| - 1], key, k) + KeyPart(s[|s| - 1], key, k)
  }

  /** `[x]` when `x` has the key `k`, nothing otherwise. */
  function KeyPart<T, K(==)>(x: T, key: T -> K, k: K): seq<T>
  {
    if key(x) == k then [x] else []
  }

  lemma WithKeyLast<T, K>(s: seq<T>, x: T, key: T -> K, k: K)
    ensures WithKey(s + [x], key, k) == WithKey(s, key, k) + KeyPart(x, key, k)
  {
    assert (s + [x])[..|s|] == s;
  }

  /** Inserting `x` puts it after every element of its own key. */
  lemma {:induction false} InsertWithKey<T, K>(t: seq<T>, x: T, key: T -> K, le: (K, K) -> bool, k: K)
    requires le(key(x), key(x))
    ensures WithKey(Insert(t, x, key, le), key, k) == WithKey(t, key, k) + KeyPart(x, key, k)
  {
    if t == [] {
      assert [] + [x] == [x];
      WithKeyLast([], x, key, k);
    } else if le(key(t[|t| - 1]), key(x)) {
      WithKeyLast(t, x, key, k);
    } else {
      var init := t[..|t| - 1];
      var last := t[|t| - 1];
      assert t == init + [last];
      InsertPastLast(t, x, key, le);
      InsertWithKey(init, x, key, le, k);
      WithKeyLast(Insert(init, x, key, le), last, key, k);
      WithKeyLast(init, last, key, k);
      OneEmptyCommutes(WithKey(init, key, k), KeyPart(x, key, k), KeyPart(last, key, k));
    }
  }

  /** `Insert` when `x` goes before the last element. */
  lemma InsertPastLast<T, K>(t: seq<T>, x: T, key: T -> K, le: (K, K) -> bool)
    requires t != [] && !le(key(t[|t| - 1]), key(x))
    ensures Insert(t, x, key, le) == Insert(t[..|t| - 1], x, key, le) + [t[|t| - 1]]
  {
  }

  lemma OneEmptyCommutes<T>(w: seq<T>, p: seq<T>, q: seq<T>)
    requires p == [] || q == []
    ensures w + p + q == w + q + p
  {
  }

  /**
   * Stability: for every key, the elements with that key appear in the
   * sorted sequence in the same order as in the input. Every comparator that
   * is a total preorder is reflexive, which is all the proof needs.
   */
  lemma {:induction false} SortByStable<T, K(!new)>(s: seq<T>, key: T -> K, le: (K, K) -> bool, k: K)
    requires forall a :: le(a, a)
    ensures WithKey(SortBy(s, key, le), key, k) == WithKey(s, key, k)
  {
    if s != [] {
      var init := s[..|s| - 1];
      var last := s[|s| - 1];
      assert s == init + [last];
      SortByStable(init, key, le, k);
      InsertWithKey(SortBy(init, key, le), last, key, le, k);
      WithKeyLast(init, last, key, k);
    }
  }

  /** Two positions of the sorted sequence are in key order. */
  lemma SortedAt<T, K(!new)>(s: seq<T>, key: T -> K, le: (K, K) -> bool, i: nat, j: nat)
    requires TotalPreorder(le)
    requires i < j < |s|
    ensures le(key(SortBy(s, key, le)[i]), key(SortBy(s, key, le)[j]))
  {
    SortBySorted(s, key, le);
  }

  /** In an ordered permutation the first element has a least key and the last a greatest one. */
  lemma SortedEnds<T, K(!new)>(s: seq<T>, key: T -> K, le: (K, K) -> bool, i: nat)
    requires TotalPreorder(le)
    requires i < |s|
    ensures le(key(SortBy(s, key, le)[0]), key(s[i]))
    ensures le(key(s[i]), key(SortBy(s, key, le)[|s| - 1]))
  {
    var r := SortBy(s, key, le);
    SortBySorted(s, key, le);
    assert s[i] in multiset(s);
    assert s[i] in multiset(r);
    var k :| 0 <= k < |r| && r[k] == s[i];
    assert le(key(s[i]), key(s[i]));
  }

  /** Every element of the sorted sequence comes from the input, and every input element is in it. */
  lemma SortByMembers<T, K>(s: seq<T>, key: T -> K, le: (K, K) -> bool, r: seq<T>)
    requires r == SortBy(s, key, le)
    ensures forall i :: 0 <= i < |r| ==> exists j :: 0 <= j < |s| && r[i] == s[j]
    ensures forall j :: 0 <= j < |s| ==> exists i :: 0 <= i < |r| && r[i] == s[j]
  {
    assert multiset(r) == multiset(s);
    forall i | 0 <= i < |r| ensures exists j :: 0 <= j < |s| && r[i] == s[j] {
      assert r[i] in multiset(r);
      assert r[i] in s;
    }
    forall j | 0 <= j < |s| ensures exists i :: 0 <= i < |r| && r[i] == s[j] {
      assert s[j] in multiset(s);
      assert s[j] in r;
    }
  }
}
