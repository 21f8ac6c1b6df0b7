/** Stable sorting by a key, and what is left to chance in it: nothing, when the keys differ. */
module StableSort {

  type Less<!K> = (K, K) -> bool

  ghost predicate StrictOrder<K(!new)>(lt: Less<K>) {
    && (forall a :: !lt(a, a))
    && (forall a, b, c :: lt(a, b) && lt(b, c) ==> lt(a, c))
    && forall a, b :: lt(a, b) || a == b || lt(b, a)
  }

  /** Behind everything that is not greater. */
  function Insert<T, K>(key: T -> K, lt: Less<K>, s: seq<T>, x: T): (r: seq<T>)
    ensures |r| == |s| + 1
  {
    if s == [] || !lt(key(x), key(s[|s| - 1])) then s + [x]
    else Insert(key, lt, s[..|s| - 1], x) + [s[|s| - 1]]
  }

  function Sort<T, K>(key: T -> K, lt: Less<K>, items: seq<T>): (r: seq<T>)
    ensures |r| == |items|
  {
    if items == [] then [] else Insert(key, lt, Sort(key, lt, items[..|items| - 1]), items[|items| - 1])
  }

  ghost predicate Sorted<T, K>(key: T -> K, lt: Less<K>, s: seq<T>) {
    forall i, j :: 0 <= i < j < |s| ==> !lt(key(s[j]), key(s[i]))
  }

  ghost predicate StrictlySorted<T, K>(key: T -> K, lt: Less<K>, s: seq<T>) {
    forall i, j :: 0 <= i < j < |s| ==> lt(key(s[i]), key(s[j]))
  }

  /** The check on neighbours after sorting. */
  predicate NeighboursDiffer<T, K(==)>(key: T -> K, s: seq<T>) {
    forall i :: 0 <= i < |s| - 1 ==> key(s[i]) != key(s[i + 1])
  }

  lemma {:induction false} InsertIsPermutation<T, K>(key: T -> K, lt: Less<K>, s: seq<T>, x: T)
    ensures multiset(Insert(key, lt, s, x)) == multiset(s) + multiset{x}
  {
    if s == [] || !lt(key(x), key(s[|s| - 1])) {
    } else {
      InsertIsPermutation(key, lt, s[..|s| - 1], x);
      assert s == s[..|s| - 1] + [s[|s| - 1]];
    }
  }

  lemma {:induction false} SortIsPermutation<T, K>(key: T -> K, lt: Less<K>, items: seq<T>)
    ensures multiset(Sort(key, lt, items)) == multiset(items)
  {
    if items != [] {
      var front := items[..|items| - 1];
      SortIsPermutation(key, lt, front);
      InsertIsPermutation(key, lt, Sort(key, lt, front), items[|items| - 1]);
      assert items == front + [items[|items| - 1]];
    }
  }

  lemma {:induction false} InsertSorts<T, K(!new)>(key: T -> K, lt: Less<K>, s: seq<T>, x: T)
    requires StrictOrder(lt) && Sorted(key, lt, s)
    ensures Sorted(key, lt, Insert(key, lt, s, x))
  {
    if s == [] {
    } else if !lt(key(x), key(s[|s| - 1])) {
      forall i | 0 <= i < |s|
        ensures !lt(key(x), key(s[i]))
      {
        assert !lt(key(s[|s| - 1]), key(s[i]));
      }
    } else {
      var front, last := s[..|s| - 1], s[|s| - 1];
      var r := Insert(key, lt, front, x);
      InsertSorts(key, lt, front, x);
      InsertIsPermutation(key, lt, front, x);
      forall i | 0 <= i < |r|
        ensures !lt(key(last), key(r[i]))
      {
        assert r[i] in multiset(r);
        assert r[i] == x || r[i] in front;
      }
    }
  }

  lemma {:induction false} SortSorts<T, K(!new)>(key: T -> K, lt: Less<K>, items: seq<T>)
    requires StrictOrder(lt)
    ensures Sorted(key, lt, Sort(key, lt, items))
  {
    if items != [] {
      SortSorts(key, lt, items[..|items| - 1]);
      InsertSorts(key, lt, Sort(key, lt, items[..|items| - 1]), items[|items| - 1]);
    }
  }

  /** Looking at neighbours is enough to find any two equal keys. */
  lemma {:induction false} NeighboursDecide<T, K(!new)>(key: T -> K, lt: Less<K>, s: seq<T>)
    requires StrictOrder(lt) && Sorted(key, lt, s)
    ensures NeighboursDiffer(key, s) <==> StrictlySorted(key, lt, s)
  {
    if StrictlySorted(key, lt, s) {
      forall i | 0 <= i < |s| - 1
        ensures key(s[i]) != key(s[i + 1])
      {
        var j := i + 1;
        assert lt(key(s[i]), key(s[j]));
      }
    }
    if NeighboursDiffer(key, s) && |s| > 1 {
      var n := |s| - 1;
      var front := s[..n];
      forall i | 0 <= i < |front| - 1
        ensures key(front[i]) != key(front[i + 1])
      {
        assert key(s[i]) != key(s[i + 1]);
      }
      NeighboursDecide(key, lt, front);
      var k := n - 1;
      assert key(s[k]) != key(s[k + 1]) && !lt(key(s[n]), key(s[k]));
      forall i, j | 0 <= i < j < |s|
        ensures lt(key(s[i]), key(s[j]))
      {
        assert j < n ==> s[i] == front[i] && s[j] == front[j];
        assert j == n && i < k ==> lt(key(front[i]), key(front[k]));
      }
    }
  }

  lemma StrictlyLast<T, K(!new)>(key: T -> K, lt: Less<K>, s: seq<T>, x: T)
    requires StrictlySorted(key, lt, s) && x in s
    ensures x == s[|s| - 1] || lt(key(x), key(s[|s| - 1]))
  {}

  lemma NothingAboveLast<T, K(!new)>(key: T -> K, lt: Less<K>, s: seq<T>, x: T)
    requires StrictOrder(lt) && Sorted(key, lt, s) && x in s
    ensures !lt(key(s[|s| - 1]), key(x))
  {}

  lemma SameLast<T, K(!new)>(key: T -> K, lt: Less<K>, a: seq<T>, b: seq<T>)
    requires StrictOrder(lt) && StrictlySorted(key, lt, a) && Sorted(key, lt, b)
    requires multiset(a) == multiset(b) && a != [] && b != []
    ensures a[|a| - 1] == b[|b| - 1]
  {
    var x, y := a[|a| - 1], b[|b| - 1];
    assert x in multiset(b) && y in multiset(a);
    StrictlyLast(key, lt, a, y);
    NothingAboveLast(key, lt, b, x);
  }

  lemma WithoutLast<T>(a: seq<T>, b: seq<T>)
    requires a != [] && b != [] && a[|a| - 1] == b[|b| - 1] && multiset(a) == multiset(b)
    ensures multiset(a[..|a| - 1]) == multiset(b[..|b| - 1])
  {
    assert a == a[..|a| - 1] + [a[|a| - 1]] && b == b[..|b| - 1] + [b[|b| - 1]];
    assert multiset(a[..|a| - 1]) == multiset(a) - multiset{a[|a| - 1]};
    assert multiset(b[..|b| - 1]) == multiset(b) - multiset{b[|b| - 1]};
  }

  /** A strictly sorted sequence is the only sorted arrangement of its elements. */
  lemma {:induction false} StrictIsUnique<T, K(!new)>(key: T -> K, lt: Less<K>, a: seq<T>, b: seq<T>)
    requires StrictOrder(lt) && StrictlySorted(key, lt, a) && Sorted(key, lt, b)
    requires multiset(a) == multiset(b)
    ensures a == b
  {
    assert |multiset(a)| == |a| && |multiset(b)| == |b|;
    if a != [] {
      SameLast(key, lt, a, b);
      WithoutLast(a, b);
      StrictIsUnique(key, lt, a[..|a| - 1], b[..|b| - 1]);
      assert a == a[..|a| - 1] + [a[|a| - 1]] && b == b[..|b| - 1] + [b[|b| - 1]];
    }
  }

  /** Sorting leaves a strictly sorted sequence as it is. */
  lemma SortIsIdentity<T, K(!new)>(key: T -> K, lt: Less<K>, s: seq<T>)
    requires StrictOrder(lt) && StrictlySorted(key, lt, s)
    ensures Sort(key, lt, s) == s
  {
    SortIsPermutation(key, lt, s);
    SortSorts(key, lt, s);
    StrictIsUnique(key, lt, s, Sort(key, lt, s));
  }

  /** What sorting and the check on neighbours make of a permutation: the same outcome, and the same sequence. */
  lemma SortOfPermutation<T, K(!new)>(key: T -> K, lt: Less<K>, a: seq<T>, b: seq<T>)
    requires StrictOrder(lt) && multiset(a) == multiset(b)
    ensures NeighboursDiffer(key, Sort(key, lt, a)) <==> NeighboursDiffer(key, Sort(key, lt, b))
    ensures NeighboursDiffer(key, Sort(key, lt, a)) ==> Sort(key, lt, a) == Sort(key, lt, b)
  {
    var sa, sb := Sort(key, lt, a), Sort(key, lt, b);
    SortIsPermutation(key, lt, a);
    SortIsPermutation(key, lt, b);
    SortSorts(key, lt, a);
    SortSorts(key, lt, b);
    NeighboursDecide(key, lt, sa);
    NeighboursDecide(key, lt, sb);
    if NeighboursDiffer(key, sa) {
      StrictIsUnique(key, lt, sa, sb);
    } else if NeighboursDiffer(key, sb) {
      StrictIsUnique(key, lt, sb, sa);
    }
  }
}
