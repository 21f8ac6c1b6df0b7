/** Canonical form of a value: map keys in length-first order (section 4.2.3 of RFC 8949), none twice. */
module CanonicalValue {
  import opened Wrappers
  import opened Machine
  import opened Cbor
  import opened BlockBasics
  import opened Permutation
  import Recency
  import SortKeys
  import StableSort

  /** Shorter encodings first, then byte by byte. */
  predicate LengthFirst(a: seq<Byte>, b: seq<Byte>) {
    |a| < |b| || (|a| == |b| && SortKeys.CompareSlices(a, b) == SortKeys.Less)
  }

  lemma LengthFirstIsStrict()
    ensures StableSort.StrictOrder(LengthFirst)
  {
    forall a: seq<Byte>, b: seq<Byte>
      ensures !LengthFirst(a, a)
      ensures LengthFirst(a, b) || a == b || LengthFirst(b, a)
    {
      SortKeys.SlicesOrder(a, a);
      SortKeys.SlicesOrder(a, b);
      SortKeys.SlicesOrder(b, a);
    }
    forall a: seq<Byte>, b: seq<Byte>, c: seq<Byte> | LengthFirst(a, b) && LengthFirst(b, c)
      ensures LengthFirst(a, c)
    {
      if |a| == |b| == |c| {
        SortKeys.SlicesTransitive(a, b, c);
      }
    }
  }

  /** Two encodings of the same length part at `i`, where `a` has the smaller byte. */
  predicate FirstSmaller(a: seq<Byte>, b: seq<Byte>, i: nat) {
    i < |a| == |b| && a[..i] == b[..i] && a[i] < b[i]
  }

  lemma LengthThenBytes(a: seq<Byte>, b: seq<Byte>)
    ensures LengthFirst(a, b) <==> |a| < |b| || exists i: nat :: FirstSmaller(a, b, i)
  {
    SortKeys.SlicesByPosition(a, b);
    if |a| == |b| {
      forall i: nat
        ensures FirstSmaller(a, b, i) <==> SortKeys.PartsBelow(a, b, i)
      {}
    }
  }

  function KeyBytes(pair: Pair): seq<Byte> {
    Encode(pair.key)
  }

  function SortPairs(pairs: seq<Pair>): seq<Pair> {
    StableSort.Sort(KeyBytes, LengthFirst, pairs)
  }

  predicate KeysDiffer(sorted: seq<Pair>) {
    StableSort.NeighboursDiffer(KeyBytes, sorted)
  }

  ghost predicate StrictKeys(pairs: seq<Pair>) {
    StableSort.StrictlySorted(KeyBytes, LengthFirst, pairs)
  }

  lemma SortedPairsStay(pairs: seq<Pair>)
    requires StrictKeys(pairs)
    ensures SortPairs(pairs) == pairs && KeysDiffer(pairs)
  {
    LengthFirstIsStrict();
    StableSort.SortIsIdentity(KeyBytes, LengthFirst, pairs);
    StableSort.NeighboursDecide(KeyBytes, LengthFirst, pairs);
  }

  lemma SortPairsSorts(pairs: seq<Pair>)
    ensures multiset(SortPairs(pairs)) == multiset(pairs)
    ensures KeysDiffer(SortPairs(pairs)) ==> StrictKeys(SortPairs(pairs))
  {
    LengthFirstIsStrict();
    StableSort.SortIsPermutation(KeyBytes, LengthFirst, pairs);
    StableSort.SortSorts(KeyBytes, LengthFirst, pairs);
    StableSort.NeighboursDecide(KeyBytes, LengthFirst, SortPairs(pairs));
  }

  lemma SortPairsOfPermutation(a: seq<Pair>, b: seq<Pair>)
    requires multiset(a) == multiset(b)
    ensures KeysDiffer(SortPairs(a)) <==> KeysDiffer(SortPairs(b))
    ensures KeysDiffer(SortPairs(a)) ==> SortPairs(a) == SortPairs(b)
  {
    LengthFirstIsStrict();
    StableSort.SortOfPermutation(KeyBytes, LengthFirst, a, b);
  }

  function Canonicalize(v: Value): Result<Value, BlockError>
    decreases v
  {
    match v
    case Array(items) =>
      var canonical :- CanonicalizeItems(items);
      Ok(Array(canonical))
    case Map(pairs) =>
      var canonical :- CanonicalizePairs(pairs);
      if KeysDiffer(SortPairs(canonical)) then Ok(Map(SortPairs(canonical))) else Err(NonConforming)
    case _ => Ok(v)
  }

  function CanonicalizeItems(items: seq<Value>): (r: Result<seq<Value>, BlockError>)
    ensures r.Ok? ==> |r.value| == |items|
    decreases items
  {
    if items == [] then Ok([])
    else
      var first :- Canonicalize(items[0]);
      var rest :- CanonicalizeItems(items[1..]);
      Ok([first] + rest)
  }

  function CanonicalizePair(pair: Pair): Result<Pair, BlockError>
    decreases pair
  {
    var key :- Canonicalize(pair.key);
    var value :- Canonicalize(pair.value);
    Ok(Pair(key, value))
  }

  function CanonicalizePairs(pairs: seq<Pair>): (r: Result<seq<Pair>, BlockError>)
    ensures r.Ok? ==> |r.value| == |pairs|
    decreases pairs
  {
    if pairs == [] then Ok([])
    else
      var first :- CanonicalizePair(pairs[0]);
      var rest :- CanonicalizePairs(pairs[1..]);
      Ok([first] + rest)
  }

  predicate IsCanonical(v: Value) {
    Canonicalize(v) == Ok(v)
  }

  predicate IsCanonicalPair(pair: Pair) {
    IsCanonical(pair.key) && IsCanonical(pair.value)
  }

  lemma {:induction false} CanonicalItemsStay(items: seq<Value>)
    requires forall i :: 0 <= i < |items| ==> IsCanonical(items[i])
    ensures CanonicalizeItems(items) == Ok(items)
  {
    if items != [] {
      assert IsCanonical(items[0]);
      CanonicalItemsStay(items[1..]);
      assert [items[0]] + items[1..] == items;
    }
  }

  lemma {:induction false} CanonicalPairsStay(pairs: seq<Pair>)
    requires forall i :: 0 <= i < |pairs| ==> IsCanonicalPair(pairs[i])
    ensures CanonicalizePairs(pairs) == Ok(pairs)
  {
    if pairs != [] {
      assert IsCanonicalPair(pairs[0]);
      CanonicalPairsStay(pairs[1..]);
      assert [pairs[0]] + pairs[1..] == pairs;
    }
  }

  /** Canonical pairs in strictly increasing key order are a canonical map. */
  lemma SortedPairsAreCanonical(pairs: seq<Pair>)
    requires forall i :: 0 <= i < |pairs| ==> IsCanonicalPair(pairs[i])
    requires StrictKeys(pairs)
    ensures IsCanonical(Map(pairs))
  {
    CanonicalPairsStay(pairs);
    SortedPairsStay(pairs);
  }

  lemma SortedCanonicalPairs(canonical: seq<Pair>)
    requires forall i :: 0 <= i < |canonical| ==> IsCanonicalPair(canonical[i])
    requires KeysDiffer(SortPairs(canonical))
    ensures IsCanonical(Map(SortPairs(canonical)))
  {
    var sorted := SortPairs(canonical);
    SortPairsSorts(canonical);
    SameElements(sorted, canonical);
    forall i | 0 <= i < |sorted|
      ensures IsCanonicalPair(sorted[i])
    {
      assert sorted[i] in canonical;
    }
    SortedPairsAreCanonical(sorted);
  }

  /** Canonicalizing twice is canonicalizing once. */
  lemma {:induction false} CanonicalizeIsIdempotent(v: Value)
    ensures Canonicalize(v).Ok? ==> IsCanonical(Canonicalize(v).value)
    decreases v
  {
    if Canonicalize(v).Ok? {
      match v
      case Array(items) =>
        ItemsBecomeCanonical(items);
        CanonicalItemsStay(CanonicalizeItems(items).value);
      case Map(pairs) =>
        PairsBecomeCanonical(pairs);
        SortedCanonicalPairs(CanonicalizePairs(pairs).value);
      case _ =>
    }
  }

  lemma {:induction false} ItemsBecomeCanonical(items: seq<Value>)
    ensures var r := CanonicalizeItems(items);
      r.Ok? ==> forall i :: 0 <= i < |r.value| ==> IsCanonical(r.value[i])
    decreases items
  {
    if items != [] {
      CanonicalizeIsIdempotent(items[0]);
      ItemsBecomeCanonical(items[1..]);
    }
  }

  lemma {:induction false} PairsBecomeCanonical(pairs: seq<Pair>)
    ensures var r := CanonicalizePairs(pairs);
      r.Ok? ==> forall i :: 0 <= i < |r.value| ==> IsCanonicalPair(r.value[i])
    decreases pairs
  {
    if pairs != [] {
      PairBecomesCanonical(pairs[0]);
      PairsBecomeCanonical(pairs[1..]);
    }
  }

  lemma {:induction false} PairBecomesCanonical(pair: Pair)
    ensures CanonicalizePair(pair).Ok? ==> IsCanonicalPair(CanonicalizePair(pair).value)
    decreases pair
  {
    CanonicalizeIsIdempotent(pair.key);
    CanonicalizeIsIdempotent(pair.value);
  }

  /** In a canonical map a shorter key comes first, and of two equally long keys the one with the first smaller byte. */
  lemma CanonicalKeysInOrder(pairs: seq<Pair>, sorted: seq<Pair>, i: nat, j: nat)
    requires Canonicalize(Map(pairs)) == Ok(Map(sorted)) && i < j < |sorted|
    ensures |Encode(sorted[i].key)| < |Encode(sorted[j].key)|
      || exists k: nat :: FirstSmaller(Encode(sorted[i].key), Encode(sorted[j].key), k)
  {
    SortPairsSorts(CanonicalizePairs(pairs).value);
    assert LengthFirst(KeyBytes(sorted[i]), KeyBytes(sorted[j]));
    LengthThenBytes(KeyBytes(sorted[i]), KeyBytes(sorted[j]));
  }

  // The order of map pairs does not matter, at any depth.

  /** The canonical pair, or the pair itself where there is none. */
  function CanonicalOf(pair: Pair): Pair {
    if CanonicalizePair(pair).Ok? then CanonicalizePair(pair).value else pair
  }

  lemma {:induction false} OnlyDuplicatesFail(v: Value)
    ensures Canonicalize(v).Ok? || Canonicalize(v) == Err(NonConforming)
    decreases v
  {
    match v
    case Array(items) => ItemsOnlyDuplicatesFail(items);
    case Map(pairs) => PairsAllOrNone(pairs);
    case _ =>
  }

  lemma {:induction false} ItemsOnlyDuplicatesFail(items: seq<Value>)
    ensures CanonicalizeItems(items).Ok? || CanonicalizeItems(items) == Err(NonConforming)
    decreases items
  {
    if items != [] {
      OnlyDuplicatesFail(items[0]);
      ItemsOnlyDuplicatesFail(items[1..]);
    }
  }

  lemma {:induction false} PairsAllOrNone(pairs: seq<Pair>)
    ensures CanonicalizePairs(pairs)
         == if forall i :: 0 <= i < |pairs| ==> CanonicalizePair(pairs[i]).Ok? then Ok(Apply(CanonicalOf, pairs))
            else Err(NonConforming)
    decreases pairs
  {
    if pairs != [] {
      var first, rest := pairs[0], pairs[1..];
      PairOnlyDuplicatesFail(first);
      PairsAllOrNone(rest);
      if CanonicalizePair(first).Ok? {
        assert forall i :: 1 <= i < |pairs| ==> pairs[i] == rest[i - 1];
        assert (forall i :: 0 <= i < |pairs| ==> CanonicalizePair(pairs[i]).Ok?)
          <==> (forall i :: 0 <= i < |rest| ==> CanonicalizePair(rest[i]).Ok?);
        assert Apply(CanonicalOf, pairs) == [CanonicalOf(first)] + Apply(CanonicalOf, rest);
      }
    }
  }

  lemma {:induction false} PairOnlyDuplicatesFail(pair: Pair)
    ensures CanonicalizePair(pair).Ok? || CanonicalizePair(pair) == Err(NonConforming)
    decreases pair
  {
    OnlyDuplicatesFail(pair.key);
    OnlyDuplicatesFail(pair.value);
  }

  /** Writing the pairs of a map in another order changes neither the outcome nor the canonical form. */
  lemma PermutedPairs(a: seq<Pair>, b: seq<Pair>)
    requires multiset(a) == multiset(b)
    ensures Canonicalize(Map(a)) == Canonicalize(Map(b))
  {
    PairsAllOrNone(a);
    PairsAllOrNone(b);
    SameElements(a, b);
    AllInOrder(a, b);
    AllInOrder(b, a);
    ApplyPermuted(CanonicalOf, a, b);
    SortPairsOfPermutation(Apply(CanonicalOf, a), Apply(CanonicalOf, b));
  }

  lemma AllInOrder(a: seq<Pair>, b: seq<Pair>)
    requires forall x :: x in a <==> x in b
    ensures (forall i :: 0 <= i < |a| ==> CanonicalizePair(a[i]).Ok?)
        ==> (forall i :: 0 <= i < |b| ==> CanonicalizePair(b[i]).Ok?)
  {
    if forall i :: 0 <= i < |a| ==> CanonicalizePair(a[i]).Ok? {
      forall i | 0 <= i < |b|
        ensures CanonicalizePair(b[i]).Ok?
      {
        assert b[i] in a;
      }
    }
  }

  /** `v` and `w` differ only in the order of pairs, in maps at any depth. */
  ghost predicate Reordered(v: Value, w: Value)
    decreases w
  {
    match w
    case Array(items) =>
      v.Array? && |v.items| == |items| && forall i :: 0 <= i < |items| ==> Reordered(v.items[i], items[i])
    case Map(pairs) =>
      v.Map? && exists s: seq<Pair> :: multiset(s) == multiset(v.pairs) && ReorderedEach(s, pairs)
    case _ => v == w
  }

  ghost predicate ReorderedEach(s: seq<Pair>, pairs: seq<Pair>)
    decreases pairs
  {
    |s| == |pairs| && forall i :: 0 <= i < |pairs| ==> ReorderedPair(s[i], pairs[i])
  }

  ghost predicate ReorderedPair(a: Pair, b: Pair)
    decreases b
  {
    Reordered(a.key, b.key) && Reordered(a.value, b.value)
  }

  /** Values that differ only in the order of map pairs have the same canonical form. */
  lemma {:induction false} ReorderedValues(v: Value, w: Value)
    requires Reordered(v, w)
    ensures Canonicalize(v) == Canonicalize(w)
    decreases w
  {
    match w
    case Array(items) => ReorderedItems(v.items, items);
    case Map(pairs) =>
      var s :| multiset(s) == multiset(v.pairs) && ReorderedEach(s, pairs);
      PermutedPairs(v.pairs, s);
      ReorderedPairs(s, pairs);
    case _ =>
  }

  lemma {:induction false} ReorderedItems(a: seq<Value>, b: seq<Value>)
    requires |a| == |b| && forall i :: 0 <= i < |b| ==> Reordered(a[i], b[i])
    ensures CanonicalizeItems(a) == CanonicalizeItems(b)
    decreases b
  {
    if b != [] {
      ReorderedValues(a[0], b[0]);
      ReorderedItems(a[1..], b[1..]);
    }
  }

  lemma {:induction false} ReorderedPairs(a: seq<Pair>, b: seq<Pair>)
    requires ReorderedEach(a, b)
    ensures CanonicalizePairs(a) == CanonicalizePairs(b)
    decreases b
  {
    if b != [] {
      ReorderedOnePair(a[0], b[0]);
      assert ReorderedEach(a[1..], b[1..]) by {
        forall i | 0 <= i < |b[1..]|
          ensures ReorderedPair(a[1..][i], b[1..][i])
        {
          assert ReorderedPair(a[i + 1], b[i + 1]);
        }
      }
      ReorderedPairs(a[1..], b[1..]);
    }
  }

  lemma {:induction false} ReorderedOnePair(a: Pair, b: Pair)
    requires ReorderedPair(a, b)
    ensures CanonicalizePair(a) == CanonicalizePair(b)
    decreases b
  {
    ReorderedValues(a.key, b.key);
    ReorderedValues(a.value, b.value);
  }

  // Canonicalizing reorders and does nothing else.

  /** The pairs in the order in which their counterparts stand in `target`. */
  lemma {:induction false} ReorderAlike(pairs: seq<Pair>, images: seq<Pair>, target: seq<Pair>) returns (s: seq<Pair>)
    requires ReorderedEach(pairs, images) && multiset(images) == multiset(target)
    ensures multiset(s) == multiset(pairs) && ReorderedEach(s, target)
    decreases |pairs|
  {
    if pairs == [] {
      assert |multiset(target)| == 0;
      return [];
    }
    var n := |pairs| - 1;
    assert images == images[..n] + [images[n]] && pairs == pairs[..n] + [pairs[n]];
    var front, back := TakeOut(images[..n], images[n], target);
    var rest := ReorderAlike(pairs[..n], images[..n], front + back);
    s := rest[..|front|] + [pairs[n]] + rest[|front|..];
    assert rest == rest[..|front|] + rest[|front|..];
    ReorderedAround(rest, front, back, pairs[n], images[n]);
  }

  lemma ReorderedAround(rest: seq<Pair>, front: seq<Pair>, back: seq<Pair>, pair: Pair, image: Pair)
    requires ReorderedEach(rest, front + back) && ReorderedPair(pair, image)
    ensures ReorderedEach(rest[..|front|] + [pair] + rest[|front|..], front + [image] + back)
  {
    var s, target := rest[..|front|] + [pair] + rest[|front|..], front + [image] + back;
    forall i | 0 <= i < |target|
      ensures ReorderedPair(s[i], target[i])
    {
      if i != |front| {
        var j := if i < |front| then i else i - 1;
        assert ReorderedPair(rest[j], (front + back)[j]);
      }
    }
  }

  /** The canonical form holds exactly what the value holds; only map pairs have moved. */
  lemma {:induction false} CanonicalizeReorders(v: Value)
    requires Canonicalize(v).Ok?
    ensures Reordered(v, Canonicalize(v).value)
    decreases v
  {
    match v
    case Array(items) => ItemsReorder(items);
    case Map(pairs) =>
      var canonical := CanonicalizePairs(pairs).value;
      PairsReorder(pairs);
      SortPairsSorts(canonical);
      var s := ReorderAlike(pairs, canonical, SortPairs(canonical));
    case _ =>
  }

  lemma {:induction false} ItemsReorder(items: seq<Value>)
    requires CanonicalizeItems(items).Ok?
    ensures forall i :: 0 <= i < |items| ==> Reordered(items[i], CanonicalizeItems(items).value[i])
    decreases items
  {
    if items != [] {
      CanonicalizeReorders(items[0]);
      ItemsReorder(items[1..]);
    }
  }

  lemma {:induction false} PairsReorder(pairs: seq<Pair>)
    requires CanonicalizePairs(pairs).Ok?
    ensures ReorderedEach(pairs, CanonicalizePairs(pairs).value)
    decreases pairs
  {
    if pairs != [] {
      PairReorders(pairs[0]);
      PairsReorder(pairs[1..]);
      var rest, all := CanonicalizePairs(pairs[1..]).value, CanonicalizePairs(pairs).value;
      forall i | 0 <= i < |pairs|
        ensures ReorderedPair(pairs[i], all[i])
      {
        assert i > 0 ==> ReorderedPair(pairs[1..][i - 1], rest[i - 1]);
      }
    }
  }

  lemma {:induction false} PairReorders(pair: Pair)
    requires CanonicalizePair(pair).Ok?
    ensures ReorderedPair(pair, CanonicalizePair(pair).value)
    decreases pair
  {
    CanonicalizeReorders(pair.key);
    CanonicalizeReorders(pair.value);
  }

  /** A map has a canonical form exactly when its keys and values have one and no two keys have the same. */
  lemma MapFailsOnRepeatedKeys(pairs: seq<Pair>)
    ensures Canonicalize(Map(pairs)).Ok? <==>
      && CanonicalizePairs(pairs).Ok?
      && forall i, j :: 0 <= i < j < |pairs| ==>
           Encode(CanonicalizePairs(pairs).value[i].key) != Encode(CanonicalizePairs(pairs).value[j].key)
  {
    if CanonicalizePairs(pairs).Ok? {
      RepeatedKeys(CanonicalizePairs(pairs).value);
    }
  }

  lemma RepeatedKeys(pairs: seq<Pair>)
    ensures KeysDiffer(SortPairs(pairs)) <==> Recency.Distinct(Apply(KeyBytes, pairs))
  {
    var sorted := SortPairs(pairs);
    SortPairsSorts(pairs);
    ApplyPermuted(KeyBytes, sorted, pairs);
    if KeysDiffer(sorted) {
      LengthFirstIsStrict();
      assert Recency.Distinct(Apply(KeyBytes, sorted));
      Recency.DistinctByMultiset(Apply(KeyBytes, sorted), Apply(KeyBytes, pairs));
    } else if Recency.Distinct(Apply(KeyBytes, pairs)) {
      Recency.DistinctByMultiset(Apply(KeyBytes, pairs), Apply(KeyBytes, sorted));
    }
  }
}
