/** The order of sort keys: projection first, then retained coordinates, then the embedding itself. */
module SortKeys {
  // Components are compared in the total order of their bit patterns, so they are integers here.

  type Embedding = seq<int>

  datatype SortKey = SortKey(projection: int, retained: seq<int>, embedding: Embedding)

  datatype Ordering = Less | Equal | Greater

  function CompareInts(a: int, b: int): Ordering {
    if a < b then Less else if a == b then Equal else Greater
  }

  /** The first unequal pair decides, then the lengths. */
  function CompareSlices(a: seq<int>, b: seq<int>): Ordering {
    if a == [] || b == [] then CompareInts(|a|, |b|)
    else if CompareInts(a[0], b[0]) != Equal then CompareInts(a[0], b[0])
    else CompareSlices(a[1..], b[1..])
  }

  function Then(first: Ordering, second: Ordering): Ordering {
    if first != Equal then first else second
  }

  function CompareSortKeys(a: SortKey, b: SortKey): Ordering {
    Then(CompareInts(a.projection, b.projection),
         Then(CompareSlices(a.retained, b.retained), CompareSlices(a.embedding, b.embedding)))
  }

  predicate Lt(a: SortKey, b: SortKey) {
    CompareSortKeys(a, b) == Less
  }

  lemma {:induction false} SlicesOrder(a: seq<int>, b: seq<int>)
    ensures CompareSlices(a, b) == Equal <==> a == b
    ensures CompareSlices(a, b) == Less <==> CompareSlices(b, a) == Greater
  {
    if a != [] && b != [] {
      SlicesOrder(a[1..], b[1..]);
      assert a == [a[0]] + a[1..] && b == [b[0]] + b[1..];
    }
  }

  lemma {:induction false} SlicesTransitive(a: seq<int>, b: seq<int>, c: seq<int>)
    requires CompareSlices(a, b) == Less && CompareSlices(b, c) == Less
    ensures CompareSlices(a, c) == Less
  {
    if a != [] && b != [] && c != [] && a[0] == b[0] == c[0] {
      SlicesTransitive(a[1..], b[1..], c[1..]);
    }
  }

  // The order by positions.

  /** At `i` the two part for the first time: `a` ends there and `b` does not, or `a` is smaller there. */
  predicate PartsBelow(a: seq<int>, b: seq<int>, i: nat) {
    && i <= |a| && i < |b| && a[..i] == b[..i]
    && (i < |a| ==> a[i] < b[i])
  }

  ghost predicate DictionaryBefore(a: seq<int>, b: seq<int>) {
    exists i: nat :: PartsBelow(a, b, i)
  }

  /** The comparison of slices is the order of a dictionary. */
  lemma {:induction false} SlicesByPosition(a: seq<int>, b: seq<int>)
    ensures CompareSlices(a, b) == Less <==> DictionaryBefore(a, b)
    ensures CompareSlices(a, b) == Greater <==> DictionaryBefore(b, a)
    ensures CompareSlices(a, b) == Equal <==> a == b
  {
    SlicesOrder(a, b);
    SmallerParts(a, b);
    SmallerParts(b, a);
    SlicesOrder(b, a);
  }

  lemma {:induction false} SmallerParts(a: seq<int>, b: seq<int>)
    ensures CompareSlices(a, b) == Less <==> DictionaryBefore(a, b)
  {
    if a == [] || b == [] {
      assert b != [] ==> PartsBelow(a, b, 0);
    } else if a[0] != b[0] {
      assert a[0] < b[0] ==> PartsBelow(a, b, 0);
      forall i: nat | PartsBelow(a, b, i)
        ensures a[0] < b[0]
      {
        if i > 0 {
          assert a[..i][0] == b[..i][0];
        }
      }
    } else {
      SmallerParts(a[1..], b[1..]);
      if DictionaryBefore(a[1..], b[1..]) {
        var i: nat :| PartsBelow(a[1..], b[1..], i);
        OneLater(a, b, i);
      }
      if DictionaryBefore(a, b) {
        var i: nat :| PartsBelow(a, b, i);
        OneLater(a, b, i - 1);
      }
    }
  }

  lemma OneLater(a: seq<int>, b: seq<int>, i: nat)
    requires a != [] && b != [] && a[0] == b[0]
    ensures PartsBelow(a, b, i + 1) <==> PartsBelow(a[1..], b[1..], i)
  {
    if i < |a| && i < |b| {
      assert a[..i + 1] == [a[0]] + a[1..][..i] && b[..i + 1] == [b[0]] + b[1..][..i];
      assert a[1..][..i] == a[..i + 1][1..] && b[1..][..i] == b[..i + 1][1..];
    }
  }

  /** The projection decides, then the first different retained coordinate, then the embedding. */
  lemma KeysByParts(a: SortKey, b: SortKey)
    ensures Lt(a, b) <==>
      || a.projection < b.projection
      || (a.projection == b.projection && DictionaryBefore(a.retained, b.retained))
      || (a.projection == b.projection && a.retained == b.retained && DictionaryBefore(a.embedding, b.embedding))
  {
    SlicesByPosition(a.retained, b.retained);
    SlicesByPosition(a.embedding, b.embedding);
  }

  /** Only equal keys compare equal, and swapping the sides flips the outcome. */
  lemma KeysOrder(a: SortKey, b: SortKey)
    ensures CompareSortKeys(a, b) == Equal <==> a == b
    ensures CompareSortKeys(a, b) == Less <==> CompareSortKeys(b, a) == Greater
  {
    SlicesOrder(a.retained, b.retained);
    SlicesOrder(b.retained, a.retained);
    SlicesOrder(a.embedding, b.embedding);
    SlicesOrder(b.embedding, a.embedding);
  }

  lemma KeysTransitive(a: SortKey, b: SortKey, c: SortKey)
    requires Lt(a, b) && Lt(b, c)
    ensures Lt(a, c)
  {
    SlicesOrder(a.retained, b.retained);
    SlicesOrder(b.retained, c.retained);
    if CompareSlices(a.retained, b.retained) == Less && CompareSlices(b.retained, c.retained) == Less {
      SlicesTransitive(a.retained, b.retained, c.retained);
    }
    if CompareSlices(a.embedding, b.embedding) == Less && CompareSlices(b.embedding, c.embedding) == Less {
      SlicesTransitive(a.embedding, b.embedding, c.embedding);
    }
  }
}
