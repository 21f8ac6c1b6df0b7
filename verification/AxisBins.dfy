/** Splitting the cluster budget over the retained axes: whole bits by weight, or shares by largest remainder. */
module AxisBins {
  import opened Wrappers
  import opened Machine
  import opened NatSums
  import opened Powers
  import ReadyPlan
  import StableSort
  import Permutation
  import Recency

  datatype AllocationError = InvalidConfiguration | NormalizationFailed

  predicate IsPowerOfTwo(n: nat) {
    n == 1 || (n > 1 && n % 2 == 0 && IsPowerOfTwo(n / 2))
  }

  function Log2(n: nat): nat
    requires n > 0
  {
    if n == 1 then 0 else 1 + Log2(n / 2)
  }

  lemma {:induction false} Power2OfLog2(n: nat)
    requires IsPowerOfTwo(n)
    ensures Power2(Log2(n)) == n
  {
    if n > 1 {
      Power2OfLog2(n / 2);
    }
  }

  function Product(bins: seq<nat>): nat {
    if bins == [] then 1 else Product(bins[..|bins| - 1]) * bins[|bins| - 1]
  }

  function Bins(bits: seq<nat>): (bins: seq<nat>)
    ensures |bins| == |bits| && forall i :: 0 <= i < |bits| ==> bins[i] == Power2(bits[i])
  {
    seq(|bits|, i requires 0 <= i < |bits| => Power2(bits[i]))
  }

  /** The bins multiply to two to the total number of bits. */
  lemma {:induction false} ProductOfBins(bits: seq<nat>)
    ensures Product(Bins(bits)) == Power2(Sum(bits))
  {
    if bits != [] {
      var n := |bits| - 1;
      ProductOfBins(bits[..n]);
      Power2Sum(Sum(bits[..n]), bits[n]);
      assert Bins(bits)[..n] == Bins(bits[..n]);
    }
  }

  // Whole bits by weight.

  function AdjustedWeight(weight: real, bits: nat): real {
    if bits == 0 then weight else weight / (bits + 1) as real
  }

  /** The axis with the greatest adjusted weight, the first of them on a tie. */
  method BestAxis(weights: seq<real>, bits: seq<nat>) returns (best: nat)
    requires weights != [] && |bits| == |weights|
    ensures best < |weights|
    ensures forall axis :: 0 <= axis < |weights| ==>
      AdjustedWeight(weights[axis], bits[axis]) <= AdjustedWeight(weights[best], bits[best])
    ensures forall axis :: 0 <= axis < best ==>
      AdjustedWeight(weights[axis], bits[axis]) < AdjustedWeight(weights[best], bits[best])
  {
    best := 0;
    for axis := 1 to |weights|
      invariant best < axis
      invariant forall j :: 0 <= j < axis ==>
        AdjustedWeight(weights[j], bits[j]) <= AdjustedWeight(weights[best], bits[best])
      invariant forall j :: 0 <= j < best ==>
        AdjustedWeight(weights[j], bits[j]) < AdjustedWeight(weights[best], bits[best])
    {
      if AdjustedWeight(weights[axis], bits[axis]) > AdjustedWeight(weights[best], bits[best]) {
        best := axis;
      }
    }
  }

  function Bump(counts: seq<nat>, i: nat): (bumped: seq<nat>)
    requires i < |counts|
    ensures |bumped| == |counts| && bumped[i] == counts[i] + 1
    ensures forall k :: 0 <= k < |counts| && k != i ==> bumped[k] == counts[k]
  {
    counts[i := counts[i] + 1]
  }

  lemma FewBits(bits: nat, n: nat)
    requires Power2(bits) <= n <= USIZE_MAX
    ensures bits < 64
  {
    Power2Of64();
    if bits >= 64 {
      Power2Grows(64, bits);
    }
  }

  lemma AdjustedWeightShrinks(weight: real, fewer: nat, more: nat)
    requires weight >= 0.0 && fewer <= more
    ensures AdjustedWeight(weight, more) <= AdjustedWeight(weight, fewer)
  {
    var f, m := (fewer + 1) as real, (more + 1) as real;
    assert weight * f <= weight * m;
    assert AdjustedWeight(weight, more) == weight / m && AdjustedWeight(weight, fewer) == weight / f;
  }

  /** The last bit of axis `i` was worth more than one more bit of axis `j`; ties go to the lower axis. */
  ghost predicate Preferred(weights: seq<real>, bits: seq<nat>, i: nat, j: nat)
    requires i < |weights| == |bits| && j < |bits|
  {
    bits[i] > 0 ==>
      var given, missed := AdjustedWeight(weights[i], bits[i] - 1), AdjustedWeight(weights[j], bits[j]);
      missed < given || (missed == given && i <= j)
  }

  /** No bit would be better placed on another axis. */
  ghost predicate Fair(weights: seq<real>, bits: seq<nat>) {
    && |bits| == |weights|
    && forall i: nat, j: nat :: i < |bits| && j < |bits| ==> Preferred(weights, bits, i, j)
  }

  lemma QuotientTimes(a: real, x: real, y: real)
    requires x > 0.0
    ensures a / x * (x * y) == a * y
  {
    var q := a / x;
    assert q * x == a;
    assert q * (x * y) == q * x * y;
  }

  lemma ScaledCompare(q: real, r: real, scale: real)
    requires scale > 0.0
    ensures q < r <==> q * scale < r * scale
    ensures q == r <==> q * scale == r * scale
  {
    if q < r {
      assert (r - q) * scale > 0.0;
    } else if r < q {
      assert (q - r) * scale > 0.0;
    }
  }

  lemma QuotientsCompare(a: real, x: real, b: real, y: real)
    requires x > 0.0 && y > 0.0
    ensures a / x < b / y <==> a * y < b * x
    ensures a / x == b / y <==> a * y == b * x
  {
    QuotientTimes(a, x, y);
    QuotientTimes(b, y, x);
    assert x * y == y * x > 0.0;
    ScaledCompare(a / x, b / y, x * y);
  }

  /** The weight that axis `i` has for each of its bits is more than axis `j` would have with one bit more. */
  ghost predicate WorthMore(weights: seq<real>, bits: seq<nat>, i: nat, j: nat)
    requires i < |weights| == |bits| && j < |bits|
  {
    bits[i] > 0 ==>
      var kept, missed := weights[i] * (bits[j] + 1) as real, weights[j] * bits[i] as real;
      missed < kept || (missed == kept && i <= j)
  }

  /** Fairness without quotients: bits follow the weights as seats follow votes under the rule of D'Hondt. */
  lemma FairByWeightPerBit(weights: seq<real>, bits: seq<nat>)
    requires |bits| == |weights|
    ensures Fair(weights, bits)
       <==> forall i: nat, j: nat :: i < |bits| && j < |bits| ==> WorthMore(weights, bits, i, j)
  {
    forall i: nat, j: nat | i < |bits| && j < |bits|
      ensures Preferred(weights, bits, i, j) <==> WorthMore(weights, bits, i, j)
    {
      PreferredByWeight(weights, bits, i, j);
    }
  }

  lemma PreferredByWeight(weights: seq<real>, bits: seq<nat>, i: nat, j: nat)
    requires i < |weights| == |bits| && j < |bits|
    ensures Preferred(weights, bits, i, j) <==> WorthMore(weights, bits, i, j)
  {
    if bits[i] > 0 {
      var x, y := (bits[j] + 1) as real, bits[i] as real;
      assert AdjustedWeight(weights[i], bits[i] - 1) == weights[i] / y;
      assert AdjustedWeight(weights[j], bits[j]) == weights[j] / x;
      QuotientsCompare(weights[j], x, weights[i], y);
    }
  }

  lemma FairStep(weights: seq<real>, bits: seq<nat>, best: nat)
    requires Fair(weights, bits) && best < |weights| && forall i :: 0 <= i < |weights| ==> weights[i] >= 0.0
    requires forall axis :: 0 <= axis < |weights| ==>
      AdjustedWeight(weights[axis], bits[axis]) <= AdjustedWeight(weights[best], bits[best])
    requires forall axis :: 0 <= axis < best ==>
      AdjustedWeight(weights[axis], bits[axis]) < AdjustedWeight(weights[best], bits[best])
    ensures Fair(weights, Bump(bits, best))
  {
    var next := Bump(bits, best);
    AdjustedWeightShrinks(weights[best], bits[best], bits[best] + 1);
    forall i: nat, j: nat | i < |bits| && j < |bits|
      ensures Preferred(weights, next, i, j)
    {
      assert Preferred(weights, bits, i, j);
    }
  }

  lemma {:induction false} SomewhereMore(a: seq<nat>, b: seq<nat>) returns (i: nat)
    requires |a| == |b| && Sum(a) == Sum(b) && a != b
    ensures i < |a| && a[i] > b[i]
  {
    if forall c: nat :: c < |a| ==> a[c] <= b[c] {
      SumAtMost(a, b);
      assert false;
    }
    i :| i < |a| && a[i] > b[i];
  }

  /** Fairness leaves no choice: the budget and the weights determine the bits of every axis. */
  lemma FairIsUnique(weights: seq<real>, a: seq<nat>, b: seq<nat>)
    requires Fair(weights, a) && Fair(weights, b) && Sum(a) == Sum(b)
    requires forall i :: 0 <= i < |weights| ==> weights[i] >= 0.0
    ensures a == b
  {
    if a != b {
      var i := SomewhereMore(a, b);
      var j := SomewhereMore(b, a);
      assert Preferred(weights, a, i, j) && Preferred(weights, b, j, i);
      AdjustedWeightShrinks(weights[i], b[i], a[i] - 1);
      AdjustedWeightShrinks(weights[j], a[j], b[j] - 1);
      assert false;
    }
  }

  /**
   Every bit of the budget goes to the axis that gains most from it, so the bins multiply to exactly the cluster
   count and no bit would be better placed elsewhere.
   */
  method AllocateFromEigenvalueBits(weights: seq<real>, clusterCount: nat)
    returns (result: Result<seq<nat>, AllocationError>, ghost bits: seq<nat>)
    requires weights != [] && clusterCount <= USIZE_MAX
    requires forall i :: 0 <= i < |weights| ==> weights[i] >= 0.0
    ensures result == Err(InvalidConfiguration) <==> !IsPowerOfTwo(clusterCount)
    ensures IsPowerOfTwo(clusterCount) ==> result.Ok?
    ensures result.Ok? ==> |result.value| == |weights| && Product(result.value) == clusterCount
    ensures result.Ok? ==> forall i :: 0 <= i < |weights| ==> result.value[i] >= 1
    ensures result.Ok? ==>
      result.value == Bins(bits) && Power2(Sum(bits)) == clusterCount && Fair(weights, bits)
    ensures result.Ok? ==> forall i: nat, j: nat :: i < |bits| && j < |bits| ==> WorthMore(weights, bits, i, j)
  {
    bits := [];
    if !IsPowerOfTwo(clusterCount) {
      return Err(InvalidConfiguration), bits;
    }
    var totalBits := Log2(clusterCount);
    var bitBudget := Repeat(0, |weights|);
    SumRepeat(0, |weights|);
    for spent := 0 to totalBits
      invariant Sum(bitBudget) == spent && Fair(weights, bitBudget)
    {
      var best := BestAxis(weights, bitBudget);
      SumUpdate(bitBudget, best, bitBudget[best] + 1);
      FairStep(weights, bitBudget, best);
      bitBudget := Bump(bitBudget, best);
    }
    bits := bitBudget;
    FairByWeightPerBit(weights, bits);
    Power2OfLog2(clusterCount);
    ProductOfBins(bitBudget);
    var bins: seq<nat> := [];
    for axis := 0 to |bitBudget|
      invariant |bins| == axis && forall i :: 0 <= i < axis ==> bins[i] == Power2(bitBudget[i])
    {
      SumBounds(bitBudget, axis);
      Power2Grows(bitBudget[axis], totalBits);
      FewBits(bitBudget[axis], clusterCount);
      if bitBudget[axis] >= 64 {
        assert false;
      }
      bins := bins + [Power2(bitBudget[axis])];
    }
    assert bins == Bins(bitBudget);
    return Ok(bins), bits;
  }

  // Cells on axes.

  /** The bin of a coordinate: how many leading cuts it lies above. */
  function PartitionPoint(cuts: seq<real>, coordinate: real): (bin: nat)
    ensures bin <= |cuts|
    ensures forall i :: 0 <= i < bin ==> coordinate > cuts[i]
    ensures bin < |cuts| ==> coordinate <= cuts[bin]
  {
    if cuts == [] || coordinate <= cuts[0] then 0 else 1 + PartitionPoint(cuts[1..], coordinate)
  }

  type Cuts = seq<seq<real>>

  /** One bin per axis; an axis without cuts has the single bin 0. */
  function AssignPointToCell(axes: Cuts, coordinates: seq<real>): (key: seq<int>)
    requires |coordinates| == |axes|
    ensures |key| == |axes|
    ensures forall a :: 0 <= a < |axes| ==> key[a] == PartitionPoint(axes[a], coordinates[a])
  {
    seq(|axes|, a requires 0 <= a < |axes| => PartitionPoint(axes[a], coordinates[a]))
  }

  /** With increasing cuts, a bin is exactly the interval between its two cuts. */
  lemma BinIsInterval(cuts: seq<real>, coordinate: real, bin: nat)
    requires bin <= |cuts| && forall i, j :: 0 <= i < j < |cuts| ==> cuts[i] <= cuts[j]
    ensures PartitionPoint(cuts, coordinate) == bin
       <==> (bin > 0 ==> cuts[bin - 1] < coordinate) && (bin < |cuts| ==> coordinate <= cuts[bin])
  {
    var actual := PartitionPoint(cuts, coordinate);
    if actual < bin {
      assert cuts[actual] <= cuts[bin - 1];
    } else if bin < actual {
      assert coordinate > cuts[bin];
    }
  }

  /** All keys with one bin below each bound. */
  ghost function AllKeys(bins: seq<nat>): set<seq<int>> {
    if bins == [] then {[]} else Extend(AllKeys(bins[..|bins| - 1]), bins[|bins| - 1])
  }

  /** Every key followed by every bin below `count`. */
  ghost function Extend(keys: set<seq<int>>, count: nat): set<seq<int>> {
    if count == 0 then {} else Extend(keys, count - 1) + Append(keys, count - 1)
  }

  ghost function Append(keys: set<seq<int>>, bin: int): set<seq<int>> {
    set key | key in keys :: key + [bin]
  }

  lemma {:induction false} AppendSize(keys: set<seq<int>>, bin: int)
    ensures |Append(keys, bin)| <= |keys|
  {
    if keys != {} {
      var key :| key in keys;
      AppendSize(keys - {key}, bin);
      assert Append(keys, bin) == Append(keys - {key}, bin) + {key + [bin]};
    }
  }

  lemma {:induction false} ExtendSize(keys: set<seq<int>>, count: nat)
    ensures |Extend(keys, count)| <= |keys| * count
  {
    if count > 0 {
      ExtendSize(keys, count - 1);
      AppendSize(keys, count - 1);
      assert |keys| * count == |keys| * (count - 1) + |keys|;
    }
  }

  lemma TimesGrows(a: nat, b: nat, c: nat)
    requires a <= b
    ensures a * c <= b * c
  {}

  lemma {:induction false} AllKeysSize(bins: seq<nat>)
    ensures |AllKeys(bins)| <= Product(bins)
  {
    if bins != [] {
      var n := |bins| - 1;
      AllKeysSize(bins[..n]);
      ExtendSize(AllKeys(bins[..n]), bins[n]);
      TimesGrows(|AllKeys(bins[..n])|, Product(bins[..n]), bins[n]);
    }
  }

  ghost predicate Below(key: seq<int>, bins: seq<nat>) {
    |key| == |bins| && forall a :: 0 <= a < |bins| ==> 0 <= key[a] < bins[a]
  }

  lemma {:induction false} ExtendHas(keys: set<seq<int>>, count: nat, key: seq<int>, bin: nat)
    requires key in keys && bin < count
    ensures key + [bin] in Extend(keys, count)
  {
    if bin < count - 1 {
      ExtendHas(keys, count - 1, key, bin);
    }
  }

  lemma {:induction false} AllKeysHas(bins: seq<nat>, key: seq<int>)
    requires Below(key, bins)
    ensures key in AllKeys(bins)
  {
    if bins == [] {
      assert key == [];
    } else {
      var n := |bins| - 1;
      AllKeysHas(bins[..n], key[..n]);
      ExtendHas(AllKeys(bins[..n]), bins[n], key[..n], key[n]);
      assert key == key[..n] + [key[n]];
    }
  }

  /** However many points there are, they populate no more cells than the bins multiply to. */
  lemma PopulatedCellsAreBounded(keys: set<seq<int>>, bins: seq<nat>)
    requires forall key :: key in keys ==> Below(key, bins)
    ensures |keys| <= Product(bins)
  {
    forall key | key in keys
      ensures key in AllKeys(bins)
    {
      AllKeysHas(bins, key);
    }
    SubsetSize(keys, AllKeys(bins));
    AllKeysSize(bins);
  }

  lemma {:induction false} SubsetSize(a: set<seq<int>>, b: set<seq<int>>)
    requires a <= b
    ensures |a| <= |b|
  {
    if a != {} {
      var x :| x in a;
      SubsetSize(a - {x}, b - {x});
    }
  }

  /** An axis with one cut less than bins puts every coordinate into one of its bins. */
  lemma AssignedKeyIsBelow(axes: Cuts, bins: seq<nat>, coordinates: seq<real>)
    requires |axes| == |bins| == |coordinates|
    requires forall a :: 0 <= a < |axes| ==> |axes[a]| + 1 <= bins[a]
    ensures Below(AssignPointToCell(axes, coordinates), bins)
  {}

  /** The keys of the given points. */
  function CellKeys(axes: Cuts, points: seq<seq<real>>): (keys: seq<seq<int>>)
    requires forall p :: 0 <= p < |points| ==> |points[p]| == |axes|
    ensures |keys| == |points|
    ensures forall p :: 0 <= p < |points| ==> keys[p] == AssignPointToCell(axes, points[p])
  {
    seq(|points|, p requires 0 <= p < |points| => AssignPointToCell(axes, points[p]))
  }

  ghost function KeySet(cells: seq<ReadyPlan.CellSummary>): set<seq<int>> {
    set i | 0 <= i < |cells| :: cells[i].key
  }

  lemma {:induction false} KeySetSize(cells: seq<ReadyPlan.CellSummary>)
    requires ReadyPlan.KeysIncrease(cells)
    ensures |KeySet(cells)| == |cells|
  {
    if cells != [] {
      var n := |cells| - 1;
      KeySetSize(cells[..n]);
      forall i | 0 <= i < n
        ensures cells[i].key != cells[n].key
      {
        ReadyPlan.KeyOrder(cells[i].key, cells[n].key);
      }
      assert KeySet(cells) == KeySet(cells[..n]) + {cells[n].key};
    }
  }

  lemma {:induction false} CountedKeysOccur(keys: seq<seq<int>>, key: seq<int>)
    requires ReadyPlan.Occurrences(keys, key) > 0
    ensures key in keys
  {
    var n := |keys| - 1;
    if keys[n] != key {
      CountedKeysOccur(keys[..n], key);
    }
  }

  /** With bins that multiply to the cluster count, the counting pass never finds more populated cells than that. */
  lemma PopulatedWithinBudget(axes: Cuts, bins: seq<nat>, points: seq<seq<real>>, clusterCount: nat)
    requires |axes| == |bins| && Product(bins) == clusterCount
    requires forall a :: 0 <= a < |axes| ==> |axes[a]| + 1 <= bins[a]
    requires forall p :: 0 <= p < |points| ==> |points[p]| == |axes|
    ensures |ReadyPlan.CountCells(CellKeys(axes, points))| <= clusterCount
  {
    var keys := CellKeys(axes, points);
    var cells := ReadyPlan.CountCells(keys);
    ReadyPlan.CountsAreOccurrences(keys, []);
    forall key | key in KeySet(cells)
      ensures Below(key, bins)
    {
      var i :| 0 <= i < |cells| && cells[i].key == key;
      ReadyPlan.CountOfAt(cells, i);
      ReadyPlan.CountsAreOccurrences(keys, key);
      CountedKeysOccur(keys, key);
      var p :| 0 <= p < |keys| && keys[p] == key;
      AssignedKeyIsBelow(axes, bins, points[p]);
    }
    KeySetSize(cells);
    PopulatedCellsAreBounded(KeySet(cells), bins);
  }

  // Shares by largest remainder.

  function SumReal(values: seq<real>): real {
    if values == [] then 0.0 else SumReal(values[..|values| - 1]) + values[|values| - 1]
  }

  /** The exact share of one axis in the budget. */
  function Share(value: real, budget: nat, total: real): real
    requires total > 0.0
  {
    value * budget as real / total
  }

  function Desired(values: seq<real>, budget: nat, total: real): (desired: seq<real>)
    requires total > 0.0
    ensures |desired| == |values|
    ensures forall i :: 0 <= i < |values| ==> desired[i] == Share(values[i], budget, total)
  {
    seq(|values|, i requires 0 <= i < |values| => Share(values[i], budget, total))
  }

  function Floors(desired: seq<real>): (floors: seq<nat>)
    requires forall i :: 0 <= i < |desired| ==> desired[i] >= 0.0
    ensures |floors| == |desired| && forall i :: 0 <= i < |desired| ==> floors[i] == desired[i].Floor
  {
    seq(|desired|, i requires 0 <= i < |desired| => desired[i].Floor)
  }

  lemma SharesAdd(a: real, b: real, budget: nat, total: real)
    requires total > 0.0
    ensures Share(a + b, budget, total) == Share(a, budget, total) + Share(b, budget, total)
  {}

  lemma SharesOfAll(budget: nat, total: real)
    requires total > 0.0
    ensures Share(total, budget, total) == budget as real && Share(0.0, budget, total) == 0.0
  {}

  lemma ShareIsNatural(value: real, budget: nat, total: real)
    requires value >= 0.0 && total > 0.0
    ensures Share(value, budget, total) >= 0.0
  {}

  lemma {:induction false} DesiredSum(values: seq<real>, budget: nat, total: real)
    requires total > 0.0
    ensures SumReal(Desired(values, budget, total)) == Share(SumReal(values), budget, total)
  {
    if values == [] {
      SharesOfAll(budget, total);
    } else {
      var n := |values| - 1;
      DesiredSum(values[..n], budget, total);
      SharesAdd(SumReal(values[..n]), values[n], budget, total);
      assert Desired(values, budget, total)[..n] == Desired(values[..n], budget, total);
    }
  }

  /** Rounding every share down loses less than one unit per axis. */
  lemma {:induction false} FloorsLoseLittle(desired: seq<real>)
    requires forall i :: 0 <= i < |desired| ==> desired[i] >= 0.0
    ensures Sum(Floors(desired)) as real <= SumReal(desired)
    ensures desired != [] ==> SumReal(desired) < (Sum(Floors(desired)) + |desired|) as real
  {
    if desired != [] {
      var n := |desired| - 1;
      FloorsLoseLittle(desired[..n]);
      assert Floors(desired)[..n] == Floors(desired[..n]);
    }
  }

  /** The units that rounding left over: fewer than axes. */
  lemma Leftovers(values: seq<real>, budget: nat, total: real)
    requires values != [] && total > 0.0 && total == SumReal(values)
    requires forall i :: 0 <= i < |values| ==> values[i] >= 0.0
    ensures forall i :: 0 <= i < |values| ==> Desired(values, budget, total)[i] >= 0.0
    ensures Sum(Floors(Desired(values, budget, total))) <= budget
                                                        < Sum(Floors(Desired(values, budget, total))) + |values|
  {
    var desired := Desired(values, budget, total);
    forall i | 0 <= i < |values|
      ensures desired[i] >= 0.0
    {
      ShareIsNatural(values[i], budget, total);
    }
    DesiredSum(values, budget, total);
    SharesOfAll(budget, total);
    FloorsLoseLittle(desired);
  }

  datatype Remainder = Remainder(index: nat, fraction: real)

  function Itself(r: Remainder): Remainder {
    r
  }

  /** Larger fraction first, then the lower axis. */
  predicate Ahead(a: Remainder, b: Remainder) {
    a.fraction > b.fraction || (a.fraction == b.fraction && a.index < b.index)
  }

  lemma AheadIsStrict()
    ensures StableSort.StrictOrder(Ahead)
  {}

  function Remainders(desired: seq<real>): (remainders: seq<Remainder>)
    ensures |remainders| == |desired|
    ensures forall i :: 0 <= i < |desired| ==> remainders[i] == Remainder(i, desired[i] - desired[i].Floor as real)
  {
    seq(|desired|, i requires 0 <= i < |desired| => Remainder(i, desired[i] - desired[i].Floor as real))
  }

  /** The remainders in the order in which they get the leftover units. */
  function Ranked(desired: seq<real>): seq<Remainder> {
    StableSort.Sort(Itself, Ahead, Remainders(desired))
  }

  lemma RankedMembers(desired: seq<real>)
    ensures |Ranked(desired)| == |desired|
    ensures multiset(Ranked(desired)) == multiset(Remainders(desired))
  {
    StableSort.SortIsPermutation(Itself, Ahead, Remainders(desired));
  }

  lemma RankedAt(desired: seq<real>, k: nat)
    requires k < |Ranked(desired)|
    ensures var r := Ranked(desired)[k]; r.index < |desired| && r == Remainders(desired)[r.index]
  {
    RankedMembers(desired);
    Permutation.SameElements(Ranked(desired), Remainders(desired));
    assert Ranked(desired)[k] in Remainders(desired);
  }

  lemma RankedDiffer(desired: seq<real>)
    ensures IndicesDiffer(Ranked(desired))
  {
    RankedMembers(desired);
    Recency.DistinctByMultiset(Remainders(desired), Ranked(desired));
    forall i, j | 0 <= i < j < |Ranked(desired)|
      ensures Ranked(desired)[i].index != Ranked(desired)[j].index
    {
      RankedAt(desired, i);
      RankedAt(desired, j);
    }
  }

  ghost predicate IndicesDiffer(ranked: seq<Remainder>) {
    forall i, j :: 0 <= i < j < |ranked| ==> ranked[i].index != ranked[j].index
  }

  /** The axes are ranked by their fractions, equal ones by their place. */
  lemma RankedInOrder(desired: seq<real>, i: nat, j: nat)
    requires i < j < |Ranked(desired)|
    ensures var a, b := Ranked(desired)[i], Ranked(desired)[j];
      && a.index < |desired| && b.index < |desired| && a.index != b.index
      && a.fraction == desired[a.index] - desired[a.index].Floor as real
      && b.fraction == desired[b.index] - desired[b.index].Floor as real
      && (b.fraction < a.fraction || (b.fraction == a.fraction && a.index < b.index))
  {
    var ranked := Ranked(desired);
    AheadIsStrict();
    StableSort.SortSorts(Itself, Ahead, Remainders(desired));
    RankedDiffer(desired);
    RankedAt(desired, i);
    RankedAt(desired, j);
    assert !Ahead(Itself(ranked[j]), Itself(ranked[i]));
  }

  /** After `given` units, the first ranked axes have one each on top of their rounded shares. */
  ghost predicate Given(counts: seq<nat>, start: seq<nat>, ranked: seq<Remainder>, given: nat) {
    && |counts| == |start| == |ranked| && given <= |ranked|
    && Sum(counts) == Sum(start) + given
    && (forall k :: 0 <= k < given ==> ranked[k].index < |start|
                                       && counts[ranked[k].index] == start[ranked[k].index] + 1)
    && (forall k :: given <= k < |ranked| ==> ranked[k].index < |start|
                                              && counts[ranked[k].index] == start[ranked[k].index])
  }

  lemma GiveOne(counts: seq<nat>, start: seq<nat>, ranked: seq<Remainder>, given: nat)
    requires Given(counts, start, ranked, given) && given < |ranked|
    requires IndicesDiffer(ranked)
    ensures ranked[given].index < |counts|
    ensures Given(Bump(counts, ranked[given].index), start, ranked, given + 1)
  {
    SumUpdate(counts, ranked[given].index, counts[ranked[given].index] + 1);
  }

  /** One unit each to the first ranked axes until none is left. */
  method GiveLeftovers(start: seq<nat>, ranked: seq<Remainder>, leftovers: nat) returns (counts: seq<nat>)
    requires Given(start, start, ranked, 0) && leftovers <= |ranked|
    requires IndicesDiffer(ranked)
    ensures Given(counts, start, ranked, leftovers)
  {
    counts := start;
    var left: nat := leftovers;
    var k := 0;
    while k < |ranked| && left > 0
      invariant k <= |ranked| && left + k == leftovers
      invariant Given(counts, start, ranked, k)
    {
      GiveOne(counts, start, ranked, k);
      counts := Bump(counts, ranked[k].index);
      left := left - 1;
      k := k + 1;
    }
  }

  /** One bin for every axis, and its exact share of the rest rounded down. */
  function Rounded(desired: seq<real>): (counts: seq<nat>)
    requires forall i :: 0 <= i < |desired| ==> desired[i] >= 0.0
    ensures |counts| == |desired| && forall i :: 0 <= i < |desired| ==> counts[i] == 1 + desired[i].Floor
  {
    seq(|desired|, i requires 0 <= i < |desired| => 1 + desired[i].Floor)
  }

  lemma {:induction false} RoundedSum(desired: seq<real>)
    requires forall i :: 0 <= i < |desired| ==> desired[i] >= 0.0
    ensures Sum(Rounded(desired)) == |desired| + Sum(Floors(desired))
  {
    if desired != [] {
      var n := |desired| - 1;
      RoundedSum(desired[..n]);
      assert Rounded(desired)[..n] == Rounded(desired[..n]);
      assert Floors(desired)[..n] == Floors(desired[..n]);
    }
  }

  lemma LeftoversReady(weights: seq<real>, budget: nat, total: real)
    requires weights != [] && total > 0.0 && total == SumReal(weights)
    requires forall i :: 0 <= i < |weights| ==> weights[i] >= 0.0
    ensures var desired := Desired(weights, budget, total);
      && (forall i :: 0 <= i < |weights| ==> desired[i] >= 0.0)
      && 0 <= budget - Sum(Floors(desired)) <= |weights| == |Ranked(desired)|
      && Sum(Rounded(desired)) == |weights| + Sum(Floors(desired))
      && Given(Rounded(desired), Rounded(desired), Ranked(desired), 0)
      && IndicesDiffer(Ranked(desired))
  {
    var desired := Desired(weights, budget, total);
    Leftovers(weights, budget, total);
    RoundedSum(desired);
    RankedMembers(desired);
    RankedDiffer(desired);
    forall k | 0 <= k < |Ranked(desired)|
      ensures Ranked(desired)[k].index < |desired|
    {
      RankedAt(desired, k);
    }
  }

  /** All bins are handed out: a rounded share to every axis, one more to each of the first `given` ranked axes. */
  ghost predicate SharedOut(result: Result<seq<nat>, AllocationError>, desired: seq<real>, clusterCount: nat,
                            given: nat)
  {
    match result
    case Err(_) => false
    case Ok(counts) =>
      && Sum(counts) == clusterCount
      && (forall i :: 0 <= i < |desired| ==> desired[i] >= 0.0)
      && Given(counts, Rounded(desired), Ranked(desired), given)
  }

  /**
   Largest remainder: every axis gets one bin and its rounded share of the rest, and the units that rounding
   left over go one by one to the axes with the largest fractions. All bins are handed out.
   */
  method AllocateByLargestRemainder(weights: seq<real>, clusterCount: nat)
    returns (result: Result<seq<nat>, AllocationError>, ghost given: nat)
    requires weights != [] && forall i :: 0 <= i < |weights| ==> weights[i] >= 0.0
    ensures result == Err(InvalidConfiguration) <==> clusterCount < |weights|
    ensures result == Err(NormalizationFailed) <==> clusterCount >= |weights| && SumReal(weights) <= 0.0
    ensures result.Ok? ==>
      SharedOut(result, Desired(weights, clusterCount - |weights|, SumReal(weights)), clusterCount, given)
  {
    given := 0;
    if clusterCount < |weights| {
      return Err(InvalidConfiguration), given;
    }
    var budget := clusterCount - |weights|;
    var total := SumReal(weights);
    if total <= 0.0 {
      return Err(NormalizationFailed), given;
    }
    var desired := Desired(weights, budget, total);
    LeftoversReady(weights, budget, total);
    var counts := Rounded(desired);
    var leftovers: nat := budget - Sum(Floors(desired));
    var ranked := Ranked(desired);
    counts := GiveLeftovers(counts, ranked, leftovers);
    return Ok(counts), leftovers;
  }

  lemma RankedHas(desired: seq<real>, axis: nat) returns (k: nat)
    requires axis < |desired|
    ensures k < |Ranked(desired)| && Ranked(desired)[k].index == axis
  {
    RankedMembers(desired);
    Permutation.SameElements(Ranked(desired), Remainders(desired));
    assert Remainders(desired)[axis] in Ranked(desired);
    k :| 0 <= k < |Ranked(desired)| && Ranked(desired)[k] == Remainders(desired)[axis];
  }

  /** The exact shares are in the proportions of the weights. */
  lemma DesiredIsProportional(weights: seq<real>, budget: nat, i: nat)
    requires SumReal(weights) > 0.0 && i < |weights|
    ensures Desired(weights, budget, SumReal(weights))[i] * SumReal(weights) == weights[i] * budget as real
  {}

  /**
   Every axis gets one bin and its exact share of the rest, rounded down or up; if axis `i` is rounded up and
   axis `j` is not, then `i` has the larger fraction, or the same one and comes first.
   */
  lemma RoundedByFraction(desired: seq<real>, counts: seq<nat>, clusterCount: nat, given: nat, i: nat, j: nat)
    requires SharedOut(Ok(counts), desired, clusterCount, given) && i < |desired| && j < |desired|
    ensures |counts| == |desired|
    ensures counts[i] == 1 + desired[i].Floor || counts[i] == 2 + desired[i].Floor
    ensures counts[i] == 2 + desired[i].Floor && counts[j] == 1 + desired[j].Floor ==>
      var a, b := desired[i] - desired[i].Floor as real, desired[j] - desired[j].Floor as real;
      b < a || (b == a && i < j)
  {
    var k := RankedHas(desired, i);
    var l := RankedHas(desired, j);
    assert counts[i] == 1 + desired[i].Floor + if k < given then 1 else 0;
    assert counts[j] == 1 + desired[j].Floor + if l < given then 1 else 0;
    if k < given <= l {
      RankedInOrder(desired, k, l);
    }
  }
}
