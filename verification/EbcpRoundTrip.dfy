/** Descriptors of compressed branch embeddings, written into `ext[0]` and read back. */
module EbcpRoundTrip {
  import opened Wrappers
  import opened Machine
  import opened BlockBasics
  import opened Cbor
  import opened CanonicalValue
  import opened BlockFields
  import opened EbcpDescriptor
  import EbcpBits

  // Writing.

  function RotationPairs(matrix: seq<Byte>): seq<Pair> {
    [Field(0, Text(Ascii("f32le-row-major"))), Field(1, Bytes(matrix))]
  }

  function QuantizationPairs(q: Quantization): seq<Pair> {
    match q
    case Uniform(width, scales) => [Field(0, Int(1)), Field(1, Int(width)), Field(3, Bytes(scales))]
    case Variable(widths, scales) => [Field(0, Int(2)), Field(2, Bytes(widths)), Field(3, Bytes(scales))]
  }

  function OptionalPair<T>(key: nat, field: Option<T>, write: T -> Value): seq<Pair>
    requires key < 24
  {
    match field case None => [] case Some(value) => [Field(key, write(value))]
  }

  function BasePairs(dims: U64): seq<Pair> {
    [Field(0, Int(1)), Field(1, Text(Ascii("f32le"))), Field(2, Int(dims))]
  }

  function CentroidValue(centroid: seq<Byte>): Value {
    Bytes(centroid)
  }

  function RotationValue(matrix: seq<Byte>): Value {
    Map(RotationPairs(matrix))
  }

  function QuantizationValue(q: Quantization): Value {
    Map(QuantizationPairs(q))
  }

  /** The rotation goes before the centroid, although its key is the greater one. */
  function DescriptorPairs(d: Descriptor): seq<Pair> {
    BasePairs(d.dims) + OptionalPair(4, d.rotation, RotationValue) + OptionalPair(3, d.baseCentroid, CentroidValue)
    + OptionalPair(5, d.quantization, QuantizationValue)
  }

  function ExtensionMap(d: Descriptor): seq<Pair> {
    [Field(0, Map(DescriptorPairs(d)))]
  }

  // What makes a descriptor valid for an embedding specification.

  ghost predicate FloatVector(bytes: seq<Byte>, count: nat) {
    |bytes| == 4 * count <= USIZE_MAX && AllFinite(bytes)
  }

  ghost predicate ValidScales(scales: seq<Byte>, dims: nat) {
    FloatVector(scales, dims) && NoneNegative(scales)
  }

  ghost predicate ValidQuantization(q: Quantization, spec: EmbeddingSpec) {
    match q
    case Uniform(width, scales) => IsUniform(spec.encoding) && 1 <= width <= 31 && ValidScales(scales, spec.dims)
    case Variable(widths, scales) =>
      IsVariable(spec.encoding) && |widths| == spec.dims && ValidScales(scales, spec.dims)
      && forall i :: 0 <= i < |widths| ==> 1 <= widths[i] <= 31
  }

  ghost predicate ValidFor(spec: EmbeddingSpec, d: Descriptor) {
    && d.dims == spec.dims
    && (d.baseCentroid.Some? ==> FloatVector(d.baseCentroid.value, spec.dims))
    && (d.rotation.Some? ==> FloatVector(d.rotation.value, spec.dims * spec.dims))
    && (d.quantization.Some? ==> ValidQuantization(d.quantization.value, spec))
    && PartsMatch(spec.encoding, d.baseCentroid.Some?, d.rotation.Some?, d.quantization.Some?)
  }

  // Reading back.

  lemma VectorReads(bytes: seq<Byte>, count: nat)
    requires FloatVector(bytes, count)
    ensures ParseF32Vector(Bytes(bytes), count) == Ok(bytes)
  {}

  lemma RotationReads(matrix: seq<Byte>, dims: nat)
    requires FloatVector(matrix, dims * dims)
    ensures ParseRotation(RotationValue(matrix), dims) == Ok(matrix) && IsCanonical(RotationValue(matrix))
  {
    FieldsRead(RotationPairs(matrix), map[0 := Text(Ascii("f32le-row-major")), 1 := Bytes(matrix)]);
    VectorReads(matrix, dims * dims);
  }

  lemma UniformReads(width: Byte, scales: seq<Byte>, spec: EmbeddingSpec)
    requires ValidQuantization(Uniform(width, scales), spec)
    ensures var v := QuantizationValue(Uniform(width, scales));
      ParseQuantization(v, spec) == Ok(Uniform(width, scales)) && IsCanonical(v)
  {
    FieldsRead(QuantizationPairs(Uniform(width, scales)), map[0 := Int(1), 1 := Int(width), 3 := Bytes(scales)]);
    VectorReads(scales, spec.dims);
  }

  lemma VariableReads(widths: seq<Byte>, scales: seq<Byte>, spec: EmbeddingSpec)
    requires ValidQuantization(Variable(widths, scales), spec)
    ensures var v := QuantizationValue(Variable(widths, scales));
      ParseQuantization(v, spec) == Ok(Variable(widths, scales)) && IsCanonical(v)
  {
    FieldsRead(QuantizationPairs(Variable(widths, scales)), map[0 := Int(2), 2 := Bytes(widths), 3 := Bytes(scales)]);
    VectorReads(scales, spec.dims);
    EncodingsDiffer();
  }

  lemma QuantizationReads(q: Quantization, spec: EmbeddingSpec)
    requires ValidQuantization(q, spec)
    ensures ParseQuantization(QuantizationValue(q), spec) == Ok(q) && IsCanonical(QuantizationValue(q))
  {
    match q
    case Uniform(width, scales) => UniformReads(width, scales, spec);
    case Variable(widths, scales) => VariableReads(widths, scales, spec);
  }

  // The order in which the parts are written does not matter after the extension map was normalized.

  function SortedPairs(d: Descriptor): seq<Pair> {
    BasePairs(d.dims) + OptionalPair(3, d.baseCentroid, CentroidValue) + OptionalPair(4, d.rotation, RotationValue)
    + OptionalPair(5, d.quantization, QuantizationValue)
  }

  function WithOptional<T>(fields: Fields, key: nat, field: Option<T>, write: T -> Value): Fields {
    match field case None => fields case Some(value) => fields[key := write(value)]
  }

  function BaseFields(dims: U64): Fields {
    map[0 := Int(1), 1 := Text(Ascii("f32le")), 2 := Int(dims)]
  }

  function DescriptorFields(d: Descriptor): Fields {
    var base := WithOptional(BaseFields(d.dims), 3, d.baseCentroid, CentroidValue);
    WithOptional(WithOptional(base, 4, d.rotation, RotationValue), 5, d.quantization, QuantizationValue)
  }

  /** The fields of the pairs so far, all of them canonical and below `key`. */
  ghost predicate Listing(pairs: seq<Pair>, fields: Fields, key: nat) {
    && SmallKeys(pairs) && Lists(pairs, fields) && (forall k :: k in fields ==> k < key)
    && (forall i :: 0 <= i < |pairs| ==> IsCanonical(pairs[i].value) && pairs[i].key.n < key)
  }

  lemma ListingAppend(pairs: seq<Pair>, fields: Fields, key: nat, value: Value)
    requires Listing(pairs, fields, key) && key < 24 && IsCanonical(value)
    ensures Listing(pairs + [Field(key, value)], fields[key := value], key + 1)
  {
    AppendField(pairs, fields, key, value);
    var all := pairs + [Field(key, value)];
    forall i | 0 <= i < |all|
      ensures IsCanonical(all[i].value) && all[i].key.n < key + 1
    {
      if i < |pairs| {
        assert all[i] == pairs[i];
      }
    }
  }

  lemma ListingNext<T>(pairs: seq<Pair>, fields: Fields, key: nat, field: Option<T>, write: T -> Value)
    requires Listing(pairs, fields, key) && key < 24 && (field.Some? ==> IsCanonical(write(field.value)))
    ensures Listing(pairs + OptionalPair(key, field, write), WithOptional(fields, key, field, write), key + 1)
  {
    if field.Some? {
      ListingAppend(pairs, fields, key, write(field.value));
    } else {
      assert pairs + [] == pairs;
    }
  }

  lemma BaseListed(dims: U64)
    ensures Listing(BasePairs(dims), BaseFields(dims), 3)
  {}

  lemma SortedPairsRead(spec: EmbeddingSpec, d: Descriptor)
    requires ValidFor(spec, d)
    ensures IntegerKeyedMap(Map(SortedPairs(d))) == Ok(DescriptorFields(d)) && IsCanonicalMap(SortedPairs(d))
  {
    if d.rotation.Some? {
      RotationReads(d.rotation.value, spec.dims);
    }
    if d.quantization.Some? {
      QuantizationReads(d.quantization.value, spec);
    }
    var base := BasePairs(d.dims);
    var first := base + OptionalPair(3, d.baseCentroid, CentroidValue);
    var second := first + OptionalPair(4, d.rotation, RotationValue);
    var fields1 := WithOptional(BaseFields(d.dims), 3, d.baseCentroid, CentroidValue);
    var fields2 := WithOptional(fields1, 4, d.rotation, RotationValue);
    BaseListed(d.dims);
    ListingNext(base, BaseFields(d.dims), 3, d.baseCentroid, CentroidValue);
    ListingNext(first, fields1, 4, d.rotation, RotationValue);
    ListingNext(second, fields2, 5, d.quantization, QuantizationValue);
    FieldsRead(SortedPairs(d), DescriptorFields(d));
  }

  lemma SwapMiddle<T>(a: seq<T>, b: seq<T>, c: seq<T>, d: seq<T>)
    ensures multiset(a + b + c + d) == multiset(a + c + b + d)
  {}

  lemma WrittenNormalizes(spec: EmbeddingSpec, d: Descriptor)
    requires ValidFor(spec, d)
    ensures Canonicalize(Map(DescriptorPairs(d))) == Ok(Map(SortedPairs(d)))
  {
    SwapMiddle(BasePairs(d.dims), OptionalPair(4, d.rotation, RotationValue),
               OptionalPair(3, d.baseCentroid, CentroidValue), OptionalPair(5, d.quantization, QuantizationValue));
    PermutedPairs(DescriptorPairs(d), SortedPairs(d));
    SortedPairsRead(spec, d);
  }

  lemma ExtensionNormalizes(spec: EmbeddingSpec, d: Descriptor)
    requires ValidFor(spec, d)
    ensures NormalizeMap(ExtensionMap(d)) == Ok([Field(0, Map(SortedPairs(d)))])
  {
    var pairs, sorted := ExtensionMap(d), [Field(0, Map(SortedPairs(d)))];
    WrittenNormalizes(spec, d);
    assert CanonicalizePair(pairs[0]) == Ok(sorted[0]);
    assert CanonicalizePairs(pairs) == Ok(sorted) by {
      assert pairs[1..] == [];
      assert [sorted[0]] + [] == sorted;
    }
    SortedPairsStay(sorted);
  }

  lemma FieldsParse(spec: EmbeddingSpec, d: Descriptor)
    requires ValidFor(spec, d)
    ensures ParseDescriptor(spec, DescriptorFields(d)) == Ok(d)
  {
    if d.baseCentroid.Some? {
      VectorReads(d.baseCentroid.value, spec.dims);
    }
    if d.rotation.Some? {
      RotationReads(d.rotation.value, spec.dims);
    }
    if d.quantization.Some? {
      QuantizationReads(d.quantization.value, spec);
    }
  }

  /** A valid descriptor that was written into the extension map is read back from its normal form. */
  lemma DescriptorRoundTrip(spec: EmbeddingSpec, d: Descriptor)
    requires ValidFor(spec, d)
    ensures NormalizeMap(ExtensionMap(d)).Ok?
    ensures ParseBranchDescriptor(spec, Some(NormalizeMap(ExtensionMap(d)).value)) == Ok(d)
  {
    var sorted := Map(SortedPairs(d));
    ExtensionNormalizes(spec, d);
    FieldsRead([Field(0, sorted)], map[0 := sorted]);
    SortedPairsRead(spec, d);
    FieldsParse(spec, d);
  }

  // Nothing else is accepted.

  lemma VectorIsFloats(v: Value, count: nat)
    requires ParseF32Vector(v, count).Ok?
    ensures FloatVector(ParseF32Vector(v, count).value, count)
  {}

  lemma RotationIsSquare(v: Value, dims: nat)
    requires ParseRotation(v, dims).Ok?
    ensures FloatVector(ParseRotation(v, dims).value, dims * dims)
  {
    var fields := IntegerKeyedMap(v).value;
    VectorIsFloats(fields[1], dims * dims);
  }

  lemma QuantizationIsValid(v: Value, spec: EmbeddingSpec)
    requires ParseQuantization(v, spec).Ok?
    ensures ValidQuantization(ParseQuantization(v, spec).value, spec)
  {
    var fields := IntegerKeyedMap(v).value;
    VectorIsFloats(fields[3], spec.dims);
  }

  /** Every descriptor that is accepted is valid, so exactly the valid ones survive the round trip. */
  lemma AcceptedIsValid(spec: EmbeddingSpec, ext: Option<seq<Pair>>)
    requires ParseBranchDescriptor(spec, ext).Ok?
    ensures ValidFor(spec, ParseBranchDescriptor(spec, ext).value)
  {
    var fields := IntegerKeyedMap(IntegerKeyedMap(Map(ext.value)).value[0]).value;
    if 3 in fields {
      VectorIsFloats(fields[3], spec.dims);
    }
    if 4 in fields {
      RotationIsSquare(fields[4], spec.dims);
    }
    if 5 in fields {
      QuantizationIsValid(fields[5], spec);
    }
  }
}
