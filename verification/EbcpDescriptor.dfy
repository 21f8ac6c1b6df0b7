/** The descriptor of compressed branch embeddings in `ext[0]`, and the payload checks it implies. */
module EbcpDescriptor {
  // Vectors of 32-bit floats are kept as their bytes.

  import opened Wrappers
  import opened Machine
  import opened BlockBasics
  import opened Cbor
  import opened BlockFields
  import EbcpBits

  datatype Quantization =
    | Uniform(bitWidth: Byte, scales: seq<Byte>)
    | Variable(bitWidths: seq<Byte>, scales: seq<Byte>)

  datatype Descriptor = Descriptor(
    dims: U64,
    baseCentroid: Option<seq<Byte>>,
    rotation: Option<seq<Byte>>,
    quantization: Option<Quantization>
  )

  predicate IsRotatedFloat(encoding: seq<Byte>) {
    encoding == Ascii("pca-rot-f32le") || encoding == Ascii("pca-rot-delta-f32le")
  }

  predicate IsUniform(encoding: seq<Byte>) {
    encoding == Ascii("pca-rot-delta-uq") || encoding == Ascii("ambient-delta-uq")
  }

  predicate IsVariable(encoding: seq<Byte>) {
    encoding == Ascii("pca-rot-delta-vbq")
  }

  predicate IsEbcpEncoding(encoding: seq<Byte>) {
    IsRotatedFloat(encoding) || IsUniform(encoding) || IsVariable(encoding)
  }

  // Little-endian 32-bit floats.

  /** The exponent is not all ones. */
  predicate IsFinite(f: seq<Byte>)
    requires |f| == 4
  {
    !(f[3] % 128 == 127 && f[2] >= 128)
  }

  /** Read as IEEE 754: one sign bit, eight bits of exponent and 23 bits of fraction, the lowest byte first. */
  lemma FiniteByExponent(f: seq<Byte>)
    requires |f| == 4
    ensures IsFinite(f) <==> (f[3] as int % 128) * 2 + f[2] as int / 128 != 255
  {}

  /** Below zero; the negative zero is not. */
  predicate IsNegative(f: seq<Byte>)
    requires |f| == 4
  {
    f[3] >= 128 && f != [0, 0, 0, 128]
  }

  predicate AllFinite(bytes: seq<Byte>)
    requires |bytes| % 4 == 0
  {
    bytes == [] || (IsFinite(bytes[..4]) && AllFinite(bytes[4..]))
  }

  predicate NoneNegative(bytes: seq<Byte>)
    requires |bytes| % 4 == 0
  {
    bytes == [] || (!IsNegative(bytes[..4]) && NoneNegative(bytes[4..]))
  }

  function ParseF32Vector(v: Value, count: nat): (r: Result<seq<Byte>, BlockError>)
    ensures r.Ok? ==> |r.value| % 4 == 0
  {
    if !v.Bytes? then Err(InvalidEntryShape)
    else if CheckedMul(count, 4).None? then Err(NonConforming)
    else if |v.bytes| != count * 4 then Err(NonConforming)
    else if !AllFinite(v.bytes) then Err(NonConforming)
    else Ok(v.bytes)
  }

  function ParseRotation(v: Value, dims: nat): Result<seq<Byte>, BlockError> {
    var fields :- IntegerKeyedMap(v);
    var format :- RequiredText(fields, 0);
    if format != Ascii("f32le-row-major") then Err(NonConforming)
    else
      match CheckedMul(dims, dims)
      case None => Err(NonConforming)
      case Some(count) =>
        if CheckedMul(count, 4).None? then Err(NonConforming)
        else
          var matrix :- Required(fields, 1);
          ParseF32Vector(matrix, count)
  }

  function ParseQuantization(v: Value, spec: EmbeddingSpec): Result<Quantization, BlockError> {
    var fields :- IntegerKeyedMap(v);
    var mode :- RequiredU64(fields, 0);
    var scaleField :- Required(fields, 3);
    var scales :- ParseF32Vector(scaleField, spec.dims);
    if !NoneNegative(scales) then Err(NonConforming)
    else if IsUniform(spec.encoding) then ParseUniform(fields, mode, scales)
    else if IsVariable(spec.encoding) then ParseVariable(fields, mode, scales, spec.dims)
    else Err(NonConforming)
  }

  function ParseUniform(fields: Fields, mode: nat, scales: seq<Byte>): Result<Quantization, BlockError> {
    if mode != 1 then Err(NonConforming)
    else
      var width :- RequiredU64(fields, 1);
      if width == 0 || width > EbcpBits.MAX_SUPPORTED_BIT_WIDTH || 2 in fields then Err(NonConforming)
      else Ok(Uniform(width, scales))
  }

  function ParseVariable(fields: Fields, mode: nat, scales: seq<Byte>, dims: nat): Result<Quantization, BlockError> {
    if mode != 2 || 1 in fields then Err(NonConforming)
    else
      var widths :- RequiredBytes(fields, 2);
      if |widths| != dims || !WidthsSupported(widths) then Err(NonConforming) else Ok(Variable(widths, scales))
  }

  predicate WidthsSupported(widths: seq<Byte>) {
    forall i :: 0 <= i < |widths| ==> 0 < widths[i] <= EbcpBits.MAX_SUPPORTED_BIT_WIDTH
  }

  function OptionalField<T>(fields: Fields, key: nat, parse: Value -> Result<T, BlockError>)
    : Result<Option<T>, BlockError>
  {
    if key !in fields then Ok(None)
    else
      var parsed :- parse(fields[key]);
      Ok(Some(parsed))
  }

  /** Which parts each encoding needs and forbids. */
  predicate PartsMatch(encoding: seq<Byte>, centroid: bool, rotation: bool, quantization: bool) {
    if encoding == Ascii("pca-rot-f32le") then rotation && !centroid && !quantization
    else if encoding == Ascii("pca-rot-delta-f32le") then rotation && centroid && !quantization
    else if encoding == Ascii("ambient-delta-uq") then !rotation && centroid && quantization
    else rotation && centroid && quantization
  }

  function ParseDescriptor(spec: EmbeddingSpec, fields: Fields): Result<Descriptor, BlockError> {
    var version :- RequiredU64(fields, 0);
    if version != 1 then Err(NonConforming)
    else
      var logical :- RequiredText(fields, 1);
      if logical != Ascii("f32le") then Err(NonConforming)
      else
        var dims :- RequiredU64(fields, 2);
        if dims != spec.dims then Err(NonConforming)
        else
          var centroid :- OptionalField(fields, 3, v => ParseF32Vector(v, dims));
          var rotation :- OptionalField(fields, 4, v => ParseRotation(v, dims));
          var quantization :- OptionalField(fields, 5, v => ParseQuantization(v, spec));
          if !PartsMatch(spec.encoding, centroid.Some?, rotation.Some?, quantization.Some?) then Err(NonConforming)
          else Ok(Descriptor(dims, centroid, rotation, quantization))
  }

  function ParseBranchDescriptor(spec: EmbeddingSpec, ext: Option<seq<Pair>>): Result<Descriptor, BlockError> {
    if ext.None? then Err(NonConforming)
    else
      var extFields :- IntegerKeyedMap(Map(ext.value));
      var descriptor :- Required(extFields, 0);
      var fields :- IntegerKeyedMap(descriptor);
      ParseDescriptor(spec, fields)
  }

  /** The widths of the codes in one payload; floats count as their 32 bits. */
  function PayloadBitLength(spec: EmbeddingSpec, descriptor: Descriptor): Result<nat, BlockError> {
    if IsRotatedFloat(spec.encoding) then
      (match CheckedMul(spec.dims, 32) case None => Err(NonConforming) case Some(bits) => Ok(bits))
    else
      match descriptor.quantization
      case None => Err(NonConforming)
      case Some(Uniform(width, _)) =>
        if !IsUniform(spec.encoding) then Err(NonConforming)
        else (match CheckedMul(spec.dims, width) case None => Err(NonConforming) case Some(bits) => Ok(bits))
      case Some(Variable(widths, _)) =>
        if !IsVariable(spec.encoding) || EbcpBits.TotalBits(widths) > USIZE_MAX then Err(NonConforming)
        else Ok(EbcpBits.TotalBits(widths))
  }

  predicate AllAccepted(embeddings: seq<seq<Byte>>, bits: nat) {
    forall i :: 0 <= i < |embeddings| ==> EbcpBits.Accepts(embeddings[i], bits)
  }

  /** Every embedding has the length the descriptor implies, and no stray padding bits. */
  function CheckBranchEmbeddings(spec: EmbeddingSpec, ext: Option<seq<Pair>>, embeddings: seq<seq<Byte>>)
    : Result<(), BlockError>
  {
    if !IsEbcpEncoding(spec.encoding) then Ok(())
    else
      var descriptor :- ParseBranchDescriptor(spec, ext);
      var bits :- PayloadBitLength(spec, descriptor);
      if bits + 7 > USIZE_MAX then Err(NonConforming)
      else if AllAccepted(embeddings, bits) then Ok(())
      else Err(NonConforming)
  }

  /** How many bits each embedding has: 32 per dimension, the same width for each, or the sum of their widths. */
  function DeclaredBits(spec: EmbeddingSpec, descriptor: Descriptor): nat {
    match descriptor.quantization
    case None => spec.dims * 32
    case Some(Uniform(width, _)) => spec.dims * width
    case Some(Variable(widths, _)) => EbcpBits.TotalBits(widths)
  }

  /** A descriptor that was accepted has exactly the parts that the encoding is named for. */
  lemma AcceptedParts(spec: EmbeddingSpec, ext: Option<seq<Pair>>)
    requires IsEbcpEncoding(spec.encoding) && ParseBranchDescriptor(spec, ext).Ok?
    ensures var d := ParseBranchDescriptor(spec, ext).value;
      && (d.rotation.None? <==> spec.encoding == Ascii("ambient-delta-uq"))
      && (d.baseCentroid.None? <==> spec.encoding == Ascii("pca-rot-f32le"))
    ensures var q := ParseBranchDescriptor(spec, ext).value.quantization;
      && (IsRotatedFloat(spec.encoding) <==> q.None?)
      && (IsUniform(spec.encoding) <==> q.Some? && q.value.Uniform?)
      && (IsVariable(spec.encoding) <==> q.Some? && q.value.Variable?)
  {
    EncodingsDiffer();
  }

  /**
   With an encoding this check is for, it accepts exactly when there is a descriptor, the number of bits it
   declares can be counted, and every embedding has that many bits in as few bytes as hold them, with zeros behind.
   */
  lemma CheckAccepts(spec: EmbeddingSpec, ext: Option<seq<Pair>>, embeddings: seq<seq<Byte>>)
    requires IsEbcpEncoding(spec.encoding)
    ensures CheckBranchEmbeddings(spec, ext, embeddings).Ok? <==>
      && ParseBranchDescriptor(spec, ext).Ok?
      && var bits := DeclaredBits(spec, ParseBranchDescriptor(spec, ext).value);
         bits + 7 <= USIZE_MAX && forall e :: e in embeddings ==> EbcpBits.HoldsBits(e, bits)
  {
    EncodingsDiffer();
    if ParseBranchDescriptor(spec, ext).Ok? {
      AcceptedParts(spec, ext);
      AcceptedEach(embeddings, DeclaredBits(spec, ParseBranchDescriptor(spec, ext).value));
    }
  }

  lemma AcceptedEach(embeddings: seq<seq<Byte>>, bits: nat)
    ensures AllAccepted(embeddings, bits) <==> forall e :: e in embeddings ==> EbcpBits.HoldsBits(e, bits)
  {
    if AllAccepted(embeddings, bits) {
      forall e | e in embeddings
        ensures EbcpBits.HoldsBits(e, bits)
      {
        EbcpBits.AcceptsHolds(e, bits);
      }
    } else {
      var i :| 0 <= i < |embeddings| && !EbcpBits.Accepts(embeddings[i], bits);
      EbcpBits.AcceptsHolds(embeddings[i], bits);
    }
  }

  /** The order of the embeddings does not matter to the check. */
  lemma CheckIgnoresOrder(spec: EmbeddingSpec, ext: Option<seq<Pair>>, a: seq<seq<Byte>>, b: seq<seq<Byte>>)
    requires forall e :: e in a <==> e in b
    ensures CheckBranchEmbeddings(spec, ext, a) == CheckBranchEmbeddings(spec, ext, b)
  {
    if IsEbcpEncoding(spec.encoding) && ParseBranchDescriptor(spec, ext).Ok? {
      var bits := PayloadBitLength(spec, ParseBranchDescriptor(spec, ext).value);
      if bits.Ok? {
        AllAcceptedInOrder(a, b, bits.value);
        AllAcceptedInOrder(b, a, bits.value);
      }
    }
  }

  lemma AllAcceptedInOrder(a: seq<seq<Byte>>, b: seq<seq<Byte>>, bits: nat)
    requires forall e :: e in b ==> e in a
    ensures AllAccepted(a, bits) ==> AllAccepted(b, bits)
  {
    if AllAccepted(a, bits) {
      forall i | 0 <= i < |b|
        ensures EbcpBits.Accepts(b[i], bits)
      {
        assert b[i] in a;
      }
    }
  }

  /**
   The widths of a descriptor that passed the checks are those the bit packing is proved for, one per
   dimension; a payload is then accepted exactly when it is the packing of some fitting codes.
   */
  lemma DescriptorWidthsAreValid(spec: EmbeddingSpec, ext: Option<seq<Pair>>)
    requires ParseBranchDescriptor(spec, ext).Ok?
    ensures var d := ParseBranchDescriptor(spec, ext).value;
      && d.dims == spec.dims
      && (IsUniform(spec.encoding) ==>
            d.quantization.Some? && d.quantization.value.Uniform?
            && 1 <= d.quantization.value.bitWidth <= EbcpBits.MAX_SUPPORTED_BIT_WIDTH)
      && (IsVariable(spec.encoding) ==>
            d.quantization.Some? && d.quantization.value.Variable?
            && |d.quantization.value.bitWidths| == d.dims && EbcpBits.ValidWidths(d.quantization.value.bitWidths))
  {
    EncodingsDiffer();
  }

  lemma EncodingsDiffer()
    ensures forall e :: IsUniform(e) ==> !IsVariable(e) && !IsRotatedFloat(e)
    ensures forall e :: IsVariable(e) ==> !IsRotatedFloat(e)
  {
    assert Ascii("ambient-delta-uq")[0] == 97 && Ascii("pca-rot-delta-vbq")[0] == 112;
    assert Ascii("pca-rot-delta-uq")[14] == 117;
    assert |Ascii("pca-rot-f32le")| == 13 && |Ascii("ambient-delta-uq")| == 16;
  }
}
