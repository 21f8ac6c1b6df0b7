/** The entries of branch and leaf blocks: their values, their parsing, and their normal form. */
module BlockEntries {
  import opened Wrappers
  import opened Machine
  import opened BlockBasics
  import opened Cbor
  import opened CanonicalValue
  import opened BlockFields
  import opened Permutation
  import EbcpDescriptor
  import Recency
  import SortKeys
  import StableSort

  datatype BranchEntry = BranchEntry(embedding: seq<Byte>, child: BlockHash)

  datatype Content = Content(mediaType: seq<Byte>, body: seq<Byte>)

  datatype LeafEntry = LeafEntry(embedding: seq<Byte>, metadata: seq<Pair>, content: Content)

  // Embedding specifications.

  function ValidateSpec(spec: EmbeddingSpec): Result<(), BlockError> {
    if spec.encoding == Ascii("f32le") || spec.encoding == Ascii("f16le") || spec.encoding == Ascii("i8")
       || spec.encoding == Ascii("pq4") || EbcpDescriptor.IsEbcpEncoding(spec.encoding) then Ok(())
    else Err(NonConforming)
  }

  /** Four plain encodings and five for compressed branches, and no others. */
  lemma ValidSpecs(spec: EmbeddingSpec)
    ensures ValidateSpec(spec).Ok? <==>
      || spec.encoding in [Ascii("f32le"), Ascii("f16le"), Ascii("i8"), Ascii("pq4"), Ascii("pca-rot-f32le")]
      || spec.encoding in [Ascii("pca-rot-delta-f32le"), Ascii("pca-rot-delta-uq"), Ascii("ambient-delta-uq"),
                           Ascii("pca-rot-delta-vbq")]
  {}

  /** Field 0 holds the dimensions and field 1 the encoding. */
  lemma SpecLayout(spec: EmbeddingSpec)
    ensures SpecValue(spec) == Map([Pair(Int(0), Int(spec.dims)), Pair(Int(1), Text(spec.encoding))])
  {}

  function SpecFields(spec: EmbeddingSpec): seq<Pair> {
    [Field(0, Int(spec.dims)), Field(1, Text(spec.encoding))]
  }

  function SpecValue(spec: EmbeddingSpec): Value {
    Map(SpecFields(spec))
  }

  function ParseSpec(v: Value): Result<EmbeddingSpec, BlockError> {
    var fields :- IntegerKeyedMap(v);
    var _ :- RejectUnknownKeys(fields, {0, 1});
    var dims :- RequiredU64(fields, 0);
    var encoding :- RequiredText(fields, 1);
    Ok(EmbeddingSpec(dims, encoding))
  }

  lemma SpecRoundTrip(spec: EmbeddingSpec)
    ensures ParseSpec(SpecValue(spec)) == Ok(spec) && IsCanonical(SpecValue(spec))
  {
    FieldsRead(SpecFields(spec), map[0 := Int(spec.dims), 1 := Text(spec.encoding)]);
  }

  // Branch entries.

  function BranchEntryFields(entry: BranchEntry): seq<Pair> {
    [Field(0, Bytes(entry.embedding)), Field(1, Bytes(entry.child))]
  }

  function BranchEntryValue(entry: BranchEntry): Value {
    Map(BranchEntryFields(entry))
  }

  function ParseBranchEntry(v: Value): Result<BranchEntry, BlockError> {
    var fields :- IntegerKeyedMap(v);
    var _ :- RejectUnknownKeys(fields, {0, 1});
    var embedding :- RequiredBytes(fields, 0);
    var child :- RequiredBytes(fields, 1);
    if |child| == 32 then Ok(BranchEntry(embedding, child)) else Err(InvalidEntryShape)
  }

  lemma BranchEntryRoundTrip(entry: BranchEntry)
    ensures ParseBranchEntry(BranchEntryValue(entry)) == Ok(entry) && IsCanonical(BranchEntryValue(entry))
  {
    FieldsRead(BranchEntryFields(entry), map[0 := Bytes(entry.embedding), 1 := Bytes(entry.child)]);
  }

  // Leaf entries.

  function ContentFields(content: Content): seq<Pair> {
    [Field(0, Text(content.mediaType)), Field(1, Bytes(content.body))]
  }

  function ContentValue(content: Content): Value {
    Map(ContentFields(content))
  }

  function ParseContent(v: Value): Result<Content, BlockError> {
    var fields :- IntegerKeyedMap(v);
    var _ :- RejectUnknownKeys(fields, {0, 1});
    var mediaType :- RequiredText(fields, 0);
    var body :- RequiredBytes(fields, 1);
    Ok(Content(mediaType, body))
  }

  lemma ContentRoundTrip(content: Content)
    ensures ParseContent(ContentValue(content)) == Ok(content) && IsCanonical(ContentValue(content))
  {
    FieldsRead(ContentFields(content), map[0 := Text(content.mediaType), 1 := Bytes(content.body)]);
  }

  function LeafEntryFields(entry: LeafEntry): seq<Pair> {
    [Field(0, Bytes(entry.embedding)), Field(1, Map(entry.metadata)), Field(2, ContentValue(entry.content))]
  }

  function LeafEntryValue(entry: LeafEntry): Value {
    Map(LeafEntryFields(entry))
  }

  function ParseLeafEntry(v: Value): Result<LeafEntry, BlockError> {
    var fields :- IntegerKeyedMap(v);
    var _ :- RejectUnknownKeys(fields, {0, 1, 2});
    var embedding :- RequiredBytes(fields, 0);
    var metadataField :- Required(fields, 1);
    var metadata :- ExpectArbitraryMap(metadataField);
    var contentField :- Required(fields, 2);
    var content :- ParseContent(contentField);
    Ok(LeafEntry(embedding, metadata, content))
  }

  /** Parsing also puts the metadata into canonical form, or refuses it. */
  lemma LeafEntryRoundTrip(entry: LeafEntry)
    ensures ParseLeafEntry(LeafEntryValue(entry))
         == match NormalizeMap(entry.metadata)
            case Err(error) => Err(error)
            case Ok(metadata) => Ok(entry.(metadata := metadata))
    ensures IsCanonicalMap(entry.metadata) ==> IsCanonical(LeafEntryValue(entry))
  {
    ContentRoundTrip(entry.content);
    FieldsRead(LeafEntryFields(entry),
               map[0 := Bytes(entry.embedding), 1 := Map(entry.metadata), 2 := ContentValue(entry.content)]);
  }

  /** Field 0 holds the embedding; branches have the child in field 1, leaves their metadata and content. */
  lemma EntryLayouts(branch: BranchEntry, leaf: LeafEntry)
    ensures BranchEntryValue(branch) == Map([Pair(Int(0), Bytes(branch.embedding)), Pair(Int(1), Bytes(branch.child))])
    ensures LeafEntryValue(leaf)
         == Map([Pair(Int(0), Bytes(leaf.embedding)), Pair(Int(1), Map(leaf.metadata)),
                 Pair(Int(2), Map([Pair(Int(0), Text(leaf.content.mediaType)),
                                   Pair(Int(1), Bytes(leaf.content.body))]))])
  {}

  // Lists of entries.

  function ParseEach<T>(parse: Value -> Result<T, BlockError>, v: Value): (r: Result<seq<T>, BlockError>)
    ensures r.Ok? ==> v.Array? && |r.value| == |v.items|
  {
    var items :- ExpectArray(v);
    Collect(Apply(parse, items))
  }

  lemma EntriesRoundTrip<T>(parse: Value -> Result<T, BlockError>, build: T -> Value, entries: seq<T>)
    requires forall e :: e in entries ==> parse(build(e)) == Ok(e) && IsCanonical(build(e))
    ensures ParseEach(parse, Array(Apply(build, entries))) == Ok(entries)
    ensures IsCanonical(Array(Apply(build, entries)))
  {
    var items := Apply(build, entries);
    var results := Apply(parse, items);
    forall k | 0 <= k < |entries|
      ensures results[k] == Ok(entries[k]) && IsCanonical(items[k])
    {
      assert entries[k] in entries;
    }
    CollectValues(results);
    assert Collect(results).value == entries;
    CanonicalItemsStay(items);
  }

  // Normal form of branch entries: sorted by embedding, then child, without repetition.

  predicate EntryLess(a: BranchEntry, b: BranchEntry) {
    SortKeys.Then(SortKeys.CompareSlices(a.embedding, b.embedding), SortKeys.CompareSlices(a.child, b.child))
    == SortKeys.Less
  }

  function Itself(entry: BranchEntry): BranchEntry {
    entry
  }

  lemma EntryLessIsStrict()
    ensures StableSort.StrictOrder(EntryLess)
  {
    forall a: BranchEntry, b: BranchEntry
      ensures !EntryLess(a, a)
      ensures EntryLess(a, b) || a == b || EntryLess(b, a)
    {
      EntriesCompare(a, a);
      EntriesCompare(a, b);
    }
    forall a: BranchEntry, b: BranchEntry, c: BranchEntry | EntryLess(a, b) && EntryLess(b, c)
      ensures EntryLess(a, c)
    {
      EntriesTransitive(a, b, c);
    }
  }

  lemma EntriesCompare(a: BranchEntry, b: BranchEntry)
    ensures a == b ==> !EntryLess(a, b)
    ensures EntryLess(a, b) || a == b || EntryLess(b, a)
  {
    SortKeys.SlicesOrder(a.embedding, b.embedding);
    SortKeys.SlicesOrder(b.embedding, a.embedding);
    SortKeys.SlicesOrder(a.child, b.child);
    SortKeys.SlicesOrder(b.child, a.child);
  }

  /** Entries stand in the order of a dictionary over their embedding bytes, then over their child hashes. */
  lemma EntriesByPosition(a: BranchEntry, b: BranchEntry)
    ensures EntryLess(a, b) <==> DictionaryOrdered(a, b)
  {
    SortKeys.SlicesByPosition(a.embedding, b.embedding);
    SortKeys.SlicesByPosition(a.child, b.child);
  }

  lemma EntriesTransitive(a: BranchEntry, b: BranchEntry, c: BranchEntry)
    requires EntryLess(a, b) && EntryLess(b, c)
    ensures EntryLess(a, c)
  {
    SortKeys.SlicesOrder(a.embedding, b.embedding);
    SortKeys.SlicesOrder(b.embedding, c.embedding);
    SortKeys.SlicesOrder(a.embedding, c.embedding);
    if a.embedding == b.embedding == c.embedding {
      SortKeys.SlicesTransitive(a.child, b.child, c.child);
    } else if a.embedding != b.embedding && b.embedding != c.embedding {
      SortKeys.SlicesTransitive(a.embedding, b.embedding, c.embedding);
    }
  }

  function SortEntries(entries: seq<BranchEntry>): seq<BranchEntry> {
    StableSort.Sort(Itself, EntryLess, entries)
  }

  function NormalizeEntries(entries: seq<BranchEntry>): Result<seq<BranchEntry>, BlockError> {
    if StableSort.NeighboursDiffer(Itself, SortEntries(entries)) then Ok(SortEntries(entries)) else Err(NonConforming)
  }

  /** Sorts in place and compares neighbours. */
  method NormalizeBranchEntries(entries: seq<BranchEntry>) returns (result: Result<seq<BranchEntry>, BlockError>)
    ensures result == NormalizeEntries(entries)
  {
    var sorted := SortEntries(entries);
    var i := 0;
    while i + 1 < |sorted|
      invariant 0 <= i && (i == 0 || i < |sorted|)
      invariant forall k :: 0 <= k < i ==> sorted[k] != sorted[k + 1]
    {
      if sorted[i] == sorted[i + 1] {
        assert Itself(sorted[i]) == Itself(sorted[i + 1]);
        return Err(NonConforming);
      }
      i := i + 1;
    }
    return Ok(sorted);
  }

  lemma NormalizedEntries(entries: seq<BranchEntry>)
    requires NormalizeEntries(entries).Ok?
    ensures var normal := NormalizeEntries(entries).value;
      && multiset(normal) == multiset(entries)
      && StableSort.StrictlySorted(Itself, EntryLess, normal)
      && NormalizeEntries(normal) == Ok(normal)
  {
    var normal := SortEntries(entries);
    EntryLessIsStrict();
    StableSort.SortIsPermutation(Itself, EntryLess, entries);
    StableSort.SortSorts(Itself, EntryLess, entries);
    StableSort.NeighboursDecide(Itself, EntryLess, normal);
    StableSort.SortIsIdentity(Itself, EntryLess, normal);
  }

  /**
   Normalizing fails exactly when an entry is there twice; otherwise it gives the same entries, ordered by their
   embedding bytes and then by their child hashes, both as in a dictionary.
   */
  lemma EntriesInOrder(entries: seq<BranchEntry>)
    ensures NormalizeEntries(entries)
         == if Recency.Distinct(entries) then Ok(SortEntries(entries)) else Err(NonConforming)
    ensures multiset(SortEntries(entries)) == multiset(entries)
    ensures NormalizeEntries(entries).Ok? ==>
      forall i, j :: 0 <= i < j < |entries| ==> DictionaryOrdered(SortEntries(entries)[i], SortEntries(entries)[j])
  {
    var normal := SortEntries(entries);
    EntryLessIsStrict();
    StableSort.SortIsPermutation(Itself, EntryLess, entries);
    StableSort.SortSorts(Itself, EntryLess, entries);
    StableSort.NeighboursDecide(Itself, EntryLess, normal);
    if NormalizeEntries(entries).Ok? {
      forall i, j | 0 <= i < j < |normal|
        ensures DictionaryOrdered(normal[i], normal[j]) && normal[i] != normal[j]
      {
        assert EntryLess(Itself(normal[i]), Itself(normal[j]));
        EntriesByPosition(normal[i], normal[j]);
      }
      Recency.DistinctByMultiset(normal, entries);
    } else if Recency.Distinct(entries) {
      Recency.DistinctByMultiset(entries, normal);
    }
  }

  ghost predicate DictionaryOrdered(a: BranchEntry, b: BranchEntry) {
    || SortKeys.DictionaryBefore(a.embedding, b.embedding)
    || (a.embedding == b.embedding && SortKeys.DictionaryBefore(a.child, b.child))
  }

  lemma PermutedEntries(a: seq<BranchEntry>, b: seq<BranchEntry>)
    requires multiset(a) == multiset(b)
    ensures NormalizeEntries(a) == NormalizeEntries(b)
  {
    EntryLessIsStrict();
    StableSort.SortOfPermutation(Itself, EntryLess, a, b);
  }

  // What both block versions do with the parts of a branch and of a leaf.

  function EmbeddingOf(entry: BranchEntry): seq<Byte> {
    entry.embedding
  }

  datatype BranchParts = BranchParts(entries: seq<BranchEntry>, ext: Option<seq<Pair>>)

  function NormalizeBranchParts(spec: EmbeddingSpec, parts: BranchParts): Result<BranchParts, BlockError> {
    var ext :- NormalizeOptionalMap(parts.ext);
    var _ :- EbcpDescriptor.CheckBranchEmbeddings(spec, ext, Apply(EmbeddingOf, parts.entries));
    var entries :- NormalizeEntries(parts.entries);
    Ok(BranchParts(entries, ext))
  }

  datatype LeafParts = LeafParts(entries: seq<LeafEntry>, ext: Option<seq<Pair>>)

  function NormalizeLeafParts(parts: LeafParts): Result<LeafParts, BlockError> {
    var ext :- NormalizeOptionalMap(parts.ext);
    if |parts.entries| != 1 then Err(NonConforming)
    else
      var metadata :- NormalizeMap(parts.entries[0].metadata);
      Ok(LeafParts([parts.entries[0].(metadata := metadata)], ext))
  }

  lemma MapNormalizes(pairs: seq<Pair>)
    ensures NormalizeMap(pairs).Ok? <==> Canonicalize(Map(pairs)).Ok?
  {}

  /** The conditions on the parts of a branch: maps without repeated keys, payloads that fit, no entry twice. */
  lemma BranchPartsNormalize(spec: EmbeddingSpec, parts: BranchParts)
    ensures NormalizeBranchParts(spec, parts).Ok? <==>
      && (parts.ext.Some? ==> Canonicalize(Map(parts.ext.value)).Ok?)
      && EbcpDescriptor.CheckBranchEmbeddings(spec, NormalizeOptionalMap(parts.ext).value,
                                              Apply(EmbeddingOf, parts.entries)).Ok?
      && Recency.Distinct(parts.entries)
  {
    if parts.ext.Some? {
      MapNormalizes(parts.ext.value);
    }
    EntriesInOrder(parts.entries);
  }

  /** The conditions on the parts of a leaf: exactly one entry, and maps without repeated keys. */
  lemma LeafPartsNormalize(parts: LeafParts)
    ensures NormalizeLeafParts(parts).Ok? <==>
      && (parts.ext.Some? ==> Canonicalize(Map(parts.ext.value)).Ok?)
      && |parts.entries| == 1 && Canonicalize(Map(parts.entries[0].metadata)).Ok?
  {
    if parts.ext.Some? {
      MapNormalizes(parts.ext.value);
    }
    if |parts.entries| == 1 {
      MapNormalizes(parts.entries[0].metadata);
    }
  }

  predicate IsCanonicalExt(ext: Option<seq<Pair>>) {
    ext.Some? ==> IsCanonicalMap(ext.value)
  }

  lemma NormalizedExt(ext: Option<seq<Pair>>)
    requires NormalizeOptionalMap(ext).Ok?
    ensures var normal := NormalizeOptionalMap(ext).value;
      && normal.Some? == ext.Some? && IsCanonicalExt(normal)
      && NormalizeOptionalMap(normal) == Ok(normal)
  {
    if ext.Some? {
      NormalizedMapIsCanonical(ext.value);
    }
  }

  lemma SameEmbeddings(a: seq<BranchEntry>, b: seq<BranchEntry>)
    requires multiset(a) == multiset(b)
    ensures forall e :: e in Apply(EmbeddingOf, a) <==> e in Apply(EmbeddingOf, b)
  {
    ApplyPermuted(EmbeddingOf, a, b);
    SameElements(Apply(EmbeddingOf, a), Apply(EmbeddingOf, b));
  }

  /** Normalizing the parts of a branch twice is normalizing them once. */
  lemma BranchPartsIdempotent(spec: EmbeddingSpec, parts: BranchParts)
    requires NormalizeBranchParts(spec, parts).Ok?
    ensures var normal := NormalizeBranchParts(spec, parts).value;
      && NormalizeBranchParts(spec, normal) == Ok(normal) && IsCanonicalExt(normal.ext)
      && normal.ext.Some? == parts.ext.Some? && |normal.entries| == |parts.entries|
  {
    var normal := NormalizeBranchParts(spec, parts).value;
    NormalizedExt(parts.ext);
    NormalizedEntries(parts.entries);
    SameEmbeddings(normal.entries, parts.entries);
    EbcpDescriptor.CheckIgnoresOrder(spec, normal.ext, Apply(EmbeddingOf, normal.entries),
                                     Apply(EmbeddingOf, parts.entries));
    assert |multiset(normal.entries)| == |normal.entries| && |multiset(parts.entries)| == |parts.entries|;
  }

  lemma LeafPartsIdempotent(parts: LeafParts)
    requires NormalizeLeafParts(parts).Ok?
    ensures var normal := NormalizeLeafParts(parts).value;
      && NormalizeLeafParts(normal) == Ok(normal) && IsCanonicalExt(normal.ext)
      && |normal.entries| == 1 && IsCanonicalMap(normal.entries[0].metadata)
  {
    NormalizedExt(parts.ext);
    NormalizedMapIsCanonical(parts.entries[0].metadata);
  }

  /** Two extension maps that differ in the order of pairs, at any depth. */
  ghost predicate ReorderedExt(a: Option<seq<Pair>>, b: Option<seq<Pair>>) {
    a.Some? == b.Some? && (a.Some? ==> Reordered(Map(a.value), Map(b.value)))
  }

  lemma ReorderedExtNormalizes(a: Option<seq<Pair>>, b: Option<seq<Pair>>)
    requires ReorderedExt(a, b)
    ensures NormalizeOptionalMap(a) == NormalizeOptionalMap(b)
  {
    if a.Some? {
      ReorderedValues(Map(a.value), Map(b.value));
    }
  }

  /** The order of branch entries and of map pairs does not matter. */
  lemma BranchPartsIgnoreOrder(spec: EmbeddingSpec, a: BranchParts, b: BranchParts)
    requires multiset(a.entries) == multiset(b.entries) && ReorderedExt(a.ext, b.ext)
    ensures NormalizeBranchParts(spec, a) == NormalizeBranchParts(spec, b)
  {
    ReorderedExtNormalizes(a.ext, b.ext);
    PermutedEntries(a.entries, b.entries);
    SameEmbeddings(a.entries, b.entries);
    var ext := NormalizeOptionalMap(a.ext);
    if ext.Ok? {
      EbcpDescriptor.CheckIgnoresOrder(spec, ext.value, Apply(EmbeddingOf, a.entries), Apply(EmbeddingOf, b.entries));
    }
  }

  /** Leaf entries that differ in the order of metadata pairs only. */
  ghost predicate ReorderedLeafEntries(a: seq<LeafEntry>, b: seq<LeafEntry>) {
    |a| == |b| && forall i :: 0 <= i < |a| ==>
      a[i].embedding == b[i].embedding && a[i].content == b[i].content
      && Reordered(Map(a[i].metadata), Map(b[i].metadata))
  }

  lemma LeafPartsIgnoreOrder(a: LeafParts, b: LeafParts)
    requires ReorderedLeafEntries(a.entries, b.entries) && ReorderedExt(a.ext, b.ext)
    ensures NormalizeLeafParts(a) == NormalizeLeafParts(b)
  {
    ReorderedExtNormalizes(a.ext, b.ext);
    if |a.entries| == 1 {
      ReorderedValues(Map(a.entries[0].metadata), Map(b.entries[0].metadata));
    }
  }
}
