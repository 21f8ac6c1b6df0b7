/** Maps with small integer keys: how the fields of a block are laid out and read back. */
module BlockFields {
  import opened Wrappers
  import opened Machine
  import opened BlockBasics
  import opened Cbor
  import opened CanonicalValue
  import SortKeys

  type Fields = map<nat, Value>

  /** Collects the pairs of an integer-keyed map; a key that is no unsigned integer or comes twice is refused. */
  function CollectFields(pairs: seq<Pair>, fields: Fields): Result<Fields, BlockError> {
    if pairs == [] then Ok(fields)
    else if !pairs[0].key.Int? || pairs[0].key.n < 0 then Err(InvalidFieldKey)
    else if pairs[0].key.n in fields then Err(NonConforming)
    else CollectFields(pairs[1..], fields[pairs[0].key.n := pairs[0].value])
  }

  function IntegerKeyedMap(v: Value): Result<Fields, BlockError> {
    if v.Map? then CollectFields(v.pairs, map[]) else Err(InvalidEntryShape)
  }

  /** The loop over the pairs. */
  method ReadIntegerKeyedMap(v: Value) returns (result: Result<Fields, BlockError>)
    ensures result == IntegerKeyedMap(v)
  {
    if !v.Map? {
      return Err(InvalidEntryShape);
    }
    var fields: Fields := map[];
    for i := 0 to |v.pairs|
      invariant IntegerKeyedMap(v) == CollectFields(v.pairs[i..], fields)
    {
      var pair := v.pairs[i];
      assert v.pairs[i..][0] == pair && v.pairs[i..][1..] == v.pairs[i + 1..];
      if !pair.key.Int? || pair.key.n < 0 {
        return Err(InvalidFieldKey);
      }
      if pair.key.n in fields {
        return Err(NonConforming);
      }
      fields := fields[pair.key.n := pair.value];
    }
    return Ok(fields);
  }

  function Required(fields: Fields, key: nat): Result<Value, BlockError> {
    if key in fields then Ok(fields[key]) else Err(MissingField(key))
  }

  function RequiredU64(fields: Fields, key: nat): Result<U64, BlockError> {
    var v :- Required(fields, key);
    if v.Int? && v.n >= 0 then Ok(v.n) else Err(InvalidEntryShape)
  }

  function RequiredText(fields: Fields, key: nat): Result<seq<Byte>, BlockError> {
    var v :- Required(fields, key);
    if v.Text? then Ok(v.utf8) else Err(InvalidEntryShape)
  }

  function RequiredBytes(fields: Fields, key: nat): Result<seq<Byte>, BlockError> {
    var v :- Required(fields, key);
    if v.Bytes? then Ok(v.bytes) else Err(InvalidEntryShape)
  }

  function RejectUnknownKeys(fields: Fields, allowed: set<nat>): Result<(), BlockError> {
    if fields.Keys <= allowed then Ok(()) else Err(InvalidFieldKey)
  }

  function ExpectArray(v: Value): Result<seq<Value>, BlockError> {
    if v.Array? then Ok(v.items) else Err(InvalidEntryShape)
  }

  /** Any map, in canonical form. */
  function ExpectArbitraryMap(v: Value): Result<seq<Pair>, BlockError> {
    var canonical :- Canonicalize(v);
    if canonical.Map? then Ok(canonical.pairs) else Err(InvalidEntryShape)
  }

  /** A map field that may be absent. */
  function OptionalMapField(fields: Fields, key: nat): Result<Option<seq<Pair>>, BlockError> {
    if key !in fields then Ok(None)
    else
      var pairs :- ExpectArbitraryMap(fields[key]);
      Ok(Some(pairs))
  }

  function NormalizeMap(pairs: seq<Pair>): Result<seq<Pair>, BlockError> {
    ExpectArbitraryMap(Map(pairs))
  }

  function NormalizeOptionalMap(pairs: Option<seq<Pair>>): Result<Option<seq<Pair>>, BlockError> {
    match pairs
    case None => Ok(None)
    case Some(present) =>
      var normal :- NormalizeMap(present);
      Ok(Some(normal))
  }

  predicate IsCanonicalMap(pairs: seq<Pair>) {
    IsCanonical(Map(pairs))
  }

  lemma NormalizedMapIsCanonical(pairs: seq<Pair>)
    ensures NormalizeMap(pairs).Ok? ==> IsCanonicalMap(NormalizeMap(pairs).value)
  {
    CanonicalizeIsIdempotent(Map(pairs));
  }

  // Field lists with small increasing keys.

  function Field(key: nat, value: Value): Pair
    requires key < 24
  {
    Pair(Int(key), value)
  }

  /** Keys below 24 in increasing order. */
  ghost predicate SmallKeys(pairs: seq<Pair>) {
    && (forall i :: 0 <= i < |pairs| ==> pairs[i].key.Int? && 0 <= pairs[i].key.n < 24)
    && forall i, j :: 0 <= i < j < |pairs| ==> pairs[i].key.n < pairs[j].key.n
  }

  lemma SmallKeysAreStrict(pairs: seq<Pair>)
    requires SmallKeys(pairs)
    ensures StrictKeys(pairs)
  {
    forall i, j | 0 <= i < j < |pairs|
      ensures LengthFirst(KeyBytes(pairs[i]), KeyBytes(pairs[j]))
    {
      SmallKeysInOrder(pairs[i].key.n, pairs[j].key.n);
    }
  }

  lemma SmallKeysInOrder(a: nat, b: nat)
    requires a < b < 24
    ensures LengthFirst(Encode(Int(a)), Encode(Int(b)))
  {
    assert Encode(Int(a)) == [a] && Encode(Int(b)) == [b];
    assert SortKeys.CompareSlices([a], [b]) == SortKeys.Less;
  }

  /** A list of fields in key order with canonical values is a canonical map. */
  lemma SmallMapIsCanonical(pairs: seq<Pair>)
    requires SmallKeys(pairs) && forall i :: 0 <= i < |pairs| ==> IsCanonical(pairs[i].value)
    ensures IsCanonicalMap(pairs)
  {
    forall i | 0 <= i < |pairs|
      ensures IsCanonicalPair(pairs[i])
    {
      assert Canonicalize(pairs[i].key) == Ok(pairs[i].key);
    }
    SmallKeysAreStrict(pairs);
    SortedPairsAreCanonical(pairs);
  }

  /** The fields are those of the list, and no others. */
  ghost predicate Lists(pairs: seq<Pair>, fields: Fields)
    requires SmallKeys(pairs)
  {
    && |fields| == |pairs|
    && forall i :: 0 <= i < |pairs| ==> pairs[i].key.n in fields && fields[pairs[i].key.n] == pairs[i].value
  }

  /** One more field behind the others. */
  lemma AppendField(pairs: seq<Pair>, fields: Fields, key: nat, value: Value)
    requires SmallKeys(pairs) && Lists(pairs, fields) && key < 24 && key !in fields
    requires pairs != [] ==> pairs[|pairs| - 1].key.n < key
    ensures SmallKeys(pairs + [Field(key, value)]) && Lists(pairs + [Field(key, value)], fields[key := value])
  {}

  function FieldsOf(pairs: seq<Pair>): Fields
    requires SmallKeys(pairs)
  {
    if pairs == [] then map[]
    else FieldsOf(pairs[..|pairs| - 1])[pairs[|pairs| - 1].key.n := pairs[|pairs| - 1].value]
  }

  lemma {:induction false} FieldsOfAre(pairs: seq<Pair>)
    requires SmallKeys(pairs)
    ensures Lists(pairs, FieldsOf(pairs))
    ensures forall k :: k in FieldsOf(pairs) ==> pairs != [] && k <= pairs[|pairs| - 1].key.n
  {
    if pairs != [] {
      FieldsOfAre(pairs[..|pairs| - 1]);
    }
  }

  lemma SameSizeSubset(a: set<nat>, b: set<nat>)
    requires a <= b && |a| == |b|
    ensures a == b
  {
    assert |b - a| == |b| - |a|;
  }

  lemma {:induction false} FieldsOfWithin(pairs: seq<Pair>, fields: Fields, n: nat)
    requires SmallKeys(pairs) && Lists(pairs, fields) && n <= |pairs|
    ensures forall k :: k in FieldsOf(pairs[..n]) ==> k in fields && fields[k] == FieldsOf(pairs[..n])[k]
  {
    if n > 0 {
      FieldsOfWithin(pairs, fields, n - 1);
      assert pairs[..n][..n - 1] == pairs[..n - 1];
    }
  }

  lemma ListedFields(pairs: seq<Pair>, fields: Fields)
    requires SmallKeys(pairs) && Lists(pairs, fields)
    ensures fields == FieldsOf(pairs)
  {
    FieldsOfAre(pairs);
    FieldsOfWithin(pairs, fields, |pairs|);
    assert pairs[..|pairs|] == pairs;
    assert |fields.Keys| == |FieldsOf(pairs).Keys|;
    SameSizeSubset(FieldsOf(pairs).Keys, fields.Keys);
  }

  lemma SmallKeysFront(front: seq<Pair>, rest: seq<Pair>)
    requires SmallKeys(front + rest)
    ensures SmallKeys(front)
    ensures rest != [] ==> rest[0].key.Int? && 0 <= rest[0].key.n < 24
    ensures rest != [] && front != [] ==> front[|front| - 1].key.n < rest[0].key.n
  {
    var all := front + rest;
    assert forall i :: 0 <= i < |front| ==> all[i] == front[i];
    if rest != [] {
      assert all[|front|] == rest[0];
    }
  }

  lemma {:induction false} CollectRest(front: seq<Pair>, rest: seq<Pair>)
    requires SmallKeys(front + rest) && SmallKeys(front)
    ensures CollectFields(rest, FieldsOf(front)) == Ok(FieldsOf(front + rest))
    decreases |rest|
  {
    if rest == [] {
      assert front + rest == front;
    } else {
      SmallKeysFront(front, rest);
      FieldsOfAre(front);
      var next := front + [rest[0]];
      assert next + rest[1..] == front + rest && next[..|front|] == front;
      SmallKeysFront(next, rest[1..]);
      CollectRest(next, rest[1..]);
    }
  }

  /** A list of fields with small increasing keys reads back as exactly these fields. */
  lemma FieldsRead(pairs: seq<Pair>, fields: Fields)
    requires SmallKeys(pairs) && Lists(pairs, fields)
    ensures IntegerKeyedMap(Map(pairs)) == Ok(fields)
    ensures (forall i :: 0 <= i < |pairs| ==> IsCanonical(pairs[i].value)) ==> IsCanonicalMap(pairs)
  {
    ListedFields(pairs, fields);
    var none := pairs[..0];
    assert none + pairs == pairs && |none| == 0;
    CollectRest(none, pairs);
    if forall i :: 0 <= i < |pairs| ==> IsCanonical(pairs[i].value) {
      SmallMapIsCanonical(pairs);
    }
  }
}
