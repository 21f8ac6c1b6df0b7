/** Projection to principal components and back, and the affine maps made from it. */
module PcaTransforms {
  // Composing means applying in turn; moving to another system means reconstructing and projecting again.

  import opened Wrappers
  import opened Machine
  import opened PcaErrors
  import opened RealSums

  const CURRENT_SCHEMA_VERSION := 1

  type Vector = seq<real>

  datatype PcaTransform = PcaTransform(inputDim: nat, outputDim: nat, mean: Vector, basis: seq<real>,
                                       schemaVersion: nat)

  datatype AffineTransform =
    AffineTransform(inputDim: nat, outputDim: nat, matrix: seq<real>, bias: Vector, schemaVersion: nat)

  datatype DeltaMode = Exact | Reconstructing

  datatype DeltaTransform = DeltaTransform(affine: AffineTransform, mode: DeltaMode)

  // ----- Shapes -----

  /** Whether a runtime shape is accepted, and the first complaint otherwise. */
  function ShapeError(t: PcaTransform): Option<PcaError> {
    if t.schemaVersion != CURRENT_SCHEMA_VERSION || t.inputDim == 0 || t.outputDim == 0 || t.outputDim > t.inputDim
       || CheckedMul(t.inputDim, t.outputDim).None? then Some(ValidationFailure)
    else if |t.mean| != t.inputDim then Some(DimensionMismatch(t.inputDim, |t.mean|))
    else if |t.basis| != t.inputDim * t.outputDim then Some(DimensionMismatch(t.inputDim * t.outputDim, |t.basis|))
    else None
  }

  function OperableError(a: AffineTransform): Option<PcaError> {
    if a.schemaVersion != CURRENT_SCHEMA_VERSION || a.inputDim == 0 || a.outputDim == 0 then Some(ValidationFailure)
    else if |a.bias| != a.outputDim then Some(DimensionMismatch(a.outputDim, |a.bias|))
    else if CheckedMul(a.inputDim, a.outputDim).None? then Some(ValidationFailure)
    else if |a.matrix| != a.inputDim * a.outputDim then Some(DimensionMismatch(a.inputDim * a.outputDim, |a.matrix|))
    else None
  }

  predicate WellShaped(t: PcaTransform) {
    ShapeError(t).None?
  }

  predicate Operable(a: AffineTransform) {
    OperableError(a).None?
  }

  // ----- What the maps do -----

  function At(v: Vector, i: nat): real {
    if i < |v| then v[i] else 0.0
  }

  function BasisAt(t: PcaTransform, row: nat, column: nat): real {
    Entry(t.basis, t.inputDim, row, column)
  }

  function MatrixAt(a: AffineTransform, row: nat, column: nat): real {
    Entry(a.matrix, a.outputDim, row, column)
  }

  function ProjectionTerms(t: PcaTransform, x: Vector, k: nat): nat -> real {
    (row: nat) => BasisAt(t, row, k) * (At(x, row) - At(t.mean, row))
  }

  /** The projection of the centered vector on every component. */
  function Projected(t: PcaTransform, x: Vector): (y: Vector)
    ensures |y| == t.outputDim
  {
    seq(t.outputDim, k requires k >= 0 => Sum(t.inputDim, ProjectionTerms(t, x, k)))
  }

  function ReconstructionTerms(t: PcaTransform, c: Vector): Table {
    (row: nat, k: nat) => BasisAt(t, row, k) * At(c, k)
  }

  function Row(t: Table, row: nat): nat -> real {
    (column: nat) => t(row, column)
  }

  /** The mean plus the components in proportion to the coordinates. */
  function Reconstructed(t: PcaTransform, c: Vector): (x: Vector)
    ensures |x| == t.inputDim
  {
    seq(t.inputDim, row requires row >= 0 => At(t.mean, row) + Sum(t.outputDim, Row(ReconstructionTerms(t, c), row)))
  }

  function AffineTerms(a: AffineTransform, x: Vector): Table {
    (row: nat, column: nat) => MatrixAt(a, row, column) * At(x, column)
  }

  function Applied(a: AffineTransform, x: Vector): (y: Vector)
    ensures |y| == a.outputDim
  {
    seq(a.outputDim, row requires row >= 0 => At(a.bias, row) + Sum(a.inputDim, Row(AffineTerms(a, x), row)))
  }

  // ----- Loops -----

  method AddUp(n: nat, f: nat -> real) returns (sum: real)
    ensures sum == Sum(n, f)
  {
    sum := 0.0;
    for i := 0 to n
      invariant sum == Sum(i, f)
    {
      sum := sum + f(i);
    }
  }

  /** Column by column, adds the terms of each row to that row's start value. */
  method AccumulateColumns(start: Vector, columns: nat, terms: Table) returns (output: Vector)
    ensures |output| == |start|
    ensures forall row: nat :: row < |start| ==> output[row] == start[row] + Sum(columns, Row(terms, row))
  {
    output := start;
    for column := 0 to columns
      invariant |output| == |start|
      invariant forall row: nat :: row < |start| ==> output[row] == start[row] + Sum(column, Row(terms, row))
    {
      for row := 0 to |output|
        invariant |output| == |start|
        invariant forall i: nat :: i < |start| ==>
          output[i] == start[i] + Sum(if i < row then column + 1 else column, Row(terms, i))
      {
        output := output[row := output[row] + terms(row, column)];
      }
    }
  }

  // ----- Projection and reconstruction -----

  method Apply(t: PcaTransform, x: Vector) returns (r: Result<Vector, PcaError>)
    ensures r.Ok? <==> |x| == t.inputDim && WellShaped(t)
    ensures r.Ok? ==> r.value == Projected(t, x)
  {
    if |x| != t.inputDim {
      return Err(DimensionMismatch(t.inputDim, |x|));
    }
    var shape := ShapeError(t);
    if shape.Some? {
      return Err(shape.value);
    }
    var output: Vector := [];
    for column := 0 to t.outputDim
      invariant output == Projected(t, x)[..column]
    {
      var acc := AddUp(t.inputDim, ProjectionTerms(t, x, column));
      output := output + [acc];
    }
    return Ok(output);
  }

  method Reconstruct(t: PcaTransform, c: Vector) returns (r: Result<Vector, PcaError>)
    ensures r.Ok? <==> |c| == t.outputDim && WellShaped(t)
    ensures r.Ok? ==> r.value == Reconstructed(t, c)
  {
    if |c| != t.outputDim {
      return Err(DimensionMismatch(t.outputDim, |c|));
    }
    var shape := ShapeError(t);
    if shape.Some? {
      return Err(shape.value);
    }
    var output := AccumulateColumns(t.mean, t.outputDim, ReconstructionTerms(t, c));
    assert output == Reconstructed(t, c);
    return Ok(output);
  }

  method ApplyAffine(a: AffineTransform, x: Vector) returns (r: Result<Vector, PcaError>)
    ensures r.Ok? <==> |x| == a.inputDim && Operable(a)
    ensures r.Ok? ==> r.value == Applied(a, x)
  {
    if |x| != a.inputDim {
      return Err(DimensionMismatch(a.inputDim, |x|));
    }
    var shape := OperableError(a);
    if shape.Some? {
      return Err(shape.value);
    }
    var output := AccumulateColumns(a.bias, a.inputDim, AffineTerms(a, x));
    assert output == Applied(a, x);
    return Ok(output);
  }

  // ----- Composition -----

  function SharedTerms(first: AffineTransform, second: AffineTransform, row: nat, column: nat): nat -> real {
    (shared: nat) => MatrixAt(second, row, shared) * MatrixAt(first, shared, column)
  }

  /** The product of the two matrices. */
  function ProductTable(first: AffineTransform, second: AffineTransform): Table {
    (row: nat, column: nat) => Sum(first.outputDim, SharedTerms(first, second, row, column))
  }

  function BiasTerms(first: AffineTransform, second: AffineTransform): Table {
    (row: nat, shared: nat) => MatrixAt(second, row, shared) * At(first.bias, shared)
  }

  ghost predicate IsComposition(first: AffineTransform, second: AffineTransform, a: AffineTransform) {
    && a.inputDim == first.inputDim && a.outputDim == second.outputDim
    && IsMatrix(a.matrix, a.outputDim, a.inputDim, ProductTable(first, second))
    && |a.bias| == a.outputDim
    && forall row: nat :: row < a.outputDim ==>
         a.bias[row] == At(second.bias, row) + Sum(first.outputDim, Row(BiasTerms(first, second), row))
  }

  /** What one output of the second map takes from each input, by way of each intermediate value. */
  function PathTable(first: AffineTransform, second: AffineTransform, x: Vector, row: nat): Table {
    (shared: nat, column: nat) => MatrixAt(second, row, shared) * (MatrixAt(first, shared, column) * At(x, column))
  }

  lemma PathAt(first: AffineTransform, second: AffineTransform, x: Vector, row: nat, shared: nat, column: nat)
    ensures PathTable(first, second, x, row)(shared, column)
         == MatrixAt(second, row, shared) * (MatrixAt(first, shared, column) * At(x, column))
  {}

  lemma Regroup(a: real, b: real, c: real)
    ensures a * (b * c) == c * (a * b)
  {}

  /** Summed over the intermediate values, the paths from one input make the entry of the product matrix. */
  lemma PathsOfInput(first: AffineTransform, second: AffineTransform, x: Vector, row: nat, column: nat)
    ensures Sum(first.outputDim, (shared: nat) => PathTable(first, second, x, row)(shared, column))
         == Sum(first.outputDim, SharedTerms(first, second, row, column)) * At(x, column)
  {
    var paths := (shared: nat) => PathTable(first, second, x, row)(shared, column);
    var terms := SharedTerms(first, second, row, column);
    forall shared: nat | shared < first.outputDim
      ensures paths(shared) == At(x, column) * terms(shared)
    {
      var a, b, c := MatrixAt(second, row, shared), MatrixAt(first, shared, column), At(x, column);
      PathAt(first, second, x, row, shared, column);
      assert paths(shared) == a * (b * c);
      assert terms(shared) == a * b;
      Regroup(a, b, c);
    }
    SumTimes(first.outputDim, At(x, column), terms, paths);
  }

  /** Summed over the inputs, the paths through one intermediate value make what the second map reads there. */
  lemma PathsThroughShared(first: AffineTransform, second: AffineTransform, x: Vector, row: nat, shared: nat)
    requires shared < first.outputDim
    ensures MatrixAt(second, row, shared) * At(Applied(first, x), shared)
         == BiasTerms(first, second)(row, shared) + RowSums(first.inputDim, PathTable(first, second, x, row))(shared)
  {
    var inner := Row(AffineTerms(first, x), shared);
    var paths := (column: nat) => PathTable(first, second, x, row)(shared, column);
    forall column: nat | column < first.inputDim
      ensures paths(column) == MatrixAt(second, row, shared) * inner(column)
    {
      PathAt(first, second, x, row, shared, column);
      assert inner(column) == MatrixAt(first, shared, column) * At(x, column);
    }
    SumTimes(first.inputDim, MatrixAt(second, row, shared), inner, paths);
    Distribute(MatrixAt(second, row, shared), At(first.bias, shared), Sum(first.inputDim, inner));
  }

  lemma DirectPaths(first: AffineTransform, second: AffineTransform, a: AffineTransform, x: Vector, row: nat)
    requires IsComposition(first, second, a) && row < a.outputDim
    ensures Sum(first.inputDim, Row(AffineTerms(a, x), row))
         == Sum(first.inputDim, ColumnSums(first.outputDim, PathTable(first, second, x, row)))
  {
    var direct, sums := Row(AffineTerms(a, x), row), ColumnSums(first.outputDim, PathTable(first, second, x, row));
    forall column: nat | column < first.inputDim
      ensures direct(column) == sums(column)
    {
      assert Entry(a.matrix, a.outputDim, row, column) == ProductTable(first, second)(row, column);
      PathsOfInput(first, second, x, row, column);
    }
    SumSame(first.inputDim, direct, sums);
  }

  lemma PathsInTurn(first: AffineTransform, second: AffineTransform, x: Vector, row: nat)
    requires second.inputDim == first.outputDim
    ensures Sum(second.inputDim, Row(AffineTerms(second, Applied(first, x)), row))
         == Sum(first.outputDim, Row(BiasTerms(first, second), row))
            + Sum(first.outputDim, RowSums(first.inputDim, PathTable(first, second, x, row)))
  {
    var bias, sums := Row(BiasTerms(first, second), row), RowSums(first.inputDim, PathTable(first, second, x, row));
    var inTurn := Row(AffineTerms(second, Applied(first, x)), row);
    forall shared: nat | shared < first.outputDim
      ensures inTurn(shared) == bias(shared) + sums(shared)
    {
      PathsThroughShared(first, second, x, row, shared);
    }
    SumPlus(first.outputDim, bias, sums, inTurn);
  }

  lemma ComposedRow(first: AffineTransform, second: AffineTransform, a: AffineTransform, x: Vector, row: nat)
    requires IsComposition(first, second, a) && second.inputDim == first.outputDim && row < a.outputDim
    ensures Applied(a, x)[row] == Applied(second, Applied(first, x))[row]
  {
    DirectPaths(first, second, a, x, row);
    PathsInTurn(first, second, x, row);
    SumSwap(first.outputDim, first.inputDim, PathTable(first, second, x, row));
  }

  /** Composing two maps is applying one after the other. */
  lemma ComposedActsInTurn(first: AffineTransform, second: AffineTransform, a: AffineTransform, x: Vector)
    requires IsComposition(first, second, a) && second.inputDim == first.outputDim
    ensures Applied(a, x) == Applied(second, Applied(first, x))
  {
    forall row | 0 <= row < a.outputDim
      ensures Applied(a, x)[row] == Applied(second, Applied(first, x))[row]
    {
      ComposedRow(first, second, a, x, row);
    }
  }

  /** Fills a matrix column by column. */
  method FillMatrix(rowCount: nat, columnCount: nat, t: Table) returns (m: seq<real>)
    ensures IsMatrix(m, rowCount, columnCount, t)
  {
    m := seq(rowCount * columnCount, _ => 0.0);
    ghost var rest: Table := (row: nat, column: nat) => Entry(m, rowCount, row, column);
    for column := 0 to columnCount
      invariant FilledTo(m, rowCount, columnCount, t, rest, 0, column)
    {
      for row := 0 to rowCount
        invariant FilledTo(m, rowCount, columnCount, t, rest, row, column)
      {
        FillNext(m, rowCount, columnCount, t, rest, row, column);
        m := Store(m, rowCount, row, column, t(row, column));
      }
      NextColumn(m, rowCount, columnCount, t, rest, column);
    }
    Filled(m, rowCount, columnCount, t, rest);
  }

  ghost predicate ActsInTurn(first: AffineTransform, second: AffineTransform, a: AffineTransform) {
    && a.inputDim == first.inputDim && a.outputDim == second.outputDim
    && forall x: Vector :: Applied(a, x) == Applied(second, Applied(first, x))
  }

  /** The map that applies `first` and then `second`. */
  method Compose(first: AffineTransform, second: AffineTransform) returns (r: Result<AffineTransform, PcaError>)
    ensures r.Ok? <==> Operable(first) && Operable(second) && first.outputDim == second.inputDim
                       && CheckedMul(first.inputDim, second.outputDim).Some?
    ensures r.Ok? ==> Operable(r.value) && ActsInTurn(first, second, r.value)
  {
    if OperableError(first).Some? {
      return Err(OperableError(first).value);
    }
    if OperableError(second).Some? {
      return Err(OperableError(second).value);
    }
    if first.outputDim != second.inputDim {
      return Err(DimensionMismatch(first.outputDim, second.inputDim));
    }
    if CheckedMul(first.inputDim, second.outputDim).None? {
      return Err(ValidationFailure);
    }
    var matrix := MultiplyMatrices(first, second);
    var bias := AccumulateColumns(second.bias, first.outputDim, BiasTerms(first, second));
    var a := AffineTransform(first.inputDim, second.outputDim, matrix, bias, second.schemaVersion);
    forall x: Vector
      ensures Applied(a, x) == Applied(second, Applied(first, x))
    {
      ComposedActsInTurn(first, second, a, x);
    }
    return Ok(a);
  }

  /** The matrix of the composition, each entry by its own inner loop. */
  method MultiplyMatrices(first: AffineTransform, second: AffineTransform) returns (m: seq<real>)
    ensures IsMatrix(m, second.outputDim, first.inputDim, ProductTable(first, second))
  {
    var rows, columns := second.outputDim, first.inputDim;
    m := seq(rows * columns, _ => 0.0);
    ghost var t := ProductTable(first, second);
    ghost var rest: Table := (row: nat, column: nat) => Entry(m, rows, row, column);
    for column := 0 to columns
      invariant FilledTo(m, rows, columns, t, rest, 0, column)
    {
      for row := 0 to rows
        invariant FilledTo(m, rows, columns, t, rest, row, column)
      {
        var value := AddUp(first.outputDim, SharedTerms(first, second, row, column));
        FillNext(m, rows, columns, t, rest, row, column);
        m := Store(m, rows, row, column, value);
      }
      NextColumn(m, rows, columns, t, rest, column);
    }
    Filled(m, rows, columns, t, rest);
  }

  // ----- Affine forms of a component transform -----

  function TransposedBasis(t: PcaTransform): Table {
    (row: nat, column: nat) => BasisAt(t, column, row)
  }

  function CenterTerms(t: PcaTransform): Table {
    (row: nat, column: nat) => -(BasisAt(t, column, row) * At(t.mean, column))
  }

  ghost predicate IsAffineForm(t: PcaTransform, a: AffineTransform) {
    && a.inputDim == t.inputDim && a.outputDim == t.outputDim
    && IsMatrix(a.matrix, a.outputDim, a.inputDim, TransposedBasis(t))
    && |a.bias| == a.outputDim
    && forall row: nat :: row < a.outputDim ==> a.bias[row] == Sum(t.inputDim, Row(CenterTerms(t), row))
  }

  lemma Centered(b: real, x: real, m: real)
    ensures b * (x - m) == -(b * m) + b * x
  {}

  /** The affine form projects. */
  lemma AffineFormProjects(t: PcaTransform, a: AffineTransform, x: Vector)
    requires IsAffineForm(t, a)
    ensures Applied(a, x) == Projected(t, x)
  {
    forall row | 0 <= row < a.outputDim
      ensures Applied(a, x)[row] == Projected(t, x)[row]
    {
      var linear, center, terms := Row(AffineTerms(a, x), row), Row(CenterTerms(t), row), ProjectionTerms(t, x, row);
      forall i: nat | i < t.inputDim
        ensures terms(i) == center(i) + linear(i)
      {
        assert Entry(a.matrix, a.outputDim, row, i) == TransposedBasis(t)(row, i);
        Centered(BasisAt(t, i, row), At(x, i), At(t.mean, i));
      }
      SumPlus(t.inputDim, center, linear, terms);
    }
  }

  /** The projection as an affine map. */
  method ToAffine(t: PcaTransform) returns (r: Result<AffineTransform, PcaError>)
    ensures r.Ok? <==> WellShaped(t)
    ensures r.Ok? ==>
      && Operable(r.value) && r.value.inputDim == t.inputDim && r.value.outputDim == t.outputDim
      && forall x: Vector :: Applied(r.value, x) == Projected(t, x)
  {
    var shape := ShapeError(t);
    if shape.Some? {
      return Err(shape.value);
    }
    var matrix := FillMatrix(t.outputDim, t.inputDim, TransposedBasis(t));
    var bias := AccumulateColumns(seq(t.outputDim, _ => 0.0), t.inputDim, CenterTerms(t));
    var a := AffineTransform(t.inputDim, t.outputDim, matrix, bias, t.schemaVersion);
    forall x: Vector
      ensures Applied(a, x) == Projected(t, x)
    {
      AffineFormProjects(t, a, x);
    }
    return Ok(a);
  }

  lemma InverseReconstructs(t: PcaTransform, a: AffineTransform, c: Vector)
    requires a.inputDim == t.outputDim && a.outputDim == t.inputDim && a.bias == t.mean
    requires IsMatrix(a.matrix, a.outputDim, a.inputDim, (row: nat, column: nat) => BasisAt(t, row, column))
    ensures Applied(a, c) == Reconstructed(t, c)
  {
    forall row | 0 <= row < a.outputDim
      ensures Applied(a, c)[row] == Reconstructed(t, c)[row]
    {
      forall k: nat | k < a.inputDim
        ensures Row(AffineTerms(a, c), row)(k) == Row(ReconstructionTerms(t, c), row)(k)
      {
        assert Entry(a.matrix, a.outputDim, row, k) == BasisAt(t, row, k);
      }
      SumSame(a.inputDim, Row(AffineTerms(a, c), row), Row(ReconstructionTerms(t, c), row));
    }
  }

  /** The reconstruction as an affine map. */
  method InverseAffine(t: PcaTransform) returns (r: Result<AffineTransform, PcaError>)
    ensures r.Ok? <==> WellShaped(t)
    ensures r.Ok? ==>
      && Operable(r.value) && r.value.inputDim == t.outputDim && r.value.outputDim == t.inputDim
      && forall c: Vector :: Applied(r.value, c) == Reconstructed(t, c)
  {
    var shape := ShapeError(t);
    if shape.Some? {
      return Err(shape.value);
    }
    var matrix := FillMatrix(t.inputDim, t.outputDim, (row: nat, column: nat) => BasisAt(t, row, column));
    var a := AffineTransform(t.outputDim, t.inputDim, matrix, t.mean, t.schemaVersion);
    forall c: Vector
      ensures Applied(a, c) == Reconstructed(t, c)
    {
      InverseReconstructs(t, a, c);
    }
    return Ok(a);
  }

  // ----- Between component systems -----

  /** Takes coordinates in `source` to coordinates in `target`. */
  ghost predicate Rebases(source: PcaTransform, target: PcaTransform, a: AffineTransform) {
    && a.inputDim == source.outputDim && a.outputDim == target.outputDim
    && forall c: Vector :: Applied(a, c) == Projected(target, Reconstructed(source, c))
  }

  /** Reconstructing with one system and projecting with the other, as one affine map. */
  method DeltaReconstructing(source: PcaTransform, target: PcaTransform) returns (r: Result<DeltaTransform, PcaError>)
    ensures r.Ok? <==> source.inputDim == target.inputDim && WellShaped(source) && WellShaped(target)
                       && CheckedMul(source.outputDim, target.outputDim).Some?
    ensures r.Ok? ==>
      && Operable(r.value.affine) && Rebases(source, target, r.value.affine)
      && (r.value.mode == Exact <==> source.outputDim == source.inputDim)
  {
    if source.inputDim != target.inputDim {
      return Err(DimensionMismatch(source.inputDim, target.inputDim));
    }
    var inverse := InverseAffine(source);
    if inverse.Err? {
      return Err(inverse.error);
    }
    var affine := ToAffine(target);
    if affine.Err? {
      return Err(affine.error);
    }
    var composed := Compose(inverse.value, affine.value);
    if composed.Err? {
      return Err(composed.error);
    }
    forall c: Vector
      ensures Applied(composed.value, c) == Projected(target, Reconstructed(source, c))
    {
      assert Applied(composed.value, c) == Applied(affine.value, Applied(inverse.value, c));
    }
    return Ok(DeltaTransform(composed.value, if source.outputDim == source.inputDim then Exact else Reconstructing));
  }

  /** Refuses a source system that loses dimensions. */
  method DeltaExact(source: PcaTransform, target: PcaTransform) returns (r: Result<DeltaTransform, PcaError>)
    ensures r.Ok? <==> source.outputDim == source.inputDim == target.inputDim
                       && WellShaped(source) && WellShaped(target)
                       && CheckedMul(source.outputDim, target.outputDim).Some?
    ensures r.Ok? ==> r.value.mode == Exact && Rebases(source, target, r.value.affine)
    ensures source.outputDim != source.inputDim ==> r == Err(ValidationFailure)
  {
    if source.outputDim != source.inputDim {
      return Err(ValidationFailure);
    }
    var delta := DeltaReconstructing(source, target);
    if delta.Err? {
      return Err(delta.error);
    }
    return Ok(DeltaTransform(delta.value.affine, Exact));
  }

  // ----- Orthonormal components -----

  function BasisProducts(t: PcaTransform, k: nat, l: nat): nat -> real {
    (row: nat) => BasisAt(t, row, k) * BasisAt(t, row, l)
  }

  ghost predicate Orthonormal(t: PcaTransform) {
    forall k: nat, l: nat :: k < t.outputDim && l < t.outputDim ==>
      Sum(t.inputDim, BasisProducts(t, k, l)) == if k == l then 1.0 else 0.0
  }

  function MixTable(t: PcaTransform, c: Vector, k: nat): Table {
    (row: nat, l: nat) => BasisAt(t, row, k) * (BasisAt(t, row, l) * At(c, l))
  }

  lemma MixAt(t: PcaTransform, c: Vector, k: nat, row: nat, l: nat)
    ensures MixTable(t, c, k)(row, l) == BasisAt(t, row, k) * (BasisAt(t, row, l) * At(c, l))
    ensures MixTable(t, c, k)(row, l) == At(c, l) * BasisProducts(t, k, l)(row)
  {
    Regroup(BasisAt(t, row, k), BasisAt(t, row, l), At(c, l));
  }

  /** What coordinate `l` contributes to component `k`: itself or nothing. */
  lemma MixOfCoordinate(t: PcaTransform, c: Vector, k: nat, l: nat)
    requires Orthonormal(t) && k < t.outputDim && l < t.outputDim
    ensures ColumnSums(t.inputDim, MixTable(t, c, k))(l) == if l == k then At(c, k) else 0.0
  {
    var mixed := (row: nat) => MixTable(t, c, k)(row, l);
    forall row: nat | row < t.inputDim
      ensures mixed(row) == At(c, l) * BasisProducts(t, k, l)(row)
    {
      MixAt(t, c, k, row, l);
    }
    SumTimes(t.inputDim, At(c, l), BasisProducts(t, k, l), mixed);
    assert Sum(t.inputDim, BasisProducts(t, k, l)) == if k == l then 1.0 else 0.0;
  }

  lemma MixOfRow(t: PcaTransform, c: Vector, k: nat, row: nat)
    requires row < t.inputDim
    ensures ProjectionTerms(t, Reconstructed(t, c), k)(row) == RowSums(t.outputDim, MixTable(t, c, k))(row)
  {
    var terms, mixed := Row(ReconstructionTerms(t, c), row), (l: nat) => MixTable(t, c, k)(row, l);
    forall l: nat | l < t.outputDim
      ensures mixed(l) == BasisAt(t, row, k) * terms(l)
    {
      MixAt(t, c, k, row, l);
      assert terms(l) == BasisAt(t, row, l) * At(c, l);
    }
    SumTimes(t.outputDim, BasisAt(t, row, k), terms, mixed);
  }

  lemma {:induction false} SumOfSingle(n: nat, f: nat -> real, k: nat, value: real)
    requires forall i: nat :: i < n ==> f(i) == if i == k then value else 0.0
    ensures Sum(n, f) == if k < n then value else 0.0
  {
    if n > 0 {
      SumOfSingle(n - 1, f, k, value);
    }
  }

  /** With orthonormal components, projecting a reconstruction gives the coordinates back. */
  lemma ProjectReconstructed(t: PcaTransform, c: Vector)
    requires Orthonormal(t) && |c| == t.outputDim
    ensures Projected(t, Reconstructed(t, c)) == c
  {
    forall k | 0 <= k < t.outputDim
      ensures Projected(t, Reconstructed(t, c))[k] == c[k]
    {
      var mix, terms := MixTable(t, c, k), ProjectionTerms(t, Reconstructed(t, c), k);
      forall row: nat | row < t.inputDim
        ensures terms(row) == RowSums(t.outputDim, mix)(row)
      {
        MixOfRow(t, c, k, row);
      }
      SumSame(t.inputDim, terms, RowSums(t.outputDim, mix));
      SumSwap(t.inputDim, t.outputDim, mix);
      forall l: nat | l < t.outputDim
        ensures ColumnSums(t.inputDim, mix)(l) == if l == k then At(c, k) else 0.0
      {
        MixOfCoordinate(t, c, k, l);
      }
      SumOfSingle(t.outputDim, ColumnSums(t.inputDim, mix), k, At(c, k));
    }
  }

  /** Moving from an orthonormal system to itself changes nothing. */
  lemma RebaseToSelf(t: PcaTransform, a: AffineTransform, c: Vector)
    requires Orthonormal(t) && Rebases(t, t, a) && |c| == t.outputDim
    ensures Applied(a, c) == c
  {
    ProjectReconstructed(t, c);
  }
}
