/** Finite sums of reals, and matrices stored column by column. */
module RealSums {

  function Sum(n: nat, f: nat -> real): real {
    if n == 0 then 0.0 else Sum(n - 1, f) + f(n - 1)
  }

  lemma {:induction false} SumSame(n: nat, f: nat -> real, g: nat -> real)
    requires forall i: nat :: i < n ==> f(i) == g(i)
    ensures Sum(n, f) == Sum(n, g)
  {
    if n > 0 {
      SumSame(n - 1, f, g);
    }
  }

  lemma {:induction false} SumPlus(n: nat, f: nat -> real, g: nat -> real, h: nat -> real)
    requires forall i: nat :: i < n ==> h(i) == f(i) + g(i)
    ensures Sum(n, h) == Sum(n, f) + Sum(n, g)
  {
    if n > 0 {
      SumPlus(n - 1, f, g, h);
    }
  }

  lemma Distribute(c: real, a: real, b: real)
    ensures c * (a + b) == c * a + c * b
  {}

  lemma {:induction false} SumTimes(n: nat, c: real, f: nat -> real, g: nat -> real)
    requires forall i: nat :: i < n ==> g(i) == c * f(i)
    ensures Sum(n, g) == c * Sum(n, f)
  {
    if n > 0 {
      SumTimes(n - 1, c, f, g);
      Distribute(c, Sum(n - 1, f), f(n - 1));
    }
  }

  lemma {:induction false} SumZero(n: nat, f: nat -> real)
    requires forall i: nat :: i < n ==> f(i) == 0.0
    ensures Sum(n, f) == 0.0
  {
    if n > 0 {
      SumZero(n - 1, f);
    }
  }

  type Table = (nat, nat) -> real

  /** Row by row: the sums of the rows. */
  function RowSums(columns: nat, t: Table): nat -> real {
    (i: nat) => Sum(columns, (j: nat) => t(i, j))
  }

  function ColumnSums(rows: nat, t: Table): nat -> real {
    (j: nat) => Sum(rows, (i: nat) => t(i, j))
  }

  /** A table adds up to the same by rows and by columns. */
  lemma {:induction false} SumSwap(rows: nat, columns: nat, t: Table)
    ensures Sum(rows, RowSums(columns, t)) == Sum(columns, ColumnSums(rows, t))
  {
    if rows == 0 {
      SumZero(columns, ColumnSums(0, t));
    } else {
      var last := rows - 1;
      SumSwap(last, columns, t);
      var row := (j: nat) => t(last, j);
      forall j: nat | j < columns
        ensures ColumnSums(rows, t)(j) == ColumnSums(last, t)(j) + row(j)
      {
        var column := (i: nat) => t(i, j);
        assert Sum(rows, column) == Sum(last, column) + column(last);
      }
      SumPlus(columns, ColumnSums(last, t), row, ColumnSums(rows, t));
    }
  }

  // ----- Matrices -----

  function MatrixIndex(rowCount: nat, row: nat, column: nat): nat {
    row + column * rowCount
  }

  lemma {:induction false} ColumnsApart(rowCount: nat, column: nat, later: nat)
    requires column < later
    ensures column * rowCount + rowCount <= later * rowCount
  {
    if column + 1 < later {
      ColumnsApart(rowCount, column, later - 1);
    }
  }

  lemma IndexInBounds(rowCount: nat, columnCount: nat, row: nat, column: nat)
    requires row < rowCount && column < columnCount
    ensures MatrixIndex(rowCount, row, column) < rowCount * columnCount
  {
    ColumnsApart(rowCount, column, columnCount);
  }

  lemma IndexIsUnique(rowCount: nat, row: nat, column: nat, otherRow: nat, otherColumn: nat)
    requires row < rowCount && otherRow < rowCount
    requires MatrixIndex(rowCount, row, column) == MatrixIndex(rowCount, otherRow, otherColumn)
    ensures row == otherRow && column == otherColumn
  {
    if column < otherColumn {
      ColumnsApart(rowCount, column, otherColumn);
    } else if otherColumn < column {
      ColumnsApart(rowCount, otherColumn, column);
    }
  }

  /** The entries of a stored matrix. */
  function Entry(m: seq<real>, rowCount: nat, row: nat, column: nat): real {
    var k := MatrixIndex(rowCount, row, column);
    if k < |m| then m[k] else 0.0
  }

  ghost predicate IsMatrix(m: seq<real>, rowCount: nat, columnCount: nat, t: Table) {
    && |m| == rowCount * columnCount
    && forall row: nat, column: nat ::
         row < rowCount && column < columnCount ==> Entry(m, rowCount, row, column) == t(row, column)
  }

  function Store(m: seq<real>, rowCount: nat, row: nat, column: nat, value: real): (r: seq<real>)
    requires MatrixIndex(rowCount, row, column) < |m|
    ensures |r| == |m|
  {
    m[MatrixIndex(rowCount, row, column) := value]
  }

  /** Storing one entry changes that entry and no other. */
  lemma StoreEntry(m: seq<real>, rowCount: nat, row: nat, column: nat, value: real, i: nat, j: nat)
    requires MatrixIndex(rowCount, row, column) < |m| && row < rowCount && i < rowCount
    ensures Entry(Store(m, rowCount, row, column, value), rowCount, i, j)
         == if i == row && j == column then value else Entry(m, rowCount, i, j)
  {
    if MatrixIndex(rowCount, i, j) == MatrixIndex(rowCount, row, column) {
      IndexIsUnique(rowCount, i, j, row, column);
    }
  }

  /** A matrix filled column by column, up to `row` in the current column. */
  ghost predicate FilledTo(m: seq<real>, rowCount: nat, columnCount: nat, t: Table, rest: Table, row: nat,
                           column: nat) {
    && |m| == rowCount * columnCount
    && forall i: nat, j: nat :: i < rowCount && j < columnCount ==>
         Entry(m, rowCount, i, j) == if j < column || (j == column && i < row) then t(i, j) else rest(i, j)
  }

  lemma FillNext(m: seq<real>, rowCount: nat, columnCount: nat, t: Table, rest: Table, row: nat, column: nat)
    requires FilledTo(m, rowCount, columnCount, t, rest, row, column) && row < rowCount && column < columnCount
    ensures MatrixIndex(rowCount, row, column) < |m| && Entry(m, rowCount, row, column) == rest(row, column)
    ensures FilledTo(Store(m, rowCount, row, column, t(row, column)), rowCount, columnCount, t, rest, row + 1, column)
  {
    IndexInBounds(rowCount, columnCount, row, column);
    forall i: nat, j: nat | i < rowCount && j < columnCount
      ensures Entry(Store(m, rowCount, row, column, t(row, column)), rowCount, i, j)
           == if j < column || (j == column && i < row + 1) then t(i, j) else rest(i, j)
    {
      StoreEntry(m, rowCount, row, column, t(row, column), i, j);
    }
  }

  lemma NextColumn(m: seq<real>, rowCount: nat, columnCount: nat, t: Table, rest: Table, column: nat)
    requires FilledTo(m, rowCount, columnCount, t, rest, rowCount, column)
    ensures FilledTo(m, rowCount, columnCount, t, rest, 0, column + 1)
  {}

  lemma Filled(m: seq<real>, rowCount: nat, columnCount: nat, t: Table, rest: Table)
    requires FilledTo(m, rowCount, columnCount, t, rest, 0, columnCount)
    ensures IsMatrix(m, rowCount, columnCount, t)
  {}
}
