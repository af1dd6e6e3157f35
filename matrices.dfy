/** The row-major 2-D buffer of `Matrix.hpp`: `rows * cols` reals stored row
    after row in one array, read and written through range-checked accessors. */
module Matrices {
  import opened Results

  /** Cell (i, j) of a row-major buffer with `cols` columns. */
  function Offset(cols: nat, i: nat, j: nat): nat
  {
    i * cols + j
  }

  /** An in-bounds pair addresses a cell inside the buffer. */
  lemma OffsetInRange(rows: nat, cols: nat, i: nat, j: nat)
    requires i < rows && j < cols
    ensures Offset(cols, i, j) < rows * cols
  {
    assert i * cols + cols == (i + 1) * cols;
    MulMonotone(i + 1, rows, cols);
  }

  /** Distinct in-bounds pairs address distinct cells. */
  lemma OffsetInjective(cols: nat, i: nat, j: nat, i': nat, j': nat)
    requires j < cols && j' < cols
    requires Offset(cols, i, j) == Offset(cols, i', j')
    ensures i == i' && j == j'
  {
    if i < i' {
      MulMonotone(i + 1, i', cols);
    } else if i' < i {
      MulMonotone(i' + 1, i, cols);
    }
  }

  lemma MulMonotone(a: nat, b: nat, c: nat)
    requires a <= b
    ensures a * c <= b * c
  {
  }

  /** Cell (i, j) of a row-major buffer. */
  function Cell(d: seq<real>, rows: nat, cols: nat, i: nat, j: nat): real
    requires |d| == rows * cols && i < rows && j < cols
  {
    OffsetInRange(rows, cols, i, j);
    d[Offset(cols, i, j)]
  }

  /** A row-major buffer read as a sequence of rows. */
  function Cells(d: seq<real>, rows: nat, cols: nat): (m: seq<seq<real>>)
    requires |d| == rows * cols
    ensures |m| == rows
    ensures forall i :: 0 <= i < rows ==> |m[i]| == cols
    ensures forall i, j :: 0 <= i < rows && 0 <= j < cols ==> m[i][j] == Cell(d, rows, cols, i, j)
  {
    seq(rows, i requires 0 <= i < rows => seq(cols, j requires 0 <= j < cols => Cell(d, rows, cols, i, j)))
  }

  /** Writing one cell of the buffer changes that cell of that row and
      nothing else. */
  lemma CellsUpdate(d: seq<real>, rows: nat, cols: nat, i: nat, j: nat, v: real)
    requires |d| == rows * cols && i < rows && j < cols
    ensures Offset(cols, i, j) < |d|
    ensures Cells(d[Offset(cols, i, j) := v], rows, cols) == Cells(d, rows, cols)[i := Cells(d, rows, cols)[i][j := v]]
  {
    OffsetInRange(rows, cols, i, j);
    var d' := d[Offset(cols, i, j) := v];
    var before := Cells(d, rows, cols);
    var after := Cells(d', rows, cols);
    forall i' | 0 <= i' < rows
      ensures after[i'] == before[i := before[i][j := v]][i']
    {
      forall j' | 0 <= j' < cols
        ensures after[i'][j'] == if i' == i && j' == j then v else before[i'][j']
      {
        OffsetInRange(rows, cols, i', j');
        if (i' != i || j' != j) && Offset(cols, i, j) == Offset(cols, i', j') {
          OffsetInjective(cols, i, j, i', j');
        }
      }
    }
  }

  class Matrix {
    const rows: nat
    const cols: nat
    const data: array<real>

    predicate Valid()
    {
      data.Length == rows * cols
    }

    /** `Matrix(r, c)`: an r x c matrix of zeros. */
    constructor (r: nat, c: nat)
      ensures rows == r && cols == c && Valid() && fresh(data)
      ensures forall n :: 0 <= n < data.Length ==> data[n] == 0.0
    {
      rows, cols := r, c;
      data := new real[r * c](_ => 0.0);
    }

    /** The cell at an in-bounds (i, j). */
    function Get(i: nat, j: nat): (v: real)
      reads data
      requires Valid() && i < rows && j < cols
      ensures v == Rows()[i][j]
    {
      OffsetInRange(rows, cols, i, j);
      data[Offset(cols, i, j)]
    }

    /** The matrix as a sequence of rows: what the specifications below read. */
    ghost function Rows(): (m: seq<seq<real>>)
      reads data
      requires Valid()
      ensures |m| == rows
    {
      Cells(data[..], rows, cols)
    }

    /** The checked read `X(i, j)`. */
    function At(i: nat, j: nat): (r: Result<real>)
      reads data
      requires Valid()
      ensures r.Err? <==> rows <= i || cols <= j
      ensures r.Err? ==> r.error == OutOfRange
      ensures r.Ok? ==> r.value == Rows()[i][j]
    {
      if i >= rows || j >= cols then Err(OutOfRange) else Ok(Get(i, j))
    }

    /** The checked write `X(i, j) = v`: only cell (i, j) changes. */
    method Set(i: nat, j: nat, v: real) returns (o: Outcome)
      requires Valid()
      modifies data
      ensures o.Fail? <==> rows <= i || cols <= j
      ensures o.Fail? ==> o.error == OutOfRange && data[..] == old(data[..])
      ensures o.Pass? ==> forall n :: 0 <= n < data.Length ==>
                data[n] == if n == Offset(cols, i, j) then v else old(data[n])
      ensures o.Pass? ==> Rows() == old(Rows())[i := old(Rows())[i][j := v]]
    {
      if i >= rows || j >= cols {
        return Fail(OutOfRange);
      }
      OffsetInRange(rows, cols, i, j);
      CellsUpdate(data[..], rows, cols, i, j, v);
      data[Offset(cols, i, j)] := v;
      o := Pass;
    }

    /** `get_row(i)`: fails iff i is out of range, else a copy of row i. */
    method GetRow(i: nat) returns (r: Result<seq<real>>)
      requires Valid()
      ensures r.Err? <==> rows <= i
      ensures r.Err? ==> r.error == OutOfRange
      ensures r.Ok? ==> r.value == Rows()[i]
    {
      if i >= rows {
        return Err(OutOfRange);
      }
      var row := seq(cols, _ => 0.0);
      var j := 0;
      while j < cols
        invariant 0 <= j <= cols && |row| == cols
        invariant forall j' :: 0 <= j' < j ==> row[j'] == Rows()[i][j']
      {
        OffsetInRange(rows, cols, i, j);
        row := row[j := data[Offset(cols, i, j)]];
        j := j + 1;
      }
      r := Ok(row);
    }
  }
}
