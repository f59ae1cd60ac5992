/**
 * A dense two-dimensional matrix of reals held in one `array2`, with the
 * operations of the Kotlin class `Matrix`. The arithmetic operations,
 * `Clone` and the factories allocate a new matrix and fill it cell by cell;
 * their contracts tie the new matrix's cells to a function of module Grids
 * applied to the operands' cells, and say that the result's storage is
 * freshly allocated.
 */
module Matrices {
  import Grids

  /** The source's IllegalArgumentException for operands of different shapes. */
  datatype Error = DimensionMismatch

  datatype Result<T> = Ok(value: T) | Err(error: Error)

  class Matrix {
    /** The backing grid. It is never replaced; only its cells change. */
    const values: array2<real>

    /** The source's `rows`: the grid's outer length. */
    function Rows(): (n: nat)
      ensures n == values.Length0
    {
      values.Length0
    }

    /** The source's `columns`: the length of every row of the rectangular grid. */
    function Columns(): (n: nat)
      ensures n == values.Length1
    {
      values.Length1
    }

    /** A matrix has at least one row and one column. */
    predicate Valid()
    {
      Rows() >= 1 && Columns() >= 1
    }

    /** The abstract value: the cells as a grid of rows. */
    ghost function Cells(): (g: Grids.Grid)
      reads values
      ensures |g| == Rows()
      ensures forall i :: 0 <= i < Rows() ==> |g[i]| == Columns()
      ensures forall i, j :: 0 <= i < Rows() && 0 <= j < Columns() ==> g[i][j] == values[i, j]
      ensures Valid() ==> Grids.IsMatrix(g) && Grids.Rows(g) == Rows() && Grids.Cols(g) == Columns()
    {
      seq(Rows(), i reads values requires 0 <= i < Rows() =>
        seq(Columns(), j reads values requires 0 <= j < Columns() => values[i, j]))
    }

    /** No cell is zero: what dividing by this matrix needs. */
    ghost predicate NonZero()
      reads values
    {
      Valid() && Grids.NonZero(Cells())
    }

    /** Matrix(rows, cols, defaultValue): every cell holds defaultValue. */
    constructor (rows: nat, cols: nat, defaultValue: real := 0.0)
      requires rows >= 1 && cols >= 1
      ensures Valid() && Rows() == rows && Columns() == cols
      ensures fresh(values)
      ensures Cells() == Grids.Filled(rows, cols, defaultValue)
    {
      values := new real[rows, cols]((i, j) => defaultValue);
      new;
      Grids.Extensionality(Cells(), Grids.Filled(rows, cols, defaultValue));
    }

    /** Matrix(values): wraps the caller's grid without copying it. */
    constructor Wrap(grid: array2<real>)
      requires grid.Length0 >= 1 && grid.Length1 >= 1
      ensures Valid() && values == grid
    {
      values := grid;
    }

    function Get(row: nat, col: nat): (v: real)
      reads values
      requires row < Rows() && col < Columns()
      ensures v == Cells()[row][col]
    {
      values[row, col]
    }

    method Set(row: nat, col: nat, value: real)
      requires row < Rows() && col < Columns()
      modifies values
      ensures forall i, j :: 0 <= i < Rows() && 0 <= j < Columns() ==>
        values[i, j] == if i == row && j == col then value else old(values[i, j])
      ensures Cells() == old(Cells())[row := old(Cells())[row][col := value]]
    {
      values[row, col] := value;
      Grids.Extensionality(Cells(), old(Cells())[row := old(Cells())[row][col := value]]);
    }

    /** The source's innermost loop: row r of this against column otherC of other. */
    method RowTimesColumn(other: Matrix, r: nat, otherC: nat) returns (sum: real)
      requires Valid() && other.Valid() && Columns() == other.Rows()
      requires r < Rows() && otherC < other.Columns()
      ensures sum == Grids.DotAt(Cells(), other.Cells(), r, otherC, Columns())
    {
      ghost var a, b := Cells(), other.Cells();
      sum := 0.0;
      for c := 0 to Columns()
        invariant sum == Grids.DotAt(a, b, r, otherC, c)
      {
        sum := sum + Get(r, c) * other.Get(c, otherC);
      }
    }

    /** The matrix product; the source does not check the inner dimensions. */
    method Dot(other: Matrix) returns (out: Matrix)
      requires Valid() && other.Valid() && Columns() == other.Rows()
      ensures fresh(out) && fresh(out.values) && out.Valid()
      ensures out.Cells() == Grids.Product(Cells(), other.Cells())
    {
      ghost var p := Grids.Product(Cells(), other.Cells());
      out := new Matrix(Rows(), other.Columns());
      for r := 0 to Rows()
        invariant forall i, j :: 0 <= i < r && 0 <= j < other.Columns() ==> out.values[i, j] == p[i][j]
      {
        for otherC := 0 to other.Columns()
          invariant forall i, j :: 0 <= i < r && 0 <= j < other.Columns() ==> out.values[i, j] == p[i][j]
          invariant forall j :: 0 <= j < otherC ==> out.values[r, j] == p[r][j]
        {
          var sum := RowTimesColumn(other, r, otherC);
          out.Set(r, otherC, sum);
        }
      }
      Grids.Extensionality(out.Cells(), p);
    }

    method Transpose() returns (out: Matrix)
      requires Valid()
      ensures fresh(out) && fresh(out.values) && out.Valid()
      ensures out.Cells() == Grids.Transpose(Cells())
    {
      out := new Matrix(Columns(), Rows());
      for r := 0 to Rows()
        invariant forall i, j :: 0 <= i < r && 0 <= j < Columns() ==> out.values[j, i] == values[i, j]
      {
        for c := 0 to Columns()
          invariant forall i, j :: 0 <= i < r && 0 <= j < Columns() ==> out.values[j, i] == values[i, j]
          invariant forall j :: 0 <= j < c ==> out.values[j, r] == values[r, j]
        {
          out.Set(c, r, Get(r, c));
        }
      }
      Grids.Extensionality(out.Cells(), Grids.Transpose(Cells()));
    }

    /**
     * The loop shared by plus, minus, times and div: fails on operands of
     * different shapes, and otherwise combines them cell by cell.
     */
    method Elementwise(op: Grids.Op, other: Matrix) returns (res: Result<Matrix>)
      requires Valid() && other.Valid()
      requires op == Grids.Div && Rows() == other.Rows() && Columns() == other.Columns() ==>
        other.NonZero()
      ensures res.Err? <==> Rows() != other.Rows() || Columns() != other.Columns()
      ensures res.Err? ==> res.error == DimensionMismatch
      ensures res.Ok? ==> fresh(res.value) && fresh(res.value.values) && res.value.Valid()
      ensures res.Ok? ==> (Grids.SameShape(Cells(), other.Cells()) &&
        (op == Grids.Div ==> Grids.NonZero(other.Cells())) &&
        res.value.Cells() == Grids.Zip(op, Cells(), other.Cells()))
    {
      if Rows() != other.Rows() || Columns() != other.Columns() {
        return Err(DimensionMismatch);
      }
      var out := new Matrix(Rows(), Columns());
      for r := 0 to Rows()
        invariant forall i, j :: 0 <= i < r && 0 <= j < Columns() ==>
          out.values[i, j] == Grids.Apply(op, values[i, j], other.values[i, j])
      {
        for c := 0 to Columns()
          invariant forall i, j :: 0 <= i < r && 0 <= j < Columns() ==>
            out.values[i, j] == Grids.Apply(op, values[i, j], other.values[i, j])
          invariant forall j :: 0 <= j < c ==>
            out.values[r, j] == Grids.Apply(op, values[r, j], other.values[r, j])
        {
          out.Set(r, c, Grids.Apply(op, Get(r, c), other.Get(r, c)));
        }
      }
      Grids.Extensionality(out.Cells(), Grids.Zip(op, Cells(), other.Cells()));
      return Ok(out);
    }

    method Plus(other: Matrix) returns (res: Result<Matrix>)
      requires Valid() && other.Valid()
      ensures res.Err? <==> Rows() != other.Rows() || Columns() != other.Columns()
      ensures res.Err? ==> res.error == DimensionMismatch
      ensures res.Ok? ==> fresh(res.value) && fresh(res.value.values) && res.value.Valid()
      ensures res.Ok? ==> (Grids.SameShape(Cells(), other.Cells()) &&
        res.value.Cells() == Grids.Zip(Grids.Add, Cells(), other.Cells()))
    {
      res := Elementwise(Grids.Add, other);
    }

    method Minus(other: Matrix) returns (res: Result<Matrix>)
      requires Valid() && other.Valid()
      ensures res.Err? <==> Rows() != other.Rows() || Columns() != other.Columns()
      ensures res.Err? ==> res.error == DimensionMismatch
      ensures res.Ok? ==> fresh(res.value) && fresh(res.value.values) && res.value.Valid()
      ensures res.Ok? ==> (Grids.SameShape(Cells(), other.Cells()) &&
        res.value.Cells() == Grids.Zip(Grids.Sub, Cells(), other.Cells()))
    {
      res := Elementwise(Grids.Sub, other);
    }

    /** Elementwise multiplication. */
    method Times(other: Matrix) returns (res: Result<Matrix>)
      requires Valid() && other.Valid()
      ensures res.Err? <==> Rows() != other.Rows() || Columns() != other.Columns()
      ensures res.Err? ==> res.error == DimensionMismatch
      ensures res.Ok? ==> fresh(res.value) && fresh(res.value.values) && res.value.Valid()
      ensures res.Ok? ==> (Grids.SameShape(Cells(), other.Cells()) &&
        res.value.Cells() == Grids.Zip(Grids.Mul, Cells(), other.Cells()))
    {
      res := Elementwise(Grids.Mul, other);
    }

    /** Elementwise division; over the reals every divisor cell must be non-zero. */
    method Div(other: Matrix) returns (res: Result<Matrix>)
      requires Valid() && other.Valid()
      requires Rows() == other.Rows() && Columns() == other.Columns() ==> other.NonZero()
      ensures res.Err? <==> Rows() != other.Rows() || Columns() != other.Columns()
      ensures res.Err? ==> res.error == DimensionMismatch
      ensures res.Ok? ==> fresh(res.value) && fresh(res.value.values) && res.value.Valid()
      ensures res.Ok? ==> (Grids.SameShape(Cells(), other.Cells()) &&
        Grids.NonZero(other.Cells()) &&
        res.value.Cells() == Grids.Zip(Grids.Div, Cells(), other.Cells()))
    {
      res := Elementwise(Grids.Div, other);
    }

    /** The loop shared by scalar times and div: every cell combined with one scalar. */
    method ScalarOp(op: Grids.Op, scalar: real) returns (out: Matrix)
      requires Valid()
      requires op == Grids.Div ==> scalar != 0.0
      ensures fresh(out) && fresh(out.values) && out.Valid()
      ensures out.Cells() == Grids.Scale(op, Cells(), scalar)
    {
      out := new Matrix(Rows(), Columns());
      for r := 0 to Rows()
        invariant forall i, j :: 0 <= i < r && 0 <= j < Columns() ==>
          out.values[i, j] == Grids.Apply(op, values[i, j], scalar)
      {
        for c := 0 to Columns()
          invariant forall i, j :: 0 <= i < r && 0 <= j < Columns() ==>
            out.values[i, j] == Grids.Apply(op, values[i, j], scalar)
          invariant forall j :: 0 <= j < c ==>
            out.values[r, j] == Grids.Apply(op, values[r, j], scalar)
        {
          out.Set(r, c, Grids.Apply(op, Get(r, c), scalar));
        }
      }
      Grids.Extensionality(out.Cells(), Grids.Scale(op, Cells(), scalar));
    }

    /** Scalar multiplication. */
    method TimesScalar(scalar: real) returns (out: Matrix)
      requires Valid()
      ensures fresh(out) && fresh(out.values) && out.Valid()
      ensures out.Cells() == Grids.Scale(Grids.Mul, Cells(), scalar)
    {
      out := ScalarOp(Grids.Mul, scalar);
    }

    /** Scalar division; over the reals the scalar must be non-zero. */
    method DivScalar(scalar: real) returns (out: Matrix)
      requires Valid() && scalar != 0.0
      ensures fresh(out) && fresh(out.values) && out.Valid()
      ensures out.Cells() == Grids.Scale(Grids.Div, Cells(), scalar)
    {
      out := ScalarOp(Grids.Div, scalar);
    }

    /** A copy with the same cells in a freshly allocated grid. */
    method Clone() returns (out: Matrix)
      requires Valid()
      ensures fresh(out) && fresh(out.values) && out.Valid()
      ensures out.Cells() == Cells()
    {
      out := new Matrix(Rows(), Columns());
      for r := 0 to Rows()
        invariant forall i, j :: 0 <= i < r && 0 <= j < Columns() ==> out.values[i, j] == values[i, j]
      {
        for c := 0 to Columns()
          invariant forall i, j :: 0 <= i < r && 0 <= j < Columns() ==> out.values[i, j] == values[i, j]
          invariant forall j :: 0 <= j < c ==> out.values[r, j] == values[r, j]
        {
          out.Set(r, c, Get(r, c));
        }
      }
      Grids.Extensionality(out.Cells(), Cells());
    }

    /**
     * Structural equality: the same matrix object, or the same rows, the
     * same columns and equal cells.
     */
    method Equals(other: Matrix) returns (eq: bool)
      requires Valid() && other.Valid()
      ensures this == other ==> eq
      ensures eq <==> (Rows() == other.Rows() && Columns() == other.Columns() &&
        forall i, j :: 0 <= i < Rows() && 0 <= j < Columns() ==> values[i, j] == other.values[i, j])
      ensures eq <==> Cells() == other.Cells()
    {
      if this == other {
        return true;
      }
      if Rows() != other.Rows() || Columns() != other.Columns() {
        return false;
      }
      for r := 0 to Rows()
        invariant forall i, j :: 0 <= i < r && 0 <= j < Columns() ==> values[i, j] == other.values[i, j]
      {
        for c := 0 to Columns()
          invariant forall i, j :: 0 <= i < r && 0 <= j < Columns() ==> values[i, j] == other.values[i, j]
          invariant forall j :: 0 <= j < c ==> values[r, j] == other.values[r, j]
        {
          if Get(r, c) != other.Get(r, c) {
            return false;
          }
        }
      }
      Grids.Extensionality(Cells(), other.Cells());
      return true;
    }

    /** The size by size identity matrix. */
    static method Identity(size: nat) returns (out: Matrix)
      requires size >= 1
      ensures fresh(out) && fresh(out.values) && out.Valid()
      ensures out.Cells() == Grids.Identity(size)
    {
      out := new Matrix(size, size);
      for i := 0 to size
        invariant forall r, c :: 0 <= r < size && 0 <= c < size ==>
          out.values[r, c] == if r == c && r < i then 1.0 else 0.0
      {
        out.Set(i, i, 1.0);
      }
      Grids.Extensionality(out.Cells(), Grids.Identity(size));
    }

    /** The N by 1 matrix holding `values` top to bottom. */
    static method Column(values: seq<real>) returns (out: Matrix)
      requires |values| >= 1
      ensures fresh(out) && fresh(out.values) && out.Valid()
      ensures out.Cells() == Grids.Column(values)
    {
      out := new Matrix(|values|, 1);
      for i := 0 to |values|
        invariant forall r :: 0 <= r < |values| ==>
          out.values[r, 0] == if r < i then values[r] else 0.0
      {
        out.Set(i, 0, values[i]);
      }
      Grids.Extensionality(out.Cells(), Grids.Column(values));
    }

    /** The 1 by N matrix holding `values` left to right. */
    static method Row(values: seq<real>) returns (out: Matrix)
      requires |values| >= 1
      ensures fresh(out) && fresh(out.values) && out.Valid()
      ensures out.Cells() == Grids.Row(values)
    {
      out := new Matrix(1, |values|);
      for i := 0 to |values|
        invariant forall c :: 0 <= c < |values| ==>
          out.values[0, c] == if c < i then values[c] else 0.0
      {
        out.Set(0, i, values[i]);
      }
      Grids.Extensionality(out.Cells(), Grids.Row(values));
    }
  }
}
