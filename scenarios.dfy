/**
 * The concrete cases of the repository's unit tests, stated against the
 * model: the grid-level results as lemmas, and the cases about storage
 * (set and get, clone independence, the aliasing grid constructor) as
 * client methods of class Matrices.Matrix.
 */
module Scenarios {
  import Grids
  import Matrices

  const A23: Grids.Grid := [[1.0, 2.0, 3.0], [4.0, 5.0, 6.0]]
  const B23: Grids.Grid := [[1.0, 2.0, 3.0], [4.0, 4.0, 6.0]]

  lemma DotExample()
    ensures Grids.Product([[1.0, 2.0], [3.0, 4.0], [5.0, 6.0]], [[1.0, 2.0, 3.0], [4.0, 5.0, 6.0]])
         == [[9.0, 12.0, 15.0], [19.0, 26.0, 33.0], [29.0, 40.0, 51.0]]
  {
    var a: Grids.Grid := [[1.0, 2.0], [3.0, 4.0], [5.0, 6.0]];
    var b: Grids.Grid := [[1.0, 2.0, 3.0], [4.0, 5.0, 6.0]];
    var e: Grids.Grid := [[9.0, 12.0, 15.0], [19.0, 26.0, 33.0], [29.0, 40.0, 51.0]];
    assert Grids.IsMatrix(a) && Grids.IsMatrix(b) && Grids.IsMatrix(e);
    Grids.Extensionality(Grids.Product(a, b), e);
  }

  lemma TransposeExample()
    ensures Grids.Transpose(A23) == [[1.0, 4.0], [2.0, 5.0], [3.0, 6.0]]
  {
    var e: Grids.Grid := [[1.0, 4.0], [2.0, 5.0], [3.0, 6.0]];
    assert Grids.IsMatrix(A23) && Grids.IsMatrix(e);
    Grids.Extensionality(Grids.Transpose(A23), e);
  }

  lemma PlusExample()
    ensures Grids.Zip(Grids.Add, A23, B23) == [[2.0, 4.0, 6.0], [8.0, 9.0, 12.0]]
  {
    var e: Grids.Grid := [[2.0, 4.0, 6.0], [8.0, 9.0, 12.0]];
    assert Grids.IsMatrix(A23) && Grids.IsMatrix(B23) && Grids.IsMatrix(e);
    Grids.Extensionality(Grids.Zip(Grids.Add, A23, B23), e);
  }

  lemma MinusExample()
    ensures Grids.Zip(Grids.Sub, A23, B23) == [[0.0, 0.0, 0.0], [0.0, 1.0, 0.0]]
  {
    var e: Grids.Grid := [[0.0, 0.0, 0.0], [0.0, 1.0, 0.0]];
    assert Grids.IsMatrix(A23) && Grids.IsMatrix(B23) && Grids.IsMatrix(e);
    Grids.Extensionality(Grids.Zip(Grids.Sub, A23, B23), e);
  }

  lemma TimesExample()
    ensures Grids.Zip(Grids.Mul, A23, B23) == [[1.0, 4.0, 9.0], [16.0, 20.0, 36.0]]
  {
    var e: Grids.Grid := [[1.0, 4.0, 9.0], [16.0, 20.0, 36.0]];
    assert Grids.IsMatrix(A23) && Grids.IsMatrix(B23) && Grids.IsMatrix(e);
    Grids.Extensionality(Grids.Zip(Grids.Mul, A23, B23), e);
  }

  lemma DivExample()
    ensures Grids.IsMatrix(B23) && Grids.NonZero(B23)
    ensures Grids.Zip(Grids.Div, A23, B23) == [[1.0, 1.0, 1.0], [1.0, 1.25, 1.0]]
  {
    var e: Grids.Grid := [[1.0, 1.0, 1.0], [1.0, 1.25, 1.0]];
    assert Grids.IsMatrix(A23) && Grids.IsMatrix(B23) && Grids.IsMatrix(e);
    Grids.Extensionality(Grids.Zip(Grids.Div, A23, B23), e);
  }

  lemma ScalarTimesExample()
    ensures Grids.Scale(Grids.Mul, A23, 3.0) == [[3.0, 6.0, 9.0], [12.0, 15.0, 18.0]]
  {
    var e: Grids.Grid := [[3.0, 6.0, 9.0], [12.0, 15.0, 18.0]];
    assert Grids.IsMatrix(A23) && Grids.IsMatrix(e);
    Grids.Extensionality(Grids.Scale(Grids.Mul, A23, 3.0), e);
  }

  lemma ScalarDivExample()
    ensures Grids.Scale(Grids.Div, A23, 2.0) == [[0.5, 1.0, 1.5], [2.0, 2.5, 3.0]]
  {
    var e: Grids.Grid := [[0.5, 1.0, 1.5], [2.0, 2.5, 3.0]];
    assert Grids.IsMatrix(A23) && Grids.IsMatrix(e);
    Grids.Extensionality(Grids.Scale(Grids.Div, A23, 2.0), e);
  }

  /** A fresh 2 by 3 matrix holding A23, built through the grid constructor. */
  method MakeA23() returns (m: Matrices.Matrix)
    ensures fresh(m) && fresh(m.values) && m.Valid() && m.Cells() == A23
  {
    var grid := new real[2, 3]((i, j) requires 0 <= i < 2 && 0 <= j < 3 => A23[i][j]);
    m := new Matrices.Matrix.Wrap(grid);
    assert Grids.IsMatrix(A23);
    Grids.Extensionality(m.Cells(), A23);
  }

  /** Matrices built apart from equal grids are equal; one differing cell makes them unequal. */
  method EqualityScenario() returns (bb: bool, bc: bool, ab: bool)
    ensures bb && bc && !ab
  {
    var b := MakeA23();
    var c := MakeA23();
    var a := MakeA23();
    a.Set(0, 1, 4.0);
    bb := b.Equals(b);
    bc := b.Equals(c);
    ab := a.Equals(b);
    assert a.Get(0, 1) != b.Get(0, 1);
  }

  /** Reads, then overwrites, then reads one cell. */
  method SetGetScenario() returns (before01: real, before10: real, after01: real)
    ensures before01 == 2.0 && before10 == 4.0 && after01 == 5.0
  {
    var a := MakeA23();
    before01 := a.Get(0, 1);
    before10 := a.Get(1, 0);
    a.Set(0, 1, 5.0);
    after01 := a.Get(0, 1);
  }

  /** A clone equals its source and is not the same object or storage. */
  method CloneScenario() returns (eq: bool, same: bool, b00: real, a01: real)
    ensures eq && !same && b00 == 1.0 && a01 == 2.0
  {
    var a := MakeA23();
    var c := a.Clone();
    eq := a.Equals(c);
    same := a == c;
    var b := a.Clone();
    a.Set(0, 0, 5.0);
    b00 := b.Get(0, 0);
    b.Set(0, 1, 5.0);
    a01 := a.Get(0, 1);
  }

  /** A set on the source after cloning is not seen by the clone. */
  method SetSourceAfterClone(a: Matrices.Matrix, row: nat, col: nat, v: real) returns (b: Matrices.Matrix)
    requires a.Valid() && row < a.Rows() && col < a.Columns()
    modifies a.values
    ensures b.Valid() && b.Cells() == old(a.Cells())
    ensures a.Cells() == old(a.Cells())[row := old(a.Cells())[row][col := v]]
  {
    b := a.Clone();
    a.Set(row, col, v);
  }

  /** A set on a clone is not seen by its source. */
  method SetCloneOfSource(a: Matrices.Matrix, row: nat, col: nat, v: real) returns (b: Matrices.Matrix)
    requires a.Valid() && row < a.Rows() && col < a.Columns()
    ensures b.Valid() && b.values != a.values
    ensures b.Cells() == a.Cells()[row := a.Cells()[row][col := v]]
  {
    b := a.Clone();
    b.Set(row, col, v);
  }

  /** The grid constructor does not copy: a write to the caller's grid shows through the matrix. */
  method WrapAliases(grid: array2<real>, row: nat, col: nat, v: real) returns (seen: real)
    requires 1 <= grid.Length0 && 1 <= grid.Length1 && row < grid.Length0 && col < grid.Length1
    modifies grid
    ensures seen == v
  {
    var m := new Matrices.Matrix.Wrap(grid);
    grid[row, col] := v;
    seen := m.Get(row, col);
  }
}
