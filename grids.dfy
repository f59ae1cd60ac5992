/**
 * The abstract value of a matrix: a rectangular grid of real numbers,
 * indexed [row][column] from zero, with at least one row and one column.
 * The functions here are the specifications the methods of class
 * Matrices.Matrix are proved against; the lemmas are the algebraic facts
 * that follow from them.
 */
module Grids {

  type Grid = seq<seq<real>>

  /** The elementwise operators `plus`, `minus`, `times` and `div`. */
  datatype Op = Add | Sub | Mul | Div

  /** A grid with at least one row, one column, and rows of equal length. */
  predicate IsMatrix(g: Grid)
  {
    |g| >= 1 && |g[0]| >= 1 && forall i :: 0 <= i < |g| ==> |g[i]| == |g[0]|
  }

  function Rows(g: Grid): (n: nat)
  {
    |g|
  }

  /** Like the source's `columns`, the length of the first row. */
  function Cols(g: Grid): (n: nat)
    requires |g| >= 1
  {
    |g[0]|
  }

  predicate SameShape(a: Grid, b: Grid)
    requires IsMatrix(a) && IsMatrix(b)
  {
    Rows(a) == Rows(b) && Cols(a) == Cols(b)
  }

  /** Every cell differs from zero: what real division needs of a divisor. */
  predicate NonZero(g: Grid)
    requires IsMatrix(g)
  {
    forall i, j :: 0 <= i < Rows(g) && 0 <= j < Cols(g) ==> g[i][j] != 0.0
  }

  /** Applies one elementwise operator to two cells. */
  function Apply(op: Op, x: real, y: real): (z: real)
    requires op == Div ==> y != 0.0
  {
    match op
    case Add => x + y
    case Sub => x - y
    case Mul => x * y
    case Div => x / y
  }

  /** A grid with `r` rows and `c` columns, every cell `d`. */
  function Filled(r: nat, c: nat, d: real): (g: Grid)
    requires r >= 1 && c >= 1
    ensures IsMatrix(g) && Rows(g) == r && Cols(g) == c
  {
    seq(r, i => seq(c, j => d))
  }

  /** The `n` by `n` grid with 1 on the main diagonal and 0 elsewhere. */
  function Identity(n: nat): (g: Grid)
    requires n >= 1
    ensures IsMatrix(g) && Rows(g) == n && Cols(g) == n
  {
    seq(n, i => seq(n, j => if i == j then 1.0 else 0.0))
  }

  /** The N by 1 grid whose i-th row is [v[i]]. */
  function Column(v: seq<real>): (g: Grid)
    requires |v| >= 1
    ensures IsMatrix(g) && Rows(g) == |v| && Cols(g) == 1
  {
    seq(|v|, i requires 0 <= i < |v| => [v[i]])
  }

  /** The 1 by N grid whose only row is v. */
  function Row(v: seq<real>): (g: Grid)
    requires |v| >= 1
    ensures IsMatrix(g) && Rows(g) == 1 && Cols(g) == |v|
  {
    [v]
  }

  /** Combines two grids of one shape cell by cell. */
  function Zip(op: Op, a: Grid, b: Grid): (g: Grid)
    requires IsMatrix(a) && IsMatrix(b) && SameShape(a, b)
    requires op == Div ==> NonZero(b)
    ensures IsMatrix(g) && SameShape(g, a)
  {
    seq(Rows(a), i requires 0 <= i < Rows(a) =>
      seq(Cols(a), j requires 0 <= j < Cols(a) => Apply(op, a[i][j], b[i][j])))
  }

  /** Combines every cell of a grid with one scalar. */
  function Scale(op: Op, a: Grid, s: real): (g: Grid)
    requires IsMatrix(a)
    requires op == Div ==> s != 0.0
    ensures IsMatrix(g) && SameShape(g, a)
  {
    seq(Rows(a), i requires 0 <= i < Rows(a) =>
      seq(Cols(a), j requires 0 <= j < Cols(a) => Apply(op, a[i][j], s)))
  }

  /** Reflects a grid across its main diagonal. */
  function Transpose(a: Grid): (t: Grid)
    requires IsMatrix(a)
    ensures IsMatrix(t) && Rows(t) == Cols(a) && Cols(t) == Rows(a)
  {
    seq(Cols(a), j requires 0 <= j < Cols(a) =>
      seq(Rows(a), i requires 0 <= i < Rows(a) => a[i][j]))
  }

  /**
   * a[i][0] * b[0][j] + ... + a[i][n-1] * b[n-1][j], accumulated from
   * k = 0 upwards as the source's innermost loop does.
   */
  function DotAt(a: Grid, b: Grid, i: nat, j: nat, n: nat): (s: real)
    requires i < |a| && n <= |a[i]| && n <= |b|
    requires forall k :: 0 <= k < n ==> j < |b[k]|
  {
    if n == 0 then 0.0 else DotAt(a, b, i, j, n - 1) + a[i][n - 1] * b[n - 1][j]
  }

  /** The matrix product of an m by n grid and an n by p grid. */
  function Product(a: Grid, b: Grid): (g: Grid)
    requires IsMatrix(a) && IsMatrix(b) && Cols(a) == Rows(b)
    ensures IsMatrix(g) && Rows(g) == Rows(a) && Cols(g) == Cols(b)
  {
    seq(Rows(a), i requires 0 <= i < Rows(a) =>
      seq(Cols(b), j requires 0 <= j < Cols(b) => DotAt(a, b, i, j, Cols(a))))
  }

  // ---------------------------------------------------------------------
  // Equality of grids

  /** Two grids of one shape that agree on every cell are the same grid. */
  lemma Extensionality(a: Grid, b: Grid)
    requires IsMatrix(a) && IsMatrix(b) && SameShape(a, b)
    requires forall i, j :: 0 <= i < Rows(a) && 0 <= j < Cols(a) ==> a[i][j] == b[i][j]
    ensures a == b
  {
    forall i | 0 <= i < Rows(a)
      ensures a[i] == b[i]
    {
      assert |a[i]| == |b[i]|;
      assert forall j :: 0 <= j < |a[i]| ==> a[i][j] == b[i][j];
    }
  }

  /** Equal grids have the same rows, the same columns and the same cells. */
  lemma EqualIff(a: Grid, b: Grid)
    requires IsMatrix(a) && IsMatrix(b)
    ensures a == b <==>
      (SameShape(a, b) &&
       forall i, j :: 0 <= i < Rows(a) && 0 <= j < Cols(a) ==> a[i][j] == b[i][j])
  {
    if SameShape(a, b) &&
       forall i, j :: 0 <= i < Rows(a) && 0 <= j < Cols(a) ==> a[i][j] == b[i][j]
    {
      Extensionality(a, b);
    }
  }

  // ---------------------------------------------------------------------
  // Factories

  /** Filled(r, c, 0) is the neutral element of Zip(Add, ...). */
  lemma PlusZero(a: Grid)
    requires IsMatrix(a)
    ensures Zip(Add, a, Filled(Rows(a), Cols(a), 0.0)) == a
  {
    Extensionality(Zip(Add, a, Filled(Rows(a), Cols(a), 0.0)), a);
  }

  /** Transposing a column gives the row of the same values, and back. */
  lemma ColumnRowTranspose(v: seq<real>)
    requires |v| >= 1
    ensures Transpose(Column(v)) == Row(v)
    ensures Transpose(Row(v)) == Column(v)
  {
    Extensionality(Transpose(Column(v)), Row(v));
    Extensionality(Transpose(Row(v)), Column(v));
  }

  /** The identity grid is symmetric. */
  lemma IdentitySymmetric(n: nat)
    requires n >= 1
    ensures Transpose(Identity(n)) == Identity(n)
  {
    Extensionality(Transpose(Identity(n)), Identity(n));
  }

  // ---------------------------------------------------------------------
  // Elementwise and scalar operations

  /** Subtracting what was added gives back the original: (A + B) - B == A. */
  lemma PlusMinusCancel(a: Grid, b: Grid)
    requires IsMatrix(a) && IsMatrix(b) && SameShape(a, b)
    ensures Zip(Sub, Zip(Add, a, b), b) == a
  {
    Extensionality(Zip(Sub, Zip(Add, a, b), b), a);
  }

  /** Elementwise division undoes elementwise multiplication, and conversely. */
  lemma TimesDivCancel(a: Grid, b: Grid)
    requires IsMatrix(a) && IsMatrix(b) && SameShape(a, b) && NonZero(b)
    ensures Zip(Div, Zip(Mul, a, b), b) == a
    ensures Zip(Mul, Zip(Div, a, b), b) == a
  {
    Extensionality(Zip(Div, Zip(Mul, a, b), b), a);
    Extensionality(Zip(Mul, Zip(Div, a, b), b), a);
  }

  /** Addition and elementwise multiplication do not depend on operand order. */
  lemma ZipCommutes(op: Op, a: Grid, b: Grid)
    requires IsMatrix(a) && IsMatrix(b) && SameShape(a, b)
    requires op == Add || op == Mul
    ensures Zip(op, a, b) == Zip(op, b, a)
  {
    Extensionality(Zip(op, a, b), Zip(op, b, a));
  }

  /** Scalar division by s undoes scalar multiplication by s, and conversely. */
  lemma ScaleCancel(a: Grid, s: real)
    requires IsMatrix(a) && s != 0.0
    ensures Scale(Div, Scale(Mul, a, s), s) == a
    ensures Scale(Mul, Scale(Div, a, s), s) == a
  {
    Extensionality(Scale(Div, Scale(Mul, a, s), s), a);
    Extensionality(Scale(Mul, Scale(Div, a, s), s), a);
  }

  /** Multiplying by a scalar equals multiplying elementwise by a filled grid. */
  lemma ScaleIsZipFilled(op: Op, a: Grid, s: real)
    requires IsMatrix(a)
    requires op == Div ==> s != 0.0
    ensures op == Div ==> NonZero(Filled(Rows(a), Cols(a), s))
    ensures Scale(op, a, s) == Zip(op, a, Filled(Rows(a), Cols(a), s))
  {
    Extensionality(Scale(op, a, s), Zip(op, a, Filled(Rows(a), Cols(a), s)));
  }

  // ---------------------------------------------------------------------
  // Transpose

  /** Transposing twice gives back the original grid. */
  lemma TransposeInvolutive(a: Grid)
    requires IsMatrix(a)
    ensures Transpose(Transpose(a)) == a
  {
    Extensionality(Transpose(Transpose(a)), a);
  }

  // ---------------------------------------------------------------------
  // Product

  /** Against a column of the identity, the sum keeps only the k == j term. */
  lemma {:induction false} DotAtIdentityRight(a: Grid, i: nat, j: nat, n: nat)
    requires IsMatrix(a) && i < Rows(a) && j < Cols(a) && n <= Cols(a)
    ensures DotAt(a, Identity(Cols(a)), i, j, n) == if j < n then a[i][j] else 0.0
  {
    if n > 0 {
      DotAtIdentityRight(a, i, j, n - 1);
    }
  }

  /** Against a row of the identity, the sum keeps only the k == i term. */
  lemma {:induction false} DotAtIdentityLeft(a: Grid, i: nat, j: nat, n: nat)
    requires IsMatrix(a) && i < Rows(a) && j < Cols(a) && n <= Rows(a)
    ensures DotAt(Identity(Rows(a)), a, i, j, n) == if i < n then a[i][j] else 0.0
  {
    if n > 0 {
      DotAtIdentityLeft(a, i, j, n - 1);
    }
  }

  /** A · identity(A.columns) == A. */
  lemma ProductIdentityRight(a: Grid)
    requires IsMatrix(a)
    ensures Product(a, Identity(Cols(a))) == a
  {
    forall i, j | 0 <= i < Rows(a) && 0 <= j < Cols(a)
      ensures Product(a, Identity(Cols(a)))[i][j] == a[i][j]
    {
      DotAtIdentityRight(a, i, j, Cols(a));
    }
    Extensionality(Product(a, Identity(Cols(a))), a);
  }

  /** identity(A.rows) · A == A. */
  lemma ProductIdentityLeft(a: Grid)
    requires IsMatrix(a)
    ensures Product(Identity(Rows(a)), a) == a
  {
    forall i, j | 0 <= i < Rows(a) && 0 <= j < Cols(a)
      ensures Product(Identity(Rows(a)), a)[i][j] == a[i][j]
    {
      DotAtIdentityLeft(a, i, j, Rows(a));
    }
    Extensionality(Product(Identity(Rows(a)), a), a);
  }

  /** Row i of A against column j of B is row j of B^T against column i of A^T. */
  lemma {:induction false} DotAtTranspose(a: Grid, b: Grid, i: nat, j: nat, n: nat)
    requires IsMatrix(a) && IsMatrix(b) && Cols(a) == Rows(b)
    requires i < Rows(a) && j < Cols(b) && n <= Cols(a)
    ensures DotAt(a, b, i, j, n) == DotAt(Transpose(b), Transpose(a), j, i, n)
  {
    if n > 0 {
      DotAtTranspose(a, b, i, j, n - 1);
    }
  }

  /** (A · B)^T == B^T · A^T. */
  lemma ProductTranspose(a: Grid, b: Grid)
    requires IsMatrix(a) && IsMatrix(b) && Cols(a) == Rows(b)
    ensures Transpose(Product(a, b)) == Product(Transpose(b), Transpose(a))
  {
    forall j, i | 0 <= j < Cols(b) && 0 <= i < Rows(a)
      ensures Transpose(Product(a, b))[j][i] == Product(Transpose(b), Transpose(a))[j][i]
    {
      DotAtTranspose(a, b, i, j, Cols(a));
    }
    Extensionality(Transpose(Product(a, b)), Product(Transpose(b), Transpose(a)));
  }
}
