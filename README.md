# Matrix — a verified Dafny model

This project models `com.kylecorry.matrix.Matrix`. It is a dense two-dimensional matrix of numbers,
stored as a grid indexed `[row][column]` from zero. Its operations are:

- construction, either filled with one value or wrapping a caller's grid without copying it;
- `get` and `set` on one cell;
- elementwise `plus`, `minus`, `times` and `div`, which throw when the shapes differ;
- scalar `times` and `div`;
- the matrix product `dot`, plus `transpose` and `clone`;
- structural `equals`;
- the factories `identity`, `column` and `row`.

The model has three modules.

- `Grids` (grids.dfy) holds the abstract value of a matrix: a rectangular `seq<seq<real>>` with at
  least one row and one column (`IsMatrix`, `Rows`, `Cols`). It defines the reference functions that
  the operations are proved against: `Filled`, `Identity`, `Column`, `Row`, `Zip` (one elementwise
  operator `Op` applied cell by cell), `Scale` (one operator with a scalar), `Transpose`, and
  `Product`. `Product` is built from `DotAt`, the sum `a[i][0]*b[0][j] + … + a[i][n-1]*b[n-1][j]`
  accumulated in the source's loop order. The lemmas state the algebra that follows: equality is
  cellwise, transposing twice is the identity, the identity matrix is neutral on both sides of the
  product, `(A·B)ᵀ = Bᵀ·Aᵀ`, `(A + B) - B = A`, and division undoes multiplication.
- `Matrices` (matrices.dfy) holds `class Matrix` over one `array2<real>`. The field is a `const`,
  like the source's `private val values`, so the shape never changes and only the cells do.
  `Cells()` gives the abstract value. `Get`, `Set`, `Equals` and the grid constructor `Wrap`
  allocate nothing. The arithmetic operations, `Transpose`, `Clone` and the filling constructor
  allocate a new matrix and fill it in nested loops, as the source does; the factories `Identity`,
  `Column` and `Row` allocate one and fill it in a single loop. Each of these says in its `ensures`
  that the result and its grid are fresh and that its `Cells()` equal the matching `Grids` function
  of the operands' `Cells()`. No operation modifies its operands. `dot` keeps the source's accumulator `sum` in its innermost loop.
  Shape errors come back as `Err(DimensionMismatch)`.
- `Scenarios` (scenarios.dfy) restates the repository's unit tests. The grid results appear as
  concrete lemmas. The storage behaviour appears as client methods: set then get, a clone that stays
  independent of its source in both directions, and the grid constructor aliasing the caller's array.

Elements are exact `real`s, not IEEE doubles. The test values (for example 5/4 = 1.25 and
1/2 = 0.5) are reproduced exactly.

`dot` does not check the inner dimensions (Matrix.kt:30-44). When `other.rows` is smaller it fails
on an out-of-range read, and when it is larger it ignores the extra rows. `Dot` therefore requires
`Columns() == other.Rows()` and promises no error.

## Model

| member | source | states |
|---|---|---|
| `Matrices.Matrix.Rows` | src/main/kotlin/com/kylecorry/matrix/Matrix.kt:9-10 | `rows` is the grid's outer length, which `Cells` gives as the number of rows of the abstract value |
| `Matrices.Matrix.Columns` | src/main/kotlin/com/kylecorry/matrix/Matrix.kt:12-13 | `columns` is the length of the grid's rows; the grid is rectangular, so this is the first row's length, as `Cells` states for the abstract value |
| `Matrices.Matrix.Cells` | src/main/kotlin/com/kylecorry/matrix/Matrix.kt:7-13 | the abstract value has `rows` rows of `columns` cells each (columns is the first row's length), and cell `[i][j]` is the stored value |
| `Matrices.Matrix.constructor` | src/main/kotlin/com/kylecorry/matrix/Matrix.kt:15-21 | `Matrix(r, c, d)` has r rows and c columns, every cell is `d` (`d` defaults to 0), and the storage is fresh |
| `Matrices.Matrix.Wrap` | src/main/kotlin/com/kylecorry/matrix/Matrix.kt:23-25 | the matrix keeps the caller's grid object itself, not a copy |
| `Matrices.Matrix.Get` | src/main/kotlin/com/kylecorry/matrix/Matrix.kt:165-167 | for in-range indices, returns cell `[row][col]` of the abstract value |
| `Matrices.Matrix.Set` | src/main/kotlin/com/kylecorry/matrix/Matrix.kt:158-160 | afterwards cell `[row][col]` holds the value, every other cell is unchanged, the shape is unchanged, and no other storage is touched |
| `Matrices.Matrix.RowTimesColumn` | src/main/kotlin/com/kylecorry/matrix/Matrix.kt:35-38 | the innermost loop's `sum` ends as the sum over k < columns of `a[r][k]*b[k][otherC]`, added in order of k |
| `Matrices.Matrix.Dot` | src/main/kotlin/com/kylecorry/matrix/Matrix.kt:30-44 | when `columns == other.rows`, returns a fresh `rows × other.columns` matrix whose cell `[i][j]` is the sum over k of `a[i][k]*b[k][j]`, accumulated in loop order |
| `Matrices.Matrix.Transpose` | src/main/kotlin/com/kylecorry/matrix/Matrix.kt:49-59 | returns a fresh `columns × rows` matrix with `out[c][r] == in[r][c]`, and the receiver is unchanged |
| `Matrices.Matrix.Elementwise` | src/main/kotlin/com/kylecorry/matrix/Matrix.kt:64-153 | the shared shape check and loop: an error exactly when rows or columns differ, otherwise a fresh same-shape matrix with `out[r][c] = a[r][c] ⊕ b[r][c]` |
| `Matrices.Matrix.Plus` | src/main/kotlin/com/kylecorry/matrix/Matrix.kt:64-75 | `DimensionMismatch` exactly when rows or columns differ; otherwise a fresh matrix of the same shape with `out[r][c] = a[r][c] + b[r][c]`; both operands unchanged |
| `Matrices.Matrix.Minus` | src/main/kotlin/com/kylecorry/matrix/Matrix.kt:80-91 | as `Plus`, with `a[r][c] - b[r][c]` |
| `Matrices.Matrix.Times` | src/main/kotlin/com/kylecorry/matrix/Matrix.kt:96-107 | as `Plus`, with `a[r][c] * b[r][c]` |
| `Matrices.Matrix.Div` | src/main/kotlin/com/kylecorry/matrix/Matrix.kt:142-153 | as `Plus`, with `a[r][c] / b[r][c]` |
| `Matrices.Matrix.ScalarOp` | src/main/kotlin/com/kylecorry/matrix/Matrix.kt:112-137 | the shared scalar loop: never fails, returns a fresh same-shape matrix with every cell combined with the scalar |
| `Matrices.Matrix.TimesScalar` | src/main/kotlin/com/kylecorry/matrix/Matrix.kt:112-122 | never fails; returns a fresh same-shape matrix with `out[r][c] = a[r][c] * s`; the receiver is unchanged |
| `Matrices.Matrix.DivScalar` | src/main/kotlin/com/kylecorry/matrix/Matrix.kt:127-137 | returns a fresh same-shape matrix with `out[r][c] = a[r][c] / s`; the receiver is unchanged |
| `Matrices.Matrix.Clone` | src/main/kotlin/com/kylecorry/matrix/Matrix.kt:172-182 | returns a matrix with the same cells whose object and grid are freshly allocated |
| `Matrices.Matrix.Equals` | src/main/kotlin/com/kylecorry/matrix/Matrix.kt:184-193 | true for the same object; otherwise true exactly when rows, columns and every cell agree, which is exactly when the abstract values are equal |
| `Matrices.Matrix.Identity` | src/main/kotlin/com/kylecorry/matrix/Matrix.kt:204-211 | returns a fresh `size × size` matrix with 1 on the diagonal and 0 elsewhere |
| `Matrices.Matrix.Column` | src/main/kotlin/com/kylecorry/matrix/Matrix.kt:216-222 | returns a fresh `N × 1` matrix with `out[i][0] == v[i]` |
| `Matrices.Matrix.Row` | src/main/kotlin/com/kylecorry/matrix/Matrix.kt:227-233 | returns a fresh `1 × N` matrix with `out[0][i] == v[i]` |
| `Grids.Filled` | src/main/kotlin/com/kylecorry/matrix/Matrix.kt:15-21 | the filled grid has the requested number of rows and columns |
| `Grids.Identity` | src/main/kotlin/com/kylecorry/matrix/Matrix.kt:204-211 | the identity grid is square of the requested size |
| `Grids.Column` | src/main/kotlin/com/kylecorry/matrix/Matrix.kt:216-222 | a column grid has one row per value and one column |
| `Grids.Row` | src/main/kotlin/com/kylecorry/matrix/Matrix.kt:227-233 | a row grid has one row and one column per value |
| `Grids.Zip` | src/main/kotlin/com/kylecorry/matrix/Matrix.kt:64-153 | an elementwise result has its operands' shape |
| `Grids.Scale` | src/main/kotlin/com/kylecorry/matrix/Matrix.kt:112-137 | a scalar result has its operand's shape |
| `Grids.Transpose` | src/main/kotlin/com/kylecorry/matrix/Matrix.kt:49-59 | the transpose of an `r × c` grid is `c × r` |
| `Grids.Product` | src/main/kotlin/com/kylecorry/matrix/Matrix.kt:30-44 | the product of an `m × n` and an `n × p` grid is `m × p` |
| `Grids.Extensionality` | src/main/kotlin/com/kylecorry/matrix/Matrix.kt:190 | two grids of one shape that agree on every cell are equal |
| `Grids.EqualIff` | src/main/kotlin/com/kylecorry/matrix/Matrix.kt:184-193 | grids are equal if and only if they have the same rows, the same columns and equal cells |
| `Grids.PlusZero` | src/main/kotlin/com/kylecorry/matrix/Matrix.kt:15-21 | adding the zero-filled matrix of the same shape changes nothing |
| `Grids.ColumnRowTranspose` | src/main/kotlin/com/kylecorry/matrix/Matrix.kt:216-233 | `column(v…)` transposed is `row(v…)`, and `row(v…)` transposed is `column(v…)` |
| `Grids.IdentitySymmetric` | src/main/kotlin/com/kylecorry/matrix/Matrix.kt:204-211 | the identity matrix equals its own transpose |
| `Grids.PlusMinusCancel` | src/main/kotlin/com/kylecorry/matrix/Matrix.kt:64-91 | `(A + B) - B == A` for operands of one shape |
| `Grids.TimesDivCancel` | src/main/kotlin/com/kylecorry/matrix/Matrix.kt:96-153 | elementwise `(A * B) / B == A` and `(A / B) * B == A` when no cell of B is zero |
| `Grids.ZipCommutes` | src/main/kotlin/com/kylecorry/matrix/Matrix.kt:64-107 | `A + B == B + A` and elementwise `A * B == B * A` |
| `Grids.ScaleCancel` | src/main/kotlin/com/kylecorry/matrix/Matrix.kt:112-137 | `(A * s) / s == A` and `(A / s) * s == A` for a non-zero scalar |
| `Grids.ScaleIsZipFilled` | src/main/kotlin/com/kylecorry/matrix/Matrix.kt:96-137 | a scalar operation equals the elementwise one against a matrix filled with the scalar |
| `Grids.TransposeInvolutive` | src/main/kotlin/com/kylecorry/matrix/Matrix.kt:49-59 | transposing twice gives back the original matrix |
| `Grids.DotAtIdentityRight` | src/main/kotlin/com/kylecorry/matrix/Matrix.kt:35-38 | the partial sum of row i against identity column j is `a[i][j]` once k has passed j, else 0 |
| `Grids.DotAtIdentityLeft` | src/main/kotlin/com/kylecorry/matrix/Matrix.kt:35-38 | the partial sum of identity row i against column j is `a[i][j]` once k has passed i, else 0 |
| `Grids.ProductIdentityRight` | src/main/kotlin/com/kylecorry/matrix/Matrix.kt:30-44 | `A · identity(A.columns) == A` |
| `Grids.ProductIdentityLeft` | src/main/kotlin/com/kylecorry/matrix/Matrix.kt:30-44 | `identity(A.rows) · A == A` |
| `Grids.DotAtTranspose` | src/main/kotlin/com/kylecorry/matrix/Matrix.kt:35-38 | each partial sum of the product equals the matching partial sum of the transposed product |
| `Grids.ProductTranspose` | src/main/kotlin/com/kylecorry/matrix/Matrix.kt:30-59 | `(A · B)ᵀ == Bᵀ · Aᵀ` |
| `Scenarios.DotExample` | src/test/kotlin/com/kylecorry/matrix/MatrixTest.kt:9-30 | `[[1,2],[3,4],[5,6]] · [[1,2,3],[4,5,6]] == [[9,12,15],[19,26,33],[29,40,51]]` |
| `Scenarios.EqualityScenario` | src/test/kotlin/com/kylecorry/matrix/MatrixTest.kt:33-52 | a matrix equals itself and one built apart from the same grid, and not one that differs in one cell |
| `Scenarios.TransposeExample` | src/test/kotlin/com/kylecorry/matrix/MatrixTest.kt:55-68 | `[[1,2,3],[4,5,6]]ᵀ == [[1,4],[2,5],[3,6]]` |
| `Scenarios.PlusExample` | src/test/kotlin/com/kylecorry/matrix/MatrixTest.kt:71-87 | the test's sum is `[[2,4,6],[8,9,12]]` |
| `Scenarios.MinusExample` | src/test/kotlin/com/kylecorry/matrix/MatrixTest.kt:90-106 | the test's difference is `[[0,0,0],[0,1,0]]` |
| `Scenarios.TimesExample` | src/test/kotlin/com/kylecorry/matrix/MatrixTest.kt:109-125 | the test's elementwise product is `[[1,4,9],[16,20,36]]` |
| `Scenarios.ScalarTimesExample` | src/test/kotlin/com/kylecorry/matrix/MatrixTest.kt:128-140 | `[[1,2,3],[4,5,6]] * 3 == [[3,6,9],[12,15,18]]` |
| `Scenarios.DivExample` | src/test/kotlin/com/kylecorry/matrix/MatrixTest.kt:143-159 | the test's elementwise quotient is `[[1,1,1],[1,1.25,1]]` |
| `Scenarios.ScalarDivExample` | src/test/kotlin/com/kylecorry/matrix/MatrixTest.kt:162-174 | `[[1,2,3],[4,5,6]] / 2 == [[0.5,1,1.5],[2,2.5,3]]` |
| `Scenarios.SetGetScenario` | src/test/kotlin/com/kylecorry/matrix/MatrixTest.kt:177-189 | reading `[0,1]` and `[1,0]` gives 2 and 4; after setting `[0,1]` to 5, reading it gives 5 |
| `Scenarios.CloneScenario` | src/test/kotlin/com/kylecorry/matrix/MatrixTest.kt:192-209 | a clone equals its source and is another object; a set on either is not seen by the other |
| `Scenarios.SetSourceAfterClone` | src/main/kotlin/com/kylecorry/matrix/Matrix.kt:172-182 | for any matrix and any cell, a set on the source after cloning leaves the clone's cells equal to the source's old cells |
| `Scenarios.SetCloneOfSource` | src/main/kotlin/com/kylecorry/matrix/Matrix.kt:172-182 | for any matrix and any cell, a set on the clone leaves the source unchanged, and the clone's storage is not the source's |
| `Scenarios.WrapAliases` | src/main/kotlin/com/kylecorry/matrix/Matrix.kt:23-25 | after wrapping a grid, a write to the caller's grid is seen through the matrix |

## Left out

- IEEE-754 doubles: elements are exact reals. Nothing models rounding, the accumulated floating-point error in `dot`'s `sum`, NaN or infinity, or the boxed-`Double` equality in `contentDeepEquals` (where NaN equals NaN and 0.0 differs from -0.0).
- Matrices.Matrix.Div: requires every divisor cell to be non-zero when the shapes match, because real division by zero is undefined. The source instead passes infinities and NaNs through.
- Matrices.Matrix.DivScalar: requires a non-zero scalar, for the same reason.
- Matrices.Matrix.Dot: requires `Columns() == other.Rows()`. When `other` has fewer rows the source fails on an out-of-range read; when it has more, the source uses only the first `columns` rows. Neither behaviour is modelled.
- `hashCode`: it is the JVM's `contentDeepHashCode`, which is outside the model.
- `Cloneable`, the `javaClass` test and comparison with a value that is not a `Matrix`: `Equals` compares two matrices only.
- Zero or negative dimensions: every matrix requires at least one row and one column, and the factories require at least one value. With zero rows the source's `columns` getter fails on `values[0]`.
- Jagged grids given to the grid constructor: an `array2` is rectangular by construction.
- Matrices.Matrix.Wrap: the model's grid is one `array2`, whose rows are distinct storage. The source's `Array<Array<Double>>` can hold one row array twice (`Matrix(arrayOf(r, r))`) or share a row array with another matrix's grid; a `set` through one such row is then seen through the other. That row-level aliasing is not captured, and `Set`'s "every other cell is unchanged" holds in the source only when the rows are distinct arrays.
- Out-of-range `get` and `set`: these raise Kotlin exceptions in the source. Here the index bounds are preconditions.
- Exception messages: the error is the single value `DimensionMismatch`, without the source's "Addition error" text.
