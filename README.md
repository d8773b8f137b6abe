# gola Vector, modelled in Dafny

Package `gola` defines one type, `Vector` (a Go slice of `float64`), and its operations in
`vector.go`. This project models the array-manipulating part of that type and proves what
its operations do to lengths, components and storage:

- `vector.dfy`, module `Gola`, models `vector.go`. A Go slice refers to storage, so a
  `Vector` is an `array<real>`. `New`, `Copy`, `Add`, `Sub` and `Unit` return fresh arrays.
  `ScalarMul` is the only operation that writes into its receiver, and it `modifies` only
  that array. `Eq`, `DotProd`, `Mag` and `String` read their operands and change nothing.
- The length guard `assertLenMatch` (vector.go:20-24) panics on a length mismatch. It is
  modelled as `requires v.Length == other.Length` on `Eq`, `Add`, `Sub` and `DotProd`, the
  four operations that call it.
- The loops are written as loops. `Add`, `Sub` and `ScalarMul` fill or rewrite index by
  index. `Eq` returns `false` at the first differing index. `DotProd` and `Mag` accumulate
  left to right from 0. `String` appends to a buffer. The accumulating loops (`DotProd`,
  `Mag`, `String`) are proved against the specification functions `Dot`, `SumSquares` and
  `Rendered`. The loops of `Eq`, `Add`, `Sub` and `ScalarMul` are proved against
  postconditions quantified over the indices.
- `IsZero` and `Angle` are single expressions in the source. `IsParallel` and
  `IsOrthogonal` are each an early `return true`, then one expression. All four are
  modelled as functions that read the arrays.
- `math.Sqrt`, `math.Acos` and the per-component formatter `strconv.FormatFloat` are passed
  in as function parameters (`sqrt`, `acos`, `fmt`). Nothing proved depends on how they
  round.
- `vector_test.dfy`, module `GolaTests`, restates the scenarios of `vector_test.go` as
  methods. Each method's postcondition is the outcome its test checks.
  `CopyIsIndependent` is not one of those scenarios; it states that `Unit`'s copy followed
  by `ScalarMul` (vector.go:90-95) leaves the original unchanged.

Points where the contracts follow the code's exact behaviour:

- On a length mismatch, `Eq` panics through `assertLenMatch` (vector.go:45, 20-24); it does
  not return `false`.
- `IsParallel` and `IsOrthogonal` compare lengths only when neither operand is zero,
  because `IsZero` is evaluated first (vector.go:110, 118). A zero operand therefore gives
  `true` against a vector of any length. Their `requires` say exactly this.
- `vector.go` defines no cross product, projection or perpendicular component, so none is
  modelled.

## Model

| member | source | states |
|---|---|---|
| `Gola.New` | vector.go:16-18 | the result is fresh storage holding exactly the arguments, in order; its length is the number of arguments |
| `Gola.Copy` | vector.go:26-30 | the result is fresh storage, so it is not the original; it has the original's length and components |
| `Gola.String` | vector.go:32-42 | the text is `[`, then the components through `fmt` joined by commas, then `]`; the empty vector gives `[]` |
| `Gola.RenderedShape` | vector.go:32-42 | the display opens with `[` and closes with `]`; the empty vector gives `[]`; with a comma-free formatter, n components carry exactly n - 1 commas (none for n = 0) |
| `Gola.JoinedCommas` | vector.go:34-39 | with a comma-free formatter, the loop writes a comma after every component but the last: n - 1 commas in all |
| `Gola.SplitJoined` | vector.go:34-39 | with a comma-free formatter, splitting a non-empty vector's display body at its commas gives back each component's rendering, in order; so no comma is missing, doubled or trailing |
| `Gola.Eq` | vector.go:44-52 | requires equal lengths; true if and only if every index holds equal components, in both directions |
| `Gola.Add` | vector.go:58-65 | requires equal lengths; the result is fresh, has the operands' length, and holds `v[i] + other[i]` at each index i; the operands are not written (no `modifies`) |
| `Gola.Sub` | vector.go:67-74 | requires equal lengths; the result is fresh, has the operands' length, and holds `v[i] - other[i]` at each index i; the operands are not written |
| `Gola.ScalarMul` | vector.go:76-80 | rewrites the receiver in place so that each component becomes its old value times `scale`; the length is unchanged and no other storage changes |
| `Gola.Mag` | vector.go:82-88 | the result is `sqrt` of the left-to-right sum of squares, starting from 0 |
| `Gola.SumSquaresIsSelfDot` | vector.go:82-103 | the sum that `Mag` passes to `sqrt` is the dot product of the vector with itself: both loops add the same products in the same order |
| `Gola.ZeroComponentsSumSquares` | vector.go:82-88 | a vector whose components all equal 0 has a sum of squares of 0 |
| `Gola.Unit` | vector.go:90-95 | for a non-zero magnitude, the result is fresh, has the receiver's length, and holds each component times `1 / magnitude`; the receiver is left as it was |
| `Gola.DotProd` | vector.go:97-103 | requires equal lengths; the result is the left-to-right sum of `v[i] * other[i]` starting from 0, so the empty vector gives 0 |
| `Gola.DotSymmetric` | vector.go:97-103 | the dot product is the same with its operands swapped |
| `Gola.IsZero` | vector.go:54-56 | the empty vector is zero when `sqrt(0) = 0`; its first ensures is only the definition, a magnitude at most `zero` (inclusive) |
| `Gola.AngleSymmetric` | vector.go:105-107 | `Angle` is the formula only, with a zero product of magnitudes excluded; the angle is the same with the operands swapped |
| `Gola.IsParallel` | vector.go:109-114 | true whenever either operand is zero, whatever the other operand is; lengths must match only when neither is zero |
| `Gola.IsOrthogonal` | vector.go:116-122 | true whenever either operand is zero, whatever the other operand is; lengths must match only when neither is zero |
| `Gola.ZeroVectorIsParallelAndOrthogonal` | vector.go:54-122 | if `sqrt(0) = 0`, a vector of zero components is zero, and is parallel and orthogonal to every vector, of any length, from either side |
| `GolaTests.TestNewVector` | vector_test.go:8-13 | `New(1, 2, 4)` has length 3 |
| `GolaTests.TestVectorString` | vector_test.go:15-21 | `New(1, 2, 3, 4)` displays as `[1,2,3,4]` when the formatter writes those integers plainly |
| `GolaTests.TestVectorEqual` | vector_test.go:23-39 | `(45, 44, 90)` equals itself; `(12, 56, 7)` does not equal `(12, 56, 9)` |
| `GolaTests.TestVectorAdd` | vector_test.go:41-55 | the sum equals the vector of component sums |
| `GolaTests.TestVectorSub` | vector_test.go:57-70 | the difference equals the vector of component differences |
| `GolaTests.TestVectorScalarMul` | vector_test.go:72-85 | after scaling by 7.41, each component equals 7.41 times its old value |
| `GolaTests.TestVectorMag` | vector_test.go:87-102 | the magnitude of `(-0.221, 7.437)` is `sqrt(v0*v0 + v1*v1)`, and that of `(8.813, -1.331, -6.247)` is `sqrt(v0*v0 + v1*v1 + v2*v2)` |
| `GolaTests.TestVectorUnit` | vector_test.go:104-113 | the unit vector equals the components times `1 / Mag` |
| `GolaTests.CopyIsIndependent` | vector.go:90-95 | scaling a copy in place, as `Unit` does, gives fresh storage with the scaled components and leaves the original unchanged |

## Left out

- Floating point. Components are exact reals, so `+`, `-` and `*` do not round. There is no
  NaN, infinity or negative zero. In Go, `Eq` on a vector holding NaN returns `false` even
  against itself; the model does not capture this.
- `Mag`, `IsZero` and `Angle` have no numeric meaning here. `math.Sqrt` and `math.Acos`
  are abstract parameters. `IsZero` compares against the package's tolerance
  `zero = 1.0e-10`, taken as the exact real 0.0000000001.
- `AngleSymmetric`: `Angle` is only its formula. Its `requires` excludes a zero product of
  magnitudes; in Go that division gives NaN or infinity instead. The only property proved
  is that swapping the operands gives the same angle.
- `IsParallel` and `IsOrthogonal`: only their zero short-circuit is proved. Their other
  branches are modelled as the source writes them: the exact test against 0 and `math.Pi`,
  and the tolerance test on the dot product. Nothing is proved about those branches.
  `math.Pi` is the exact real with Go's decimal digits, not its `float64` rounding.
- `Unit`: requires a non-zero magnitude. The source divides by the magnitude regardless,
  giving infinite or NaN components when it is 0.
- `String`: `strconv.FormatFloat(val, 'g', -1, 64)` is the abstract formatter `fmt`, and
  `bytes.Buffer` is a string. Only the bracket and comma structure is modelled. The comma
  lemmas assume that the formatter never writes a comma, which holds for the 'g' format.
- `New`: modelled for a call with listed arguments, which gets fresh storage. A call
  `New(s...)` passes an existing slice through, so the result aliases `s`; that is not
  modelled.
- Slice headers: a nil slice, and two `Vector`s sharing one backing array (sub-slices),
  are not modelled. Two arrays here are either the same array or disjoint.
- The unused constant `piOver2`, and the package imports.
- `Eq` returns `false` at the first differing index. The model proves the returned value,
  not the position where the loop stops, because a caller cannot observe that position.
