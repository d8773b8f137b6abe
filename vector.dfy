/**
 * A model of package gola's `Vector` (vector.go): a slice of float64 components
 * with element-wise arithmetic, an in-place scaling, folds and a display form.
 *
 * A Go slice is a reference to storage, so a Vector is modelled as an `array<real>`:
 * operations that allocate (`New`, `Copy`, `Add`, `Sub`, `Unit`) return `fresh`
 * arrays, and `ScalarMul` is the only operation that writes into its receiver.
 * Components are exact reals. The floating-point library calls the package makes
 * (`math.Sqrt`, `math.Acos`, `strconv.FormatFloat`) are passed in as functions,
 * so nothing below depends on how they round.
 */
module Gola {

  type Vector = array<real>

  /**
   * The package's `zero` constant: `IsZero` holds for a magnitude at or below it, and
   * `IsOrthogonal` for a dot product strictly below it in absolute value.
   */
  const ZeroTolerance: real := 0.0000000001

  /** `math.Pi`, the angle that (besides 0) makes two vectors parallel. */
  const Pi: real := 3.14159265358979323846264338327950288419716939937510582097494459

  // ---------------------------------------------------------------------------
  // Specification functions
  // ---------------------------------------------------------------------------

  /** The sum of squares, accumulated left to right from 0 as `Mag`'s loop does. */
  function SumSquares(s: seq<real>): real
  {
    if |s| == 0 then 0.0 else SumSquares(s[..|s| - 1]) + s[|s| - 1] * s[|s| - 1]
  }

  /** The Euclidean norm, for a given square root. */
  function Magnitude(s: seq<real>, sqrt: real -> real): real
  {
    sqrt(SumSquares(s))
  }

  /** The dot product, accumulated left to right from 0 as `DotProd`'s loop does. */
  function Dot(s: seq<real>, t: seq<real>): real
    requires |s| == |t|
  {
    if |s| == 0 then 0.0
    else Dot(s[..|s| - 1], t[..|t| - 1]) + s[|s| - 1] * t[|s| - 1]
  }

  /** The components rendered by `fmt` and separated by commas, built left to right. */
  function Joined(s: seq<real>, fmt: real -> string): string
  {
    if |s| == 0 then ""
    else if |s| == 1 then fmt(s[0])
    else Joined(s[..|s| - 1], fmt) + "," + fmt(s[|s| - 1])
  }

  /** The display form of a vector: `[`, the joined components, `]`. */
  function Rendered(s: seq<real>, fmt: real -> string): string
  {
    "[" + Joined(s, fmt) + "]"
  }

  /** The rendering of each component on its own. */
  function Formatted(s: seq<real>, fmt: real -> string): (r: seq<string>)
    ensures |r| == |s|
    ensures forall i :: 0 <= i < |s| ==> r[i] == fmt(s[i])
  {
    if |s| == 0 then [] else Formatted(s[..|s| - 1], fmt) + [fmt(s[|s| - 1])]
  }

  /** The index of the last comma in `str`, or -1 when there is none. */
  function LastComma(str: string): (k: int)
    ensures -1 <= k < |str|
    ensures k >= 0 ==> str[k] == ','
  {
    if |str| == 0 then -1
    else if str[|str| - 1] == ',' then |str| - 1
    else LastComma(str[..|str| - 1])
  }

  /** The fields of a string between its commas, found from the right; a string without commas is one field. */
  function Split(str: string): (r: seq<string>)
    ensures |r| >= 1
    decreases |str|
  {
    var k := LastComma(str);
    if k < 0 then [str] else Split(str[..k]) + [str[k + 1..]]
  }

  /** The number of occurrences of `c` in `str`. */
  function Count(c: char, str: string): nat
  {
    if |str| == 0 then 0 else (if str[0] == c then 1 else 0) + Count(c, str[1..])
  }

  /** A formatter that never writes a comma, as `strconv.FormatFloat` with format 'g' does not. */
  ghost predicate CommaFree(fmt: real -> string)
  {
    forall x :: ',' !in fmt(x)
  }

  // ---------------------------------------------------------------------------
  // Construction and copying
  // ---------------------------------------------------------------------------

  /** `New(elems...)`: a vector holding exactly the given components, in order. */
  method New(elems: seq<real>) returns (v: Vector)
    ensures fresh(v)
    ensures v.Length == |elems|
    ensures v[..] == elems
  {
    v := new real[|elems|](i requires 0 <= i < |elems| => elems[i]);
  }

  /** `Copy`: new storage with the same length and components as `v`. */
  method Copy(v: Vector) returns (result: Vector)
    ensures fresh(result)
    ensures result.Length == v.Length
    ensures result[..] == v[..]
  {
    result := new real[v.Length];
    forall i | 0 <= i < v.Length {
      result[i] := v[i];
    }
  }

  // ---------------------------------------------------------------------------
  // Display
  // ---------------------------------------------------------------------------

  /** `String`: `[`, each component through `fmt` with a comma after all but the last, `]`. */
  method String(v: Vector, fmt: real -> string) returns (s: string)
    ensures s == Rendered(v[..], fmt)
    ensures v.Length == 0 ==> s == "[]"
  {
    var buff := "[";
    for i := 0 to v.Length
      invariant buff == "[" + Joined(v[..i], fmt) + (if 0 < i < v.Length then "," else "")
    {
      assert v[..i + 1][..i] == v[..i];
      buff := buff + fmt(v[i]);
      if i < v.Length - 1 {
        buff := buff + ",";
      }
    }
    assert v[..v.Length] == v[..];
    buff := buff + "]";
    s := buff;
  }

  // ---------------------------------------------------------------------------
  // Equality and element-wise arithmetic
  // ---------------------------------------------------------------------------

  /** `Eq`: component-wise equality; stops at the first differing index. */
  method Eq(v: Vector, other: Vector) returns (eq: bool)
    requires v.Length == other.Length
    ensures eq <==> forall i :: 0 <= i < v.Length ==> v[i] == other[i]
    ensures eq <==> v[..] == other[..]
  {
    for i := 0 to v.Length
      invariant forall k :: 0 <= k < i ==> v[k] == other[k]
    {
      if v[i] != other[i] {
        assert v[..][i] != other[..][i];
        return false;
      }
    }
    return true;
  }

  /** `Add`: a new vector whose i-th component is the sum of the operands' i-th components. */
  method Add(v: Vector, other: Vector) returns (result: Vector)
    requires v.Length == other.Length
    ensures fresh(result)
    ensures result.Length == v.Length
    ensures forall i :: 0 <= i < v.Length ==> result[i] == v[i] + other[i]
  {
    result := new real[v.Length];
    for i := 0 to v.Length
      invariant forall k :: 0 <= k < i ==> result[k] == v[k] + other[k]
    {
      result[i] := v[i] + other[i];
    }
  }

  /** `Sub`: a new vector whose i-th component is the difference of the operands' i-th components. */
  method Sub(v: Vector, other: Vector) returns (result: Vector)
    requires v.Length == other.Length
    ensures fresh(result)
    ensures result.Length == v.Length
    ensures forall i :: 0 <= i < v.Length ==> result[i] == v[i] - other[i]
  {
    result := new real[v.Length];
    for i := 0 to v.Length
      invariant forall k :: 0 <= k < i ==> result[k] == v[k] - other[k]
    {
      result[i] := v[i] - other[i];
    }
  }

  /** `ScalarMul`: multiplies every component of the receiver by `scale`, in place. */
  method ScalarMul(v: Vector, scale: real)
    modifies v
    ensures forall i :: 0 <= i < v.Length ==> v[i] == old(v[i]) * scale
  {
    for i := 0 to v.Length
      invariant forall k :: 0 <= k < i ==> v[k] == old(v[k]) * scale
      invariant forall k :: i <= k < v.Length ==> v[k] == old(v[k])
    {
      v[i] := v[i] * scale;
    }
  }

  // ---------------------------------------------------------------------------
  // Folds: magnitude and dot product
  // ---------------------------------------------------------------------------

  /** `Mag`: the square root of the sum of squares of the components. */
  method Mag(v: Vector, sqrt: real -> real) returns (result: real)
    ensures result == Magnitude(v[..], sqrt)
  {
    result := 0.0;
    for i := 0 to v.Length
      invariant result == SumSquares(v[..i])
    {
      assert v[..i + 1][..i] == v[..i];
      result := result + v[i] * v[i];
    }
    assert v[..v.Length] == v[..];
    result := sqrt(result);
  }

  /** `DotProd`: the sum of the products of paired components. */
  method DotProd(v: Vector, other: Vector) returns (result: real)
    requires v.Length == other.Length
    ensures result == Dot(v[..], other[..])
    ensures v.Length == 0 ==> result == 0.0
  {
    result := 0.0;
    for i := 0 to v.Length
      invariant result == Dot(v[..i], other[..i])
    {
      assert v[..i + 1][..i] == v[..i];
      assert other[..i + 1][..i] == other[..i];
      result := result + v[i] * other[i];
    }
    assert v[..v.Length] == v[..];
    assert other[..other.Length] == other[..];
  }

  /** `Unit`: a copy of `v` scaled by the reciprocal of its magnitude; `v` itself is untouched. */
  method Unit(v: Vector, sqrt: real -> real) returns (result: Vector)
    requires Magnitude(v[..], sqrt) != 0.0
    ensures fresh(result)
    ensures result.Length == v.Length
    ensures forall i :: 0 <= i < v.Length ==> result[i] == v[i] * (1.0 / Magnitude(v[..], sqrt))
    ensures v[..] == old(v[..])
  {
    result := Copy(v);
    var mag := Mag(result, sqrt);
    ScalarMul(result, 1.0 / mag);
  }

  // ---------------------------------------------------------------------------
  // Zero, angle, parallelism and orthogonality
  // ---------------------------------------------------------------------------

  /**
   * `IsZero`: the magnitude is at most the zero tolerance. The first ensures is that
   * definition; the second is the property: the empty vector is zero when `sqrt(0) = 0`.
   */
  predicate IsZero(v: Vector, sqrt: real -> real): (z: bool)
    reads v
    ensures z <==> Magnitude(v[..], sqrt) <= ZeroTolerance
    ensures v.Length == 0 && sqrt(0.0) == 0.0 ==> z
  {
    Magnitude(v[..], sqrt) <= ZeroTolerance
  }

  /** `Angle`: the arc cosine of the dot product over the product of the magnitudes. */
  function Angle(v: Vector, other: Vector, sqrt: real -> real, acos: real -> real): real
    reads v, other
    requires v.Length == other.Length
    requires Magnitude(v[..], sqrt) * Magnitude(other[..], sqrt) != 0.0
  {
    acos(Dot(v[..], other[..]) / (Magnitude(v[..], sqrt) * Magnitude(other[..], sqrt)))
  }

  /**
   * `IsParallel`: true when either operand is zero, whatever the other is (its length
   * included: the lengths are compared only on the way to `Angle`); otherwise true
   * exactly when the angle is 0 or pi.
   */
  function IsParallel(v: Vector, other: Vector, sqrt: real -> real, acos: real -> real): (r: bool)
    reads v, other
    requires IsZero(v, sqrt) || IsZero(other, sqrt) || v.Length == other.Length
    ensures IsZero(v, sqrt) || IsZero(other, sqrt) ==> r
  {
    if IsZero(v, sqrt) || IsZero(other, sqrt) then true
    else
      assert Magnitude(v[..], sqrt) * Magnitude(other[..], sqrt) > 0.0;
      Angle(v, other, sqrt, acos) == 0.0 || Angle(v, other, sqrt, acos) == Pi
  }

  /**
   * `IsOrthogonal`: true when either operand is zero, whatever the other is; otherwise
   * true exactly when the dot product is within the zero tolerance of 0.
   */
  function IsOrthogonal(v: Vector, other: Vector, sqrt: real -> real): (r: bool)
    reads v, other
    requires IsZero(v, sqrt) || IsZero(other, sqrt) || v.Length == other.Length
    ensures IsZero(v, sqrt) || IsZero(other, sqrt) ==> r
  {
    if IsZero(v, sqrt) || IsZero(other, sqrt) then true
    else
      var d := Dot(v[..], other[..]);
      (if d < 0.0 then -d else d) < ZeroTolerance
  }

  // ---------------------------------------------------------------------------
  // Lemmas
  // ---------------------------------------------------------------------------

  /** `Mag` and `DotProd` run the same fold on `DotProd(v, v)`: the magnitude is the root of the self dot product. */
  lemma {:induction false} SumSquaresIsSelfDot(s: seq<real>)
    ensures SumSquares(s) == Dot(s, s)
  {
    if |s| > 0 {
      SumSquaresIsSelfDot(s[..|s| - 1]);
    }
  }

  /** The dot product does not depend on the order of its operands. */
  lemma {:induction false} DotSymmetric(s: seq<real>, t: seq<real>)
    requires |s| == |t|
    ensures Dot(s, t) == Dot(t, s)
  {
    if |s| > 0 {
      DotSymmetric(s[..|s| - 1], t[..|t| - 1]);
    }
  }

  /**
   * Both folds of `Angle` pair the same components in the same order, so the angle from
   * `v` to `other` is the angle from `other` to `v`.
   */
  lemma AngleSymmetric(v: Vector, other: Vector, sqrt: real -> real, acos: real -> real)
    requires v.Length == other.Length
    requires Magnitude(v[..], sqrt) * Magnitude(other[..], sqrt) != 0.0
    ensures Magnitude(other[..], sqrt) * Magnitude(v[..], sqrt) != 0.0
    ensures Angle(v, other, sqrt, acos) == Angle(other, v, sqrt, acos)
  {
    DotSymmetric(v[..], other[..]);
    assert Magnitude(v[..], sqrt) * Magnitude(other[..], sqrt) == Magnitude(other[..], sqrt) * Magnitude(v[..], sqrt);
  }

  /** A vector whose components are all 0 has sum of squares 0. */
  lemma {:induction false} ZeroComponentsSumSquares(s: seq<real>)
    requires forall i :: 0 <= i < |s| ==> s[i] == 0.0
    ensures SumSquares(s) == 0.0
  {
    if |s| > 0 {
      ZeroComponentsSumSquares(s[..|s| - 1]);
    }
  }

  /**
   * A vector whose components are all 0 (of any length, the empty one included) is
   * zero, and is then parallel and orthogonal to every vector, of any length.
   */
  lemma ZeroVectorIsParallelAndOrthogonal(z: Vector, other: Vector, sqrt: real -> real, acos: real -> real)
    requires sqrt(0.0) == 0.0
    requires forall i :: 0 <= i < z.Length ==> z[i] == 0.0
    ensures IsZero(z, sqrt)
    ensures IsParallel(z, other, sqrt, acos) && IsParallel(other, z, sqrt, acos)
    ensures IsOrthogonal(z, other, sqrt) && IsOrthogonal(other, z, sqrt)
  {
    ZeroComponentsSumSquares(z[..]);
  }

  lemma {:induction false} CountConcat(c: char, a: string, b: string)
    ensures Count(c, a + b) == Count(c, a) + Count(c, b)
  {
    if |a| == 0 {
      assert a + b == b;
    } else {
      assert (a + b)[1..] == a[1..] + b;
      CountConcat(c, a[1..], b);
    }
  }

  lemma {:induction false} CountAbsent(c: char, str: string)
    requires c !in str
    ensures Count(c, str) == 0
  {
    if |str| > 0 {
      assert str[0] != c;
      assert c !in str[1..];
      CountAbsent(c, str[1..]);
    }
  }

  /** With a comma-free formatter, n components are joined by exactly n - 1 commas. */
  lemma {:induction false} JoinedCommas(s: seq<real>, fmt: real -> string)
    requires CommaFree(fmt)
    ensures Count(',', Joined(s, fmt)) == if |s| == 0 then 0 else |s| - 1
  {
    if |s| > 0 {
      var last: real := s[|s| - 1];
      assert ',' !in fmt(last);
      CountAbsent(',', fmt(last));
      if |s| > 1 {
        var p := s[..|s| - 1];
        JoinedCommas(p, fmt);
        assert Joined(s, fmt) == Joined(p, fmt) + "," + fmt(last);
        CountConcat(',', Joined(p, fmt), ",");
        CountConcat(',', Joined(p, fmt) + ",", fmt(last));
      }
    }
  }

  /**
   * The display form opens with `[`, closes with `]`, is `[]` for the empty vector and,
   * with a comma-free formatter, holds exactly n - 1 commas for n components.
   */
  lemma RenderedShape(s: seq<real>, fmt: real -> string)
    requires CommaFree(fmt)
    ensures Rendered(s, fmt)[0] == '['
    ensures Rendered(s, fmt)[|Rendered(s, fmt)| - 1] == ']'
    ensures |s| == 0 ==> Rendered(s, fmt) == "[]"
    ensures Count(',', Rendered(s, fmt)) == if |s| == 0 then 0 else |s| - 1
  {
    JoinedCommas(s, fmt);
    CountConcat(',', "[", Joined(s, fmt));
    CountConcat(',', "[" + Joined(s, fmt), "]");
  }

  /** A comma-free tail does not move the last comma. */
  lemma {:induction false} LastCommaSkips(a: string, f: string)
    requires ',' !in f
    ensures LastComma(a + f) == LastComma(a)
  {
    if |f| > 0 {
      var g := f[..|f| - 1];
      assert (a + f)[..|a + f| - 1] == a + g;
      assert ',' !in g;
      LastCommaSkips(a, g);
    } else {
      assert a + f == a;
    }
  }

  /** A comma followed by a comma-free tail ends the last-but-one field. */
  lemma SplitAtLastComma(a: string, f: string)
    requires ',' !in f
    ensures Split(a + "," + f) == Split(a) + [f]
  {
    var str := a + "," + f;
    LastCommaSkips(a + ",", f);
    assert (a + ",")[..|a|] == a;
    assert str[..|a|] == a;
    assert str[|a| + 1..] == f;
  }

  /** A string without commas is a single field. */
  lemma SplitCommaFree(str: string)
    requires ',' !in str
    ensures Split(str) == [str]
  {
  }

  /**
   * With a comma-free formatter, the commas of a non-empty vector's display separate
   * exactly the rendered components, in order: no comma is missing or trailing.
   */
  lemma {:induction false} SplitJoined(s: seq<real>, fmt: real -> string)
    requires CommaFree(fmt)
    requires |s| > 0
    ensures Split(Joined(s, fmt)) == Formatted(s, fmt)
  {
    var last: real := s[|s| - 1];
    assert ',' !in fmt(last);
    SplitCommaFree(fmt(last));
    if |s| > 1 {
      var p := s[..|s| - 1];
      SplitJoined(p, fmt);
      assert Joined(s, fmt) == Joined(p, fmt) + "," + fmt(last);
      SplitAtLastComma(Joined(p, fmt), fmt(last));
      assert Formatted(s, fmt) == Formatted(p, fmt) + [fmt(last)];
    }
  }
}
