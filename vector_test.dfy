/**
 * The scenarios of vector_test.go, stated as methods whose postconditions are the
 * outcomes the tests check. Each applies the modelled operations to the tests' inputs.
 * `CopyIsIndependent` is not one of those scenarios; it states that `Unit`'s copy followed
 * by `ScalarMul` (vector.go:90-95) leaves the original unchanged.
 */
module GolaTests {
  import opened Gola

  /** `TestNewVector`: three arguments give a vector of length 3. */
  method TestNewVector() returns (length: nat)
    ensures length == 3
  {
    var v := New([1.0, 2.0, 4.0]);
    length := v.Length;
  }

  /** `TestVectorString`: with a formatter that writes small integers plainly, `[1,2,3,4]`. */
  method TestVectorString(fmt: real -> string) returns (s: string)
    requires fmt(1.0) == "1" && fmt(2.0) == "2" && fmt(3.0) == "3" && fmt(4.0) == "4"
    ensures s == "[1,2,3,4]"
  {
    var v := New([1.0, 2.0, 3.0, 4.0]);
    s := String(v, fmt);
    var c := v[..];
    assert c[..2][..1] == c[..1] && c[..3][..2] == c[..2] && c[..4] == c && c[..4][..3] == c[..3];
    assert Joined(c[..1], fmt) == "1";
    assert Joined(c[..2], fmt) == "1,2";
    assert Joined(c[..3], fmt) == "1,2,3";
  }

  /** `TestVectorEqual` and `TestVectorNotEqua`: equal components compare equal; one differing component does not. */
  method TestVectorEqual() returns (same: bool, differ: bool)
    ensures same && !differ
  {
    var v1 := New([45.0, 44.0, 90.0]);
    var v2 := New([45.0, 44.0, 90.0]);
    same := Eq(v1, v2);
    var v3 := New([12.0, 56.0, 7.0]);
    var v4 := New([12.0, 56.0, 9.0]);
    differ := Eq(v3, v4);
    assert v3[2] != v4[2];
  }

  /** `TestVectorAdd`: the sum equals the vector of component sums. */
  method TestVectorAdd() returns (ok: bool)
    ensures ok
  {
    var v1 := New([8.218, -9.341]);
    var v2 := New([-1.129, 2.111]);
    var v3 := Add(v1, v2);
    var expected := New([v1[0] + v2[0], v1[1] + v2[1]]);
    ok := Eq(v3, expected);
  }

  /** `TestVectorSub`: the difference equals the vector of component differences. */
  method TestVectorSub() returns (ok: bool)
    ensures ok
  {
    var v1 := New([7.119, 8.215]);
    var v2 := New([-8.223, 0.878]);
    var v3 := Sub(v1, v2);
    var expected := New([v1[0] - v2[0], v1[1] - v2[1]]);
    ok := Eq(v3, expected);
  }

  /** `TestVectorScalarMul`: scaling in place multiplies every component. */
  method TestVectorScalarMul() returns (ok: bool)
    ensures ok
  {
    var v := New([1.671, -1.012, -0.318]);
    ScalarMul(v, 7.41);
    var expected := New([7.41 * 1.671, 7.41 * -1.012, 7.41 * -0.318]);
    ok := Eq(v, expected);
  }

  /** `TestVectorMag`: the magnitude is the root of the summed squares, for a 2-vector and a 3-vector. */
  method TestVectorMag(sqrt: real -> real) returns (ok2: bool, ok3: bool)
    ensures ok2 && ok3
  {
    var v := New([-0.221, 7.437]);
    var mag := Mag(v, sqrt);
    var c := v[..];
    assert c[..1][..0] == [] && c[..2][..1] == c[..1] && c[..2] == c;
    assert SumSquares(c[..1]) == c[0] * c[0];
    ok2 := mag == sqrt(v[0] * v[0] + v[1] * v[1]);

    var w := New([8.813, -1.331, -6.247]);
    mag := Mag(w, sqrt);
    var d := w[..];
    assert d[..1][..0] == [] && d[..2][..1] == d[..1] && d[..3][..2] == d[..2] && d[..3] == d;
    assert SumSquares(d[..1]) == d[0] * d[0];
    assert SumSquares(d[..2]) == d[0] * d[0] + d[1] * d[1];
    ok3 := mag == sqrt(w[0] * w[0] + w[1] * w[1] + w[2] * w[2]);
  }

  /** `TestVectorUnit`: the unit vector scales each component by the reciprocal magnitude. */
  method TestVectorUnit(sqrt: real -> real) returns (ok: bool)
    requires sqrt(5.581 * 5.581 + -2.136 * -2.136) != 0.0
    ensures ok
  {
    var v := New([5.581, -2.136]);
    var mag := Mag(v, sqrt);
    var c := v[..];
    assert c[..1][..0] == [] && c[..2][..1] == c[..1] && c[..2] == c;
    assert SumSquares(c[..1]) == c[0] * c[0];
    var expected := New([(1.0 / mag) * v[0], (1.0 / mag) * v[1]]);
    var u := Unit(v, sqrt);
    ok := Eq(u, expected);
  }

  /** A copy is independent storage: scaling the copy in place leaves the original as it was. */
  method CopyIsIndependent(v: Vector, scale: real) returns (c: Vector)
    ensures fresh(c) && c != v
    ensures c.Length == v.Length
    ensures forall i :: 0 <= i < v.Length ==> c[i] == v[i] * scale
    ensures v[..] == old(v[..])
  {
    c := Copy(v);
    ScalarMul(c, scale);
  }
}
