/** The slice of Unity's Vector3 and Mathf arithmetic that the flocking kernels
    use, over exact reals. Square roots are not computed: every operation that
    needs one takes it as a parameter `sqrt`. */
module Vectors {

  datatype Vector3 = Vector3(x: real, y: real, z: real)

  const Zero: Vector3 := Vector3(0.0, 0.0, 0.0)

  /** Vector3.kEpsilon: below this magnitude `normalized` yields the zero vector. */
  const Epsilon: real := 0.00001

  function Add(a: Vector3, b: Vector3): Vector3 {
    Vector3(a.x + b.x, a.y + b.y, a.z + b.z)
  }

  function Sub(a: Vector3, b: Vector3): Vector3 {
    Vector3(a.x - b.x, a.y - b.y, a.z - b.z)
  }

  /** `s * v` for a float `s`. */
  function Scale(s: real, v: Vector3): Vector3 {
    Vector3(s * v.x, s * v.y, s * v.z)
  }

  /** `v / s` for a float `s`; the float division by zero (infinities, NaN)
      is outside this model. */
  function Div(v: Vector3, s: real): Vector3
    requires s != 0.0
  {
    Vector3(v.x / s, v.y / s, v.z / s)
  }

  function SqrMagnitude(v: Vector3): real {
    v.x * v.x + v.y * v.y + v.z * v.z
  }

  function Magnitude(v: Vector3, sqrt: real -> real): real {
    sqrt(SqrMagnitude(v))
  }

  /** Vector3.Distance(a, b) = (a - b).magnitude */
  function Distance(a: Vector3, b: Vector3, sqrt: real -> real): real {
    Magnitude(Sub(a, b), sqrt)
  }

  /** Vector3.normalized: the vector divided by its magnitude, or the zero
      vector when the magnitude is at most Epsilon. */
  function Normalized(v: Vector3, sqrt: real -> real): (r: Vector3)
    ensures Magnitude(v, sqrt) <= Epsilon ==> r == Zero
    ensures Magnitude(v, sqrt) > Epsilon ==> Scale(Magnitude(v, sqrt), r) == v
  {
    var m := Magnitude(v, sqrt);
    if m > Epsilon then Div(v, m) else Zero
  }

  /** A zero vector stays zero under normalisation (whatever sqrt yields at 0,
      as long as it is not above Epsilon). */
  lemma NormalizedZero(sqrt: real -> real)
    requires sqrt(0.0) <= Epsilon
    ensures Normalized(Zero, sqrt) == Zero
  {
  }

  /** Mathf.Clamp */
  function Clamp(t: real, lo: real, hi: real): real {
    if t < lo then lo else if t > hi then hi else t
  }

  /** Mathf.Repeat(t, length) = Clamp(t - Floor(t / length) * length, 0, length):
      the floor-modulus of t into [0, length). */
  function Repeat(t: real, length: real): (r: real)
    requires length > 0.0
    ensures 0.0 <= r < length
  {
    var q := (t / length).Floor;
    FloorMul(t, length);
    var m := t - (q as real) * length;
    assert 0.0 <= m < length;
    Clamp(m, 0.0, length)
  }

  /** t - Floor(t / length) * length lies in [0, length). */
  lemma FloorMul(t: real, length: real)
    requires length > 0.0
    ensures 0.0 <= t - ((t / length).Floor as real) * length < length
  {
    var q := t / length;
    var f := q.Floor as real;
    assert f <= q < f + 1.0;
    DivMul(t, length);
    MulLe(f, q, length);
    assert f * length <= t;
    MulLt(q, f + 1.0, length);
    assert t < (f + 1.0) * length;
    assert (f + 1.0) * length == f * length + length;
  }

  lemma DivMul(t: real, l: real)
    requires l != 0.0
    ensures (t / l) * l == t
  {
  }

  lemma MulLe(a: real, b: real, c: real)
    requires a <= b && c > 0.0
    ensures a * c <= b * c
  {
    assert (b - a) * c >= 0.0;
  }

  lemma MulLt(a: real, b: real, c: real)
    requires a < b && c > 0.0
    ensures a * c < b * c
  {
    assert (b - a) * c > 0.0;
  }

  /** Repeat leaves a value already in [0, length) unchanged. */
  lemma RepeatInRange(t: real, length: real)
    requires length > 0.0 && 0.0 <= t < length
    ensures Repeat(t, length) == t
  {
    var q := t / length;
    DivMul(t, length);
    if q < 0.0 {
      MulLt(q, 0.0, length);
    }
    if q >= 1.0 {
      MulLe(1.0, q, length);
    }
    assert q.Floor == 0;
  }

  /** Wrapping twice is wrapping once. */
  lemma RepeatIdempotent(t: real, length: real)
    requires length > 0.0
    ensures Repeat(Repeat(t, length), length) == Repeat(t, length)
  {
    RepeatInRange(Repeat(t, length), length);
  }

  /** Scaling by 1 / s undoes scaling by s. */
  lemma ScaleInverse(s: real, v: Vector3)
    requires s != 0.0
    ensures Scale(1.0 / s, Scale(s, v)) == v
  {
    assert 1.0 / s * (s * v.x) == v.x;
    assert 1.0 / s * (s * v.y) == v.y;
    assert 1.0 / s * (s * v.z) == v.z;
  }

  /** A vector longer than Epsilon normalises to unit length, for any sqrt
      that gives a square root of its squared magnitude. */
  lemma NormalizedIsUnit(v: Vector3, sqrt: real -> real)
    requires Magnitude(v, sqrt) * Magnitude(v, sqrt) == SqrMagnitude(v)
    requires Magnitude(v, sqrt) > Epsilon
    ensures SqrMagnitude(Normalized(v, sqrt)) == 1.0
  {
    var m := Magnitude(v, sqrt);
    UnitSquares(v.x, v.y, v.z, m);
  }

  lemma UnitSquares(a: real, b: real, c: real, m: real)
    requires m * m == a * a + b * b + c * c && m > 0.0
    ensures (a / m) * (a / m) + (b / m) * (b / m) + (c / m) * (c / m) == 1.0
  {
    var k := 1.0 / m;
    assert a / m == a * k && b / m == b * k && c / m == c * k;
    assert (a * k) * (a * k) + (b * k) * (b * k) + (c * k) * (c * k) == (a * a + b * b + c * c) * (k * k);
    assert (m * m) * (k * k) == (m * k) * (m * k);
    assert m * k == 1.0;
  }
}
