/** Points: the `Point` coordinate of the canvas and its componentwise
    operators. Coordinates are Rust `u16` values; every operator is checked
    (debug-build) arithmetic, so each operation requires exactly what keeps
    the Rust operator from panicking. */
module Points {

  /** An unsigned 16-bit integer. */
  newtype u16 = x: int | 0 <= x < 0x1_0000

  const U16_MAX: int := 0xFFFF

  /** A cell position; the top left cell is (0, 0). */
  datatype Point = Point(x: u16, y: u16)

  /** `Point::default()`. */
  const Origin: Point := Point(0, 0)

  /** `+` does not overflow in either component. */
  predicate CanAdd(p: Point, q: Point) {
    p.x as int + q.x as int <= U16_MAX && p.y as int + q.y as int <= U16_MAX
  }

  /** `-` does not underflow in either component. */
  predicate CanSub(p: Point, q: Point) {
    q.x <= p.x && q.y <= p.y
  }

  /** `*` does not overflow in either component. */
  predicate CanMul(p: Point, q: Point) {
    p.x as int * q.x as int <= U16_MAX && p.y as int * q.y as int <= U16_MAX
  }

  /** `/` does not divide by zero in either component. */
  predicate CanDiv(p: Point, q: Point) {
    q.x != 0 && q.y != 0
  }

  function Add(p: Point, q: Point): (r: Point)
    requires CanAdd(p, q)
    ensures r.x as int == p.x as int + q.x as int && r.y as int == p.y as int + q.y as int
  {
    Point(p.x + q.x, p.y + q.y)
  }

  function Sub(p: Point, q: Point): (r: Point)
    requires CanSub(p, q)
    ensures r.x as int == p.x as int - q.x as int && r.y as int == p.y as int - q.y as int
  {
    Point(p.x - q.x, p.y - q.y)
  }

  function Mul(p: Point, q: Point): (r: Point)
    requires CanMul(p, q)
    ensures r.x as int == p.x as int * q.x as int && r.y as int == p.y as int * q.y as int
  {
    var x, y := p.x as int * q.x as int, p.y as int * q.y as int;
    MulNonNegative(p.x as int, q.x as int);
    MulNonNegative(p.y as int, q.y as int);
    Point(x as u16, y as u16)
  }

  lemma MulNonNegative(a: int, b: int)
    requires 0 <= a && 0 <= b
    ensures 0 <= a * b
  {
  }

  /** Unsigned division truncates; on non-negative operands Dafny's `/`
      is the same operation. */
  function Div(p: Point, q: Point): (r: Point)
    requires CanDiv(p, q)
    ensures r.x as int * q.x as int <= p.x as int < (r.x as int + 1) * q.x as int
    ensures r.y as int * q.y as int <= p.y as int < (r.y as int + 1) * q.y as int
  {
    Point(p.x / q.x, p.y / q.y)
  }

  /** Subtracting what was added gives the point back. */
  lemma AddThenSub(p: Point, q: Point)
    requires CanAdd(p, q)
    ensures CanSub(Add(p, q), q) && Sub(Add(p, q), q) == p
  {
  }

  /** Adding back what was subtracted gives the point back. */
  lemma SubThenAdd(p: Point, q: Point)
    requires CanSub(p, q)
    ensures CanAdd(Sub(p, q), q) && Add(Sub(p, q), q) == p
  {
  }

  /** Dividing a product by a nonzero factor gives the other factor back. */
  lemma MulThenDiv(p: Point, q: Point)
    requires CanMul(p, q) && CanDiv(p, q)
    ensures CanDiv(Mul(p, q), q) && Div(Mul(p, q), q) == p
  {
    MulDivCancel(p.x as int, q.x as int);
    MulDivCancel(p.y as int, q.y as int);
  }

  lemma MulDivCancel(a: int, b: int)
    requires 0 <= a && 0 < b
    ensures (a * b) / b == a
  {
    var d := (a * b) / b;
    var m := (a * b) % b;
    assert a * b == d * b + m && 0 <= m < b;
    assert (a - d) * b == m by { assert a * b - d * b == (a - d) * b; }
    if a - d >= 1 { MulAtLeast(a - d, b); }
    if a - d <= -1 { MulAtLeast(d - a, b); }
  }

  lemma MulAtLeast(k: int, b: int)
    requires k >= 1 && b > 0
    ensures k * b >= b
  {
    assert k * b == (k - 1) * b + b;
  }

  /** Addition is commutative, and the origin is its identity. */
  lemma AddCommutes(p: Point, q: Point)
    requires CanAdd(p, q)
    ensures CanAdd(q, p) && Add(p, q) == Add(q, p)
    ensures CanAdd(p, Origin) && Add(p, Origin) == p
  {
  }
}
