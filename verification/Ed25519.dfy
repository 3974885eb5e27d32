/** Point arithmetic of tools/usign-verify.py:18-45: extended coordinates (X, Y, Z, T) on -x^2 + y^2 = 1 + d x^2 y^2 over
    the integers modulo P (section 5.1.4 of RFC 8032). */
module Ed25519 {
  /** The modulus, the curve's d and a square root of -1. Everything below holds for any; Ed25519's are in `ED25519`. */
  datatype Params = Params(p: int, d: int, i: int)
  type Field = f: Params | f.p > 4 witness Params(5, 2, 2)

  const ED25519: Field := Params(
    0x7fffffff_ffffffff_ffffffff_ffffffff_ffffffff_ffffffff_ffffffff_ffffffed,  // 2^255 - 19
    37095705934669439343138083508754565189542113879843219016388785533085940283555,
    19681161376707505956807079304988542015446066515923890162744021073123829784752)

  // ---- congruence modulo P

  ghost predicate Multiple(fd: Field, a: int, b: int, k: int) { a - b == k * fd.p }

  ghost predicate Eq(fd: Field, a: int, b: int) { exists k :: Multiple(fd, a, b, k) }

  lemma MulBound(m: int, p: int)
    requires p > 0
    ensures (m >= 1 ==> m * p >= p) && (m <= -1 ==> m * p <= -p)
  {
  }

  lemma MultipleMod(k: int, p: int)
    requires p > 0
    ensures k * p % p == 0
  {
    var q, r := k * p / p, k * p % p;
    assert (k - q) * p == r;
    MulBound(k - q, p);
  }

  lemma EqMod(fd: Field, a: int, b: int)
    ensures Eq(fd, a, b) <==> (a - b) % fd.p == 0
  {
    if (a - b) % fd.p == 0 {
      assert Multiple(fd, a, b, (a - b) / fd.p);
    }
    if Eq(fd, a, b) {
      var k :| Multiple(fd, a, b, k);
      MultipleMod(k, fd.p);
    }
  }

  lemma Reduced(fd: Field, a: int)
    ensures Eq(fd, a % fd.p, a)
  {
    assert Multiple(fd, a % fd.p, a, -(a / fd.p));
  }

  lemma Same(fd: Field, a: int, b: int)
    requires a == b
    ensures Eq(fd, a, b)
  {
    assert Multiple(fd, a, b, 0);
  }

  lemma Sym(fd: Field, a: int, b: int)
    requires Eq(fd, a, b)
    ensures Eq(fd, b, a)
  {
    var k :| Multiple(fd, a, b, k);
    assert Multiple(fd, b, a, -k);
  }

  lemma Trans(fd: Field, a: int, b: int, c: int)
    requires Eq(fd, a, b) && Eq(fd, b, c)
    ensures Eq(fd, a, c)
  {
    var k :| Multiple(fd, a, b, k);
    var l :| Multiple(fd, b, c, l);
    assert Multiple(fd, a, c, k + l);
  }

  lemma Plus(fd: Field, a: int, b: int, c: int, d: int)
    requires Eq(fd, a, b) && Eq(fd, c, d)
    ensures Eq(fd, a + c, b + d) && Eq(fd, a - c, b - d)
  {
    var k :| Multiple(fd, a, b, k);
    var l :| Multiple(fd, c, d, l);
    assert Multiple(fd, a + c, b + d, k + l);
    assert Multiple(fd, a - c, b - d, k - l);
  }

  lemma Times(fd: Field, a: int, b: int, c: int, d: int)
    requires Eq(fd, a, b) && Eq(fd, c, d)
    ensures Eq(fd, a * c, b * d)
  {
    var k :| Multiple(fd, a, b, k);
    var l :| Multiple(fd, c, d, l);
    calc {
      a * c - b * d;
      a * (c - d) + d * (a - b);
      a * (l * fd.p) + d * (k * fd.p);
      (a * l + d * k) * fd.p;
    }
    assert Multiple(fd, a * c, b * d, a * l + d * k);
  }

  lemma Scaled(fd: Field, a: int, b: int, c: int)
    requires Eq(fd, a, b)
    ensures Eq(fd, c * a, c * b)
  {
    Same(fd, c, c);
    Times(fd, c, c, a, b);
  }

  // ---- the constants

  ghost predicate Root(fd: Field) { Eq(fd, fd.i * fd.i, -1) }

  /** Ed25519's d is -121665/121666, and its i is a square root of -1. */
  lemma Constants(fd: Field)
    requires fd == ED25519
    ensures Eq(fd, 121666 * fd.d, -121665) && Root(fd)
  {
    EqMod(fd, 121666 * fd.d, -121665);
    EqMod(fd, fd.i * fd.i, -1);
  }

  // ---- points

  datatype Point = Point(x: int, y: int, z: int, t: int)

  /** `_add`. */
  function Add(fd: Field, a: Point, b: Point): Point {
    var A := (a.y - a.x) * (b.y - b.x) % fd.p;
    var B := (a.y + a.x) * (b.y + b.x) % fd.p;
    var C := 2 * a.t * b.t * fd.d % fd.p;
    var Dd := 2 * a.z * b.z % fd.p;
    var E, F, G, H := B - A, Dd - C, Dd + C, B + A;
    Point(E * F % fd.p, G * H % fd.p, F * G % fd.p, E * H % fd.p)
  }

  /** x y = t z and the curve's equation, in projective form, with z possibly 0. */
  ghost predicate Satisfies(fd: Field, a: Point) {
    && Eq(fd, a.x * a.y, a.z * a.t)
    && Eq(fd, a.y * a.y - a.x * a.x, a.z * a.z + fd.d * (a.t * a.t))
  }

  ghost predicate OnCurve(fd: Field, a: Point) { Satisfies(fd, a) && !Eq(fd, a.z, 0) }

  /** `_equal`. */
  ghost predicate Equal(fd: Field, a: Point, b: Point) {
    Eq(fd, a.x * b.z, b.x * a.z) && Eq(fd, a.y * b.z, b.y * a.z)
  }

  const NEUTRAL := Point(0, 1, 1, 0)

  // ---- the addition formula, half of each of E, F, G, H

  function HalfE(a: Point, b: Point): int { a.x * b.y + a.y * b.x }
  function HalfH(a: Point, b: Point): int { a.y * b.y + a.x * b.x }
  function HalfF(fd: Field, a: Point, b: Point): int { a.z * b.z - fd.d * (a.t * b.t) }
  function HalfG(fd: Field, a: Point, b: Point): int { a.z * b.z + fd.d * (a.t * b.t) }

  /** `r` is 4 times the products of the halves: what `_add` returns, modulo P. */
  ghost predicate Product(fd: Field, a: Point, b: Point, r: Point) {
    var e, f, g, h := HalfE(a, b), HalfF(fd, a, b), HalfG(fd, a, b), HalfH(a, b);
    Eq(fd, r.x, 4 * (e * f)) && Eq(fd, r.y, 4 * (g * h)) && Eq(fd, r.z, 4 * (f * g)) && Eq(fd, r.t, 4 * (e * h))
  }

  lemma TimesTwice(fd: Field, u: int, v: int, p: int, q: int)
    requires Eq(fd, u, 2 * p) && Eq(fd, v, 2 * q)
    ensures Eq(fd, u * v % fd.p, 4 * (p * q))
  {
    Times(fd, u, 2 * p, v, 2 * q);
    Reduced(fd, u * v);
    Trans(fd, u * v % fd.p, u * v, 2 * p * (2 * q));
    assert 2 * p * (2 * q) == 4 * (p * q);
  }

  /** The differences and sums of the reduced products are twice the halves. */
  lemma ReducedPair(fd: Field, u: int, v: int, p: int, q: int)
    requires v - u == 2 * p && v + u == 2 * q
    ensures Eq(fd, v % fd.p - u % fd.p, 2 * p) && Eq(fd, v % fd.p + u % fd.p, 2 * q)
  {
    Reduced(fd, u);
    Reduced(fd, v);
    Plus(fd, v % fd.p, v, u % fd.p, u);
  }

  lemma HalvesAre(fd: Field, a: Point, b: Point, A0: int, B0: int, C0: int, D0: int)
    requires A0 == (a.y - a.x) * (b.y - b.x) && B0 == (a.y + a.x) * (b.y + b.x)
    requires C0 == 2 * a.t * b.t * fd.d && D0 == 2 * a.z * b.z
    ensures B0 - A0 == 2 * HalfE(a, b) && B0 + A0 == 2 * HalfH(a, b)
    ensures D0 - C0 == 2 * HalfF(fd, a, b) && D0 + C0 == 2 * HalfG(fd, a, b)
  {
  }

  lemma AddIsProduct(fd: Field, a: Point, b: Point)
    ensures Product(fd, a, b, Add(fd, a, b))
  {
    var A0, B0 := (a.y - a.x) * (b.y - b.x), (a.y + a.x) * (b.y + b.x);
    var C0, D0 := 2 * a.t * b.t * fd.d, 2 * a.z * b.z;
    HalvesAre(fd, a, b, A0, B0, C0, D0);
    ProductOf(fd, A0 % fd.p, B0 % fd.p, C0 % fd.p, D0 % fd.p, A0, B0, C0, D0, a, b, Add(fd, a, b));
  }

  lemma ProductOf(fd: Field, A1: int, B1: int, C1: int, D1: int, A0: int, B0: int, C0: int, D0: int, a: Point, b: Point, r: Point)
    requires A1 == A0 % fd.p && B1 == B0 % fd.p && C1 == C0 % fd.p && D1 == D0 % fd.p
    requires B0 - A0 == 2 * HalfE(a, b) && B0 + A0 == 2 * HalfH(a, b)
    requires D0 - C0 == 2 * HalfF(fd, a, b) && D0 + C0 == 2 * HalfG(fd, a, b)
    requires r.x == (B1 - A1) * (D1 - C1) % fd.p && r.y == (D1 + C1) * (B1 + A1) % fd.p
    requires r.z == (D1 - C1) * (D1 + C1) % fd.p && r.t == (B1 - A1) * (B1 + A1) % fd.p
    ensures Product(fd, a, b, r)
  {
    var e, f, g, h := HalfE(a, b), HalfF(fd, a, b), HalfG(fd, a, b), HalfH(a, b);
    ReducedPair(fd, A0, B0, e, h);
    ReducedPair(fd, C0, D0, f, g);
    TimesTwice(fd, B1 - A1, D1 - C1, e, f);
    TimesTwice(fd, D1 + C1, B1 + A1, g, h);
    TimesTwice(fd, D1 - C1, D1 + C1, f, g);
    TimesTwice(fd, B1 - A1, B1 + A1, e, h);
  }

  // ---- the sum lies on the curve

  /** Integer identities behind the formula, for one pair of points. */
  lemma SumAndDifference(x1: int, y1: int, x2: int, y2: int, e: int, h: int)
    requires e == x1 * y2 + y1 * x2 && h == y1 * y2 + x1 * x2
    ensures h * h - e * e == (y1 * y1 - x1 * x1) * (y2 * y2 - x2 * x2)
    ensures h * h + e * e == (x1 * x1 + y1 * y1) * (x2 * x2 + y2 * y2) + 4 * ((x1 * y1) * (x2 * y2))
    ensures e * h == (x1 * y1) * (x2 * x2 + y2 * y2) + (x2 * y2) * (x1 * x1 + y1 * y1)
  {
  }

  lemma SquareOfSum(x: int, y: int)
    ensures var s, w, p := x * x + y * y, y * y - x * x, x * y; s * s == w * w + 4 * (p * p)
  {
  }

  lemma SquareOfPair(p1: int, p2: int, s1: int, s2: int)
    ensures var t := p1 * s2 + p2 * s1;
            t * t == (p1 * p1) * (s2 * s2) + (p2 * p2) * (s1 * s1) + 2 * ((p1 * p2) * (s1 * s2))
  {
  }

  lemma Conjugates(m: int, n: int, e: int, h: int)
    ensures var f, g, c := m - n, m + n, m * m + n * n;
            && (g * g) * (h * h) - (e * e) * (f * f) == c * (h * h - e * e) + 2 * (m * n) * (h * h + e * e)
            && (f * f) * (g * g) == c * c - 4 * ((m * n) * (m * n))
  {
    var f, g, c := m - n, m + n, m * m + n * n;
    assert g * g == c + 2 * (m * n) && f * f == c - 2 * (m * n);
  }

  /** The left side, with w the product of the two y^2 - x^2 and p that of the two x y. */
  function LeftForm(c: int, mn: int, w: int, p: int, s: int): int { c * w + 2 * mn * (s + 4 * p) }

  /** The right side likewise; `pi` and `wi` are squares, `p` a product. */
  function RightForm(fd: Field, c: int, mn: int, p1: int, p2: int, w1: int, w2: int, p: int, s: int): int {
    c * c - 4 * (mn * mn) + fd.d * (p1 * (w2 + 4 * p2) + p2 * (w1 + 4 * p1) + 2 * (p * s))
  }

  /** With the curve's own terms in place of x and y, both sides are the same polynomial. */
  lemma FormsAgree(fd: Field, z1: int, z2: int, t1: int, t2: int, s: int)
    ensures var m, n := z1 * z2, fd.d * (t1 * t2);
            var c, mn := m * m + n * n, m * n;
            var q1, q2, r1, r2 := z1 * t1, z2 * t2, z1 * z1 + fd.d * (t1 * t1), z2 * z2 + fd.d * (t2 * t2);
            LeftForm(c, mn, r1 * r2, q1 * q2, s) == RightForm(fd, c, mn, q1 * q1, q2 * q2, r1 * r1, r2 * r2, q1 * q2, s)
  {
    var a, b, x, y := z1 * z1, z2 * z2, fd.d * (t1 * t1), fd.d * (t2 * t2);
    var m, n, q1, q2 := z1 * z2, fd.d * (t1 * t2), z1 * t1, z2 * t2;
    CurveTerms(fd.d, z1, z2, t1, t2);
    Polynomial(a, b, x, y);
    FormsFrom(fd, m * m + n * n, m * n, a + x, b + y, q1 * q1, q2 * q2, q1 * q2, s, a * x, b * y);
  }

  lemma SquareOfTwo(a: int, b: int)
    ensures (a * b) * (a * b) == (a * a) * (b * b)
  {
  }

  lemma CurveTerms(d: int, z1: int, z2: int, t1: int, t2: int)
    ensures var a, b, x, y := z1 * z1, z2 * z2, d * (t1 * t1), d * (t2 * t2);
            var m, n, q1, q2 := z1 * z2, d * (t1 * t2), z1 * t1, z2 * t2;
            && m * m == a * b && n * n == x * y && m * n == d * (q1 * q2)
            && d * (q1 * q1) == a * x && d * (q2 * q2) == b * y && (q1 * q2) * (q1 * q2) == (q1 * q1) * (q2 * q2)
  {
    SquareOfTwo(z1, z2);
    SquareOfTwo(t1, t2);
    SquareOfPairs(d, t1 * t2, t1 * t1, t2 * t2);
    MixedProduct(d, z1, z2, t1, t2);
    SquareWith(d, z1, t1);
    SquareWith(d, z2, t2);
    SquareOfTwo(z1 * t1, z2 * t2);
  }

  lemma SquareOfPairs(d: int, w: int, u: int, v: int)
    requires w * w == u * v
    ensures (d * w) * (d * w) == (d * u) * (d * v)
  {
    SquareOfTwo(d, w);
    assert (d * u) * (d * v) == (d * d) * (u * v);
  }

  lemma MixedProduct(d: int, z1: int, z2: int, t1: int, t2: int)
    ensures (z1 * z2) * (d * (t1 * t2)) == d * ((z1 * t1) * (z2 * t2))
  {
    assert (z1 * z2) * (t1 * t2) == (z1 * t1) * (z2 * t2);
    assert (z1 * z2) * (d * (t1 * t2)) == d * ((z1 * z2) * (t1 * t2));
  }

  lemma SquareWith(d: int, z: int, t: int)
    ensures d * ((z * t) * (z * t)) == (z * z) * (d * (t * t))
  {
    SquareOfTwo(z, t);
    assert d * ((z * z) * (t * t)) == (z * z) * (d * (t * t));
  }

  lemma Spread(d: int, p1: int, p2: int, w1: int, w2: int, p: int, s: int)
    ensures d * (p1 * (w2 + 4 * p2) + p2 * (w1 + 4 * p1) + 2 * (p * s))
         == (d * p1) * w2 + (d * p2) * w1 + 8 * (d * (p1 * p2)) + 2 * (d * (p * s))
  {
    assert p1 * (w2 + 4 * p2) == p1 * w2 + 4 * (p1 * p2);
    assert p2 * (w1 + 4 * p1) == p2 * w1 + 4 * (p1 * p2);
    assert d * (p1 * w2 + p2 * w1 + 8 * (p1 * p2) + 2 * (p * s)) == d * (p1 * w2) + d * (p2 * w1) + 8 * (d * (p1 * p2)) + 2 * (d * (p * s));
    assert d * (p1 * w2) == (d * p1) * w2 && d * (p2 * w1) == (d * p2) * w1;
  }

  lemma FormsFrom(fd: Field, c: int, mn: int, r1: int, r2: int, p1: int, p2: int, p: int, s: int, e1: int, e2: int)
    requires mn == fd.d * p && p * p == p1 * p2 && e1 == fd.d * p1 && e2 == fd.d * p2
    requires c * (r1 * r2) == c * c - 4 * (e1 * e2) + e1 * (r2 * r2) + e2 * (r1 * r1)
    ensures LeftForm(c, mn, r1 * r2, p, s) == RightForm(fd, c, mn, p1, p2, r1 * r1, r2 * r2, p, s)
  {
    Spread(fd.d, p1, p2, r1 * r1, r2 * r2, p, s);
    assert mn * (s + 4 * p) == fd.d * (p * s) + 4 * (fd.d * (p * p));
    assert mn * mn == (fd.d * fd.d) * (p * p) && e1 * e2 == (fd.d * fd.d) * (p1 * p2);
  }

  lemma Polynomial(a: int, b: int, x: int, y: int)
    ensures var c, r1, r2 := a * b + x * y, a + x, b + y;
            c * (r1 * r2) == c * c - 4 * ((a * x) * (b * y)) + (a * x) * (r2 * r2) + (b * y) * (r1 * r1)
  {
  }

  lemma LeftFormEq(fd: Field, c: int, mn: int, w: int, w': int, p: int, p': int, s: int)
    requires Eq(fd, w, w') && Eq(fd, p, p')
    ensures Eq(fd, LeftForm(c, mn, w, p, s), LeftForm(c, mn, w', p', s))
  {
    Scaled(fd, w, w', c);
    Scaled(fd, p, p', 4);
    Same(fd, s, s);
    Plus(fd, s, s, 4 * p, 4 * p');
    Scaled(fd, s + 4 * p, s + 4 * p', 2 * mn);
    Plus(fd, c * w, c * w', 2 * mn * (s + 4 * p), 2 * mn * (s + 4 * p'));
  }

  lemma RightHalfEq(fd: Field, p1: int, p1': int, p2: int, p2': int, w2: int, w2': int)
    requires Eq(fd, p1, p1') && Eq(fd, p2, p2') && Eq(fd, w2, w2')
    ensures Eq(fd, p1 * (w2 + 4 * p2), p1' * (w2' + 4 * p2'))
  {
    Scaled(fd, p2, p2', 4);
    Plus(fd, w2, w2', 4 * p2, 4 * p2');
    Times(fd, p1, p1', w2 + 4 * p2, w2' + 4 * p2');
  }

  lemma RightFormEq(fd: Field, c: int, mn: int, p1: int, p1': int, p2: int, p2': int, w1: int, w1': int, w2: int, w2': int,
                    p: int, p': int, s: int)
    requires Eq(fd, p1, p1') && Eq(fd, p2, p2') && Eq(fd, w1, w1') && Eq(fd, w2, w2') && Eq(fd, p, p')
    ensures Eq(fd, RightForm(fd, c, mn, p1, p2, w1, w2, p, s), RightForm(fd, c, mn, p1', p2', w1', w2', p', s))
  {
    var a, a' := p1 * (w2 + 4 * p2), p1' * (w2' + 4 * p2');
    var b, b' := p2 * (w1 + 4 * p1), p2' * (w1' + 4 * p1');
    RightHalfEq(fd, p1, p1', p2, p2', w2, w2');
    RightHalfEq(fd, p2, p2', p1, p1', w1, w1');
    Plus(fd, a, a', b, b');
    Same(fd, s, s);
    Times(fd, p, p', s, s);
    Scaled(fd, p * s, p' * s, 2);
    Plus(fd, a + b, a' + b', 2 * (p * s), 2 * (p' * s));
    Scaled(fd, a + b + 2 * (p * s), a' + b' + 2 * (p' * s), fd.d);
    Same(fd, c * c - 4 * (mn * mn), c * c - 4 * (mn * mn));
    Plus(fd, c * c - 4 * (mn * mn), c * c - 4 * (mn * mn), fd.d * (a + b + 2 * (p * s)), fd.d * (a' + b' + 2 * (p' * s)));
  }

  /** The curve's equation for the halves. */
  lemma HalvesOnCurve(fd: Field, a: Point, b: Point)
    requires Satisfies(fd, a) && Satisfies(fd, b)
    ensures var e, f, g, h := HalfE(a, b), HalfF(fd, a, b), HalfG(fd, a, b), HalfH(a, b);
            Eq(fd, (g * g) * (h * h) - (e * e) * (f * f), (f * f) * (g * g) + fd.d * ((e * e) * (h * h)))
  {
    var e, f, g, h := HalfE(a, b), HalfF(fd, a, b), HalfG(fd, a, b), HalfH(a, b);
    var m, n := a.z * b.z, fd.d * (a.t * b.t);
    var c, mn := m * m + n * n, m * n;
    var p1, p2, q1, q2 := a.x * a.y, b.x * b.y, a.z * a.t, b.z * b.t;
    var w1, w2 := a.y * a.y - a.x * a.x, b.y * b.y - b.x * b.x;
    var r1, r2 := a.z * a.z + fd.d * (a.t * a.t), b.z * b.z + fd.d * (b.t * b.t);
    var s1, s2 := a.x * a.x + a.y * a.y, b.x * b.x + b.y * b.y;
    SumAndDifference(a.x, a.y, b.x, b.y, e, h);
    Conjugates(m, n, e, h);
    SquareOfSum(a.x, a.y);
    SquareOfSum(b.x, b.y);
    SquareOfPair(p1, p2, s1, s2);
    LeftIs(c, mn, e, h, w1 * w2, p1 * p2, s1 * s2);
    RightIs(fd, c, mn, e, h, p1, p2, s1, s2, w1, w2);
    Times(fd, w1, r1, w2, r2);
    Times(fd, p1, q1, p2, q2);
    Times(fd, p1, q1, p1, q1);
    Times(fd, p2, q2, p2, q2);
    Times(fd, w1, r1, w1, r1);
    Times(fd, w2, r2, w2, r2);
    LeftFormEq(fd, c, mn, w1 * w2, r1 * r2, p1 * p2, q1 * q2, s1 * s2);
    RightFormEq(fd, c, mn, p1 * p1, q1 * q1, p2 * p2, q2 * q2, w1 * w1, r1 * r1, w2 * w2, r2 * r2, p1 * p2, q1 * q2, s1 * s2);
    FormsAgree(fd, a.z, b.z, a.t, b.t, s1 * s2);
    var left, right := LeftForm(c, mn, w1 * w2, p1 * p2, s1 * s2),
                       RightForm(fd, c, mn, p1 * p1, p2 * p2, w1 * w1, w2 * w2, p1 * p2, s1 * s2);
    var middle := LeftForm(c, mn, r1 * r2, q1 * q2, s1 * s2);
    Sym(fd, right, middle);
    Trans(fd, left, middle, right);
  }

  lemma LeftIs(c: int, mn: int, e: int, h: int, w: int, p: int, s: int)
    requires h * h - e * e == w && h * h + e * e == s + 4 * p
    ensures c * (h * h - e * e) + 2 * mn * (h * h + e * e) == LeftForm(c, mn, w, p, s)
  {
  }

  lemma RightIs(fd: Field, c: int, mn: int, e: int, h: int, p1: int, p2: int, s1: int, s2: int, w1: int, w2: int)
    requires e * h == p1 * s2 + p2 * s1 && s1 * s1 == w1 * w1 + 4 * (p1 * p1) && s2 * s2 == w2 * w2 + 4 * (p2 * p2)
    ensures c * c - 4 * (mn * mn) + fd.d * ((e * e) * (h * h))
         == RightForm(fd, c, mn, p1 * p1, p2 * p2, w1 * w1, w2 * w2, p1 * p2, s1 * s2)
  {
    SquareOfPair(p1, p2, s1, s2);
    assert (e * e) * (h * h) == (e * h) * (e * h);
  }

  lemma Square16(fd: Field, u: int, v: int, u0: int, v0: int)
    requires Eq(fd, u, 4 * u0) && Eq(fd, v, 4 * v0)
    ensures Eq(fd, u * v, 16 * (u0 * v0))
  {
    Times(fd, u, 4 * u0, v, 4 * v0);
    assert 4 * u0 * (4 * v0) == 16 * (u0 * v0);
  }

  lemma ProductSatisfies(fd: Field, a: Point, b: Point, r: Point)
    requires Satisfies(fd, a) && Satisfies(fd, b) && Product(fd, a, b, r)
    ensures Satisfies(fd, r)
  {
    var e, f, g, h := HalfE(a, b), HalfF(fd, a, b), HalfG(fd, a, b), HalfH(a, b);
    HalvesOnCurve(fd, a, b);
    ProductsCross(fd, r, e, f, g, h);
    ProductsOnCurve(fd, r, e, f, g, h);
  }

  lemma Crossed(e: int, f: int, g: int, h: int)
    ensures (e * f) * (g * h) == (f * g) * (e * h)
  {
  }

  lemma ProductsCross(fd: Field, r: Point, e: int, f: int, g: int, h: int)
    requires Eq(fd, r.x, 4 * (e * f)) && Eq(fd, r.y, 4 * (g * h)) && Eq(fd, r.z, 4 * (f * g)) && Eq(fd, r.t, 4 * (e * h))
    ensures Eq(fd, r.x * r.y, r.z * r.t)
  {
    Square16(fd, r.x, r.y, e * f, g * h);
    Square16(fd, r.z, r.t, f * g, e * h);
    Crossed(e, f, g, h);
    Sym(fd, r.z * r.t, 16 * ((f * g) * (e * h)));
    Trans(fd, r.x * r.y, 16 * ((e * f) * (g * h)), r.z * r.t);
  }

  lemma ProductsOnCurve(fd: Field, r: Point, e: int, f: int, g: int, h: int)
    requires Eq(fd, r.x, 4 * (e * f)) && Eq(fd, r.y, 4 * (g * h)) && Eq(fd, r.z, 4 * (f * g)) && Eq(fd, r.t, 4 * (e * h))
    requires Eq(fd, (g * g) * (h * h) - (e * e) * (f * f), (f * f) * (g * g) + fd.d * ((e * e) * (h * h)))
    ensures Eq(fd, r.y * r.y - r.x * r.x, r.z * r.z + fd.d * (r.t * r.t))
  {
    Square16(fd, r.x, r.x, e * f, e * f);
    Square16(fd, r.y, r.y, g * h, g * h);
    Square16(fd, r.z, r.z, f * g, f * g);
    Square16(fd, r.t, r.t, e * h, e * h);
    CurveScaled(fd, r, e, f, g, h, (g * g) * (h * h) - (e * e) * (f * f), (f * f) * (g * g) + fd.d * ((e * e) * (h * h)));
  }

  lemma CurveScaled(fd: Field, r: Point, e: int, f: int, g: int, h: int, left: int, right: int)
    requires Eq(fd, r.x * r.x, 16 * ((e * f) * (e * f))) && Eq(fd, r.y * r.y, 16 * ((g * h) * (g * h)))
    requires Eq(fd, r.z * r.z, 16 * ((f * g) * (f * g))) && Eq(fd, r.t * r.t, 16 * ((e * h) * (e * h)))
    requires left == (g * g) * (h * h) - (e * e) * (f * f) && right == (f * f) * (g * g) + fd.d * ((e * e) * (h * h))
    requires Eq(fd, left, right)
    ensures Eq(fd, r.y * r.y - r.x * r.x, r.z * r.z + fd.d * (r.t * r.t))
  {
    SquareOfTwo(e, f);
    SquareOfTwo(g, h);
    SquareOfTwo(f, g);
    SquareOfTwo(e, h);
    CurveSixteen(fd, r.x * r.x, r.y * r.y, r.z * r.z, r.t * r.t, (e * f) * (e * f), (g * h) * (g * h), (f * g) * (f * g), (e * h) * (e * h), left, right);
  }

  lemma CurveSixteen(fd: Field, x2: int, y2: int, z2: int, t2: int, ef: int, gh: int, fg: int, eh: int, left: int, right: int)
    requires Eq(fd, x2, 16 * ef) && Eq(fd, y2, 16 * gh) && Eq(fd, z2, 16 * fg) && Eq(fd, t2, 16 * eh)
    requires left == gh - ef && right == fg + fd.d * eh && Eq(fd, left, right)
    ensures Eq(fd, y2 - x2, z2 + fd.d * t2)
  {
    Plus(fd, y2, 16 * gh, x2, 16 * ef);
    Scaled(fd, t2, 16 * eh, fd.d);
    Plus(fd, z2, 16 * fg, fd.d * t2, fd.d * (16 * eh));
    Scaled(fd, left, right, 16);
    assert 16 * fg + fd.d * (16 * eh) == 16 * right;
    Trans(fd, y2 - x2, 16 * left, 16 * right);
    Sym(fd, z2 + fd.d * t2, 16 * right);
    Trans(fd, y2 - x2, 16 * right, z2 + fd.d * t2);
  }

  // ---- no exceptional cases

  function Prod(a: int, b: int): int { a * b }

  ghost predicate DSquare(fd: Field, a: int, b: int) { Eq(fd, fd.d * (a * a), b * b) }

  /** P is prime as far as it matters here: no zero divisors; D is not a square; and -1 is one. */
  ghost predicate FieldFacts(fd: Field) {
    && (forall a, b :: Eq(fd, Prod(a, b), 0) ==> Eq(fd, a, 0) || Eq(fd, b, 0))
    && (forall a, b :: DSquare(fd, a, b) ==> Eq(fd, a, 0))
    && Root(fd)
  }

  /** Of Ed25519's numbers only two facts are taken as given: P has no zero divisors and D is not a square. */
  lemma StandardFacts(fd: Field)
    requires fd == ED25519
    requires forall a, b :: Eq(fd, Prod(a, b), 0) ==> Eq(fd, a, 0) || Eq(fd, b, 0)
    requires forall a, b :: DSquare(fd, a, b) ==> Eq(fd, a, 0)
    ensures FieldFacts(fd)
  {
    Constants(fd);
  }

  lemma Cancel(fd: Field, a: int, b: int)
    requires FieldFacts(fd) && Eq(fd, a * b, 0)
    ensures Eq(fd, a, 0) || Eq(fd, b, 0)
  {
    assert Eq(fd, Prod(a, b), 0);
  }

  lemma SmallIsUnit(fd: Field, n: int)
    requires 0 < n <= 4
    ensures !Eq(fd, n, 0)
  {
    forall k
      ensures !Multiple(fd, n, 0, k)
    {
      MulBound(k, fd.p);
    }
  }

  lemma SmallUnits(fd: Field)
    requires Root(fd)
    ensures !Eq(fd, 2, 0) && !Eq(fd, 4, 0) && !Eq(fd, 1, 0) && !Eq(fd, fd.i, 0)
  {
    SmallIsUnit(fd, 1);
    SmallIsUnit(fd, 2);
    SmallIsUnit(fd, 4);
    if Eq(fd, fd.i, 0) {
      Times(fd, fd.i, 0, fd.i, 0);
      Same(fd, 0, 0);
      Plus(fd, 0, 0, fd.i * fd.i, 0);
      Same(fd, 0, 0);
      Plus(fd, 0, 0, fd.i * fd.i, -1);
      Sym(fd, 0 - fd.i * fd.i, 0);
      Trans(fd, 0, 0 - fd.i * fd.i, 1);
      Sym(fd, 0, 1);
    }
  }

  /** (i x + k y)^2 for k = 1 or -1 and i a square root of -1. */
  lemma RotatedSquare(fd: Field, x: int, y: int, k: int, p: int, w: int)
    requires Root(fd) && k * k == 1 && Eq(fd, x * y, p) && Eq(fd, y * y - x * x, w)
    ensures var u := fd.i * x + k * y; Eq(fd, u * u, w + 2 * k * fd.i * p)
  {
    var i := fd.i;
    SquareRotated(i, x, k, y);
    Same(fd, x * x, x * x);
    Times(fd, i * i, -1, x * x, x * x);
    Same(fd, y * y, y * y);
    Plus(fd, y * y, y * y, (i * i) * (x * x), -1 * (x * x));
    RotatedSum(fd, (i * i) * (x * x), y * y, x * x, w, x * y, p, 2 * k * i);
  }

  lemma SquareRotated(i: int, x: int, k: int, y: int)
    requires k * k == 1
    ensures var u := i * x + k * y; u * u == y * y + (i * i) * (x * x) + 2 * k * i * (x * y)
  {
    SquareOfTwo(k, y);
    SquareOfTwo(i, x);
    assert (i * x) * (k * y) == k * i * (x * y);
  }

  lemma RotatedSum(fd: Field, ix: int, y2: int, x2: int, w: int, xy: int, p: int, c: int)
    requires Eq(fd, y2 + ix, y2 + -1 * x2) && Eq(fd, y2 - x2, w) && Eq(fd, xy, p)
    ensures Eq(fd, y2 + ix + c * xy, w + c * p)
  {
    Trans(fd, y2 + ix, y2 - x2, w);
    Scaled(fd, xy, p, c);
    Plus(fd, y2 + ix, w, c * xy, c * p);
  }

  /** If D t1 t2 is z1 z2 or its negative, D is a square times a square: the step of the completeness proof. */
  lemma OppositeSquares(fd: Field, a: Point, b: Point, eps: int, k: int)
    requires Root(fd) && Satisfies(fd, a) && Satisfies(fd, b) && eps * eps == 1 && k * k == 1
    requires Eq(fd, fd.d * (a.t * b.t), eps * (a.z * b.z))
    ensures DSquare(fd, a.t * (fd.i * b.x + k * b.y), b.z * (fd.i * a.x + k * eps * a.y))
  {
    var i, u, v := fd.i, fd.i * b.x + k * b.y, fd.i * a.x + k * eps * a.y;
    var w1, w2 := a.y * a.y - a.x * a.x, b.y * b.y - b.x * b.x;
    var q1, q2 := a.z * a.t, b.z * b.t;
    Same(fd, w2, w2);
    RotatedSquare(fd, b.x, b.y, k, q2, w2);
    Same(fd, w1, w1);
    assert (k * eps) * (k * eps) == (k * k) * (eps * eps) == 1;
    RotatedSquare(fd, a.x, a.y, k * eps, q1, w1);
    CrossTerms(fd, a, b, eps, w1, w2);
    // D (t1 u)^2 = D t1^2 w2 + 2 k i D t1^2 z2 t2, and (z2 v)^2 = z2^2 w1 + 2 k eps i z2^2 z1 t1
    Combine(fd, fd.d * (a.t * a.t), b.z * b.z, u * u, v * v, w1, w2, q1, q2, k, eps, i);
    DSquareFrom(fd, a.t, u, b.z, v);
  }

  lemma DSquareFrom(fd: Field, t: int, u: int, z: int, v: int)
    requires Eq(fd, fd.d * (t * t) * (u * u), z * z * (v * v))
    ensures DSquare(fd, t * u, z * v)
  {
    SquareOfTwo(t, u);
    SquareOfTwo(z, v);
    assert fd.d * ((t * t) * (u * u)) == fd.d * (t * t) * (u * u);
  }

  lemma Combine(fd: Field, c: int, e: int, u2: int, v2: int, w1: int, w2: int, q1: int, q2: int, k: int, eps: int, i: int)
    requires Eq(fd, u2, w2 + 2 * k * i * q2) && Eq(fd, v2, w1 + 2 * (k * eps) * i * q1)
    requires Eq(fd, c * w2, e * w1) && Eq(fd, c * q2, eps * e * q1)
    ensures Eq(fd, c * u2, e * v2)
  {
    var left, right := w2 + 2 * k * i * q2, w1 + 2 * (k * eps) * i * q1;
    Scaled(fd, u2, left, c);
    Scaled(fd, v2, right, e);
    Scaled(fd, c * q2, eps * e * q1, 2 * k * i);
    Plus(fd, c * w2, e * w1, 2 * k * i * (c * q2), 2 * k * i * (eps * e * q1));
    Regroup(c, e, w1, w2, q1, q2, k, eps, i);
    Trans(fd, c * u2, c * left, e * right);
    Sym(fd, e * v2, e * right);
    Trans(fd, c * u2, e * right, e * v2);
  }

  lemma Regroup(c: int, d: int, w1: int, w2: int, q1: int, q2: int, k: int, eps: int, i: int)
    ensures c * (w2 + 2 * k * i * q2) == c * w2 + 2 * k * i * (c * q2)
    ensures d * (w1 + 2 * (k * eps) * i * q1) == d * w1 + 2 * k * i * (eps * d * q1)
  {
  }

  /** D t1^2 w2 = z2^2 w1 and D t1^2 z2 t2 = eps z2^2 z1 t1. */
  lemma CrossTerms(fd: Field, a: Point, b: Point, eps: int, w1: int, w2: int)
    requires Satisfies(fd, a) && Satisfies(fd, b) && eps * eps == 1 && Eq(fd, fd.d * (a.t * b.t), eps * (a.z * b.z))
    requires w1 == a.y * a.y - a.x * a.x && w2 == b.y * b.y - b.x * b.x
    ensures Eq(fd, fd.d * (a.t * a.t) * w2, b.z * b.z * w1)
    ensures Eq(fd, fd.d * (a.t * a.t) * (b.z * b.t), eps * (b.z * b.z) * (a.z * a.t))
  {
    var n, m := fd.d * (a.t * b.t), a.z * b.z;
    var c, d := fd.d * (a.t * a.t), b.z * b.z;
    var r1, r2 := a.z * a.z + fd.d * (a.t * a.t), b.z * b.z + fd.d * (b.t * b.t);
    CrossProducts(fd, a.t, b.t, a.z, b.z, eps);
    Scaled(fd, n, eps * m, a.t * b.z);
    Times(fd, n, eps * m, n, eps * m);
    SquareOfTwo(eps, m);
    Scaled(fd, w2, r2, c);
    Same(fd, c * d, c * d);
    Plus(fd, c * d, c * d, n * n, m * m);
    Scaled(fd, w1, r1, d);
    Sym(fd, d * w1, d * r1);
    Trans(fd, c * w2, c * r2, d * r1);
    Trans(fd, c * w2, d * r1, d * w1);
  }

  lemma CrossProducts(fd: Field, t1: int, t2: int, z1: int, z2: int, eps: int)
    ensures t1 * z2 * (fd.d * (t1 * t2)) == fd.d * (t1 * t1) * (z2 * t2)
    ensures t1 * z2 * (eps * (z1 * z2)) == eps * (z2 * z2) * (z1 * t1)
    ensures fd.d * (t1 * t1) * (z2 * z2 + fd.d * (t2 * t2)) == fd.d * (t1 * t1) * (z2 * z2) + fd.d * (t1 * t2) * (fd.d * (t1 * t2))
    ensures fd.d * (t1 * t1) * (z2 * z2) + (z1 * z2) * (z1 * z2) == z2 * z2 * (z1 * z1 + fd.d * (t1 * t1))
  {
    assert (t1 * t1) * (t2 * t2) == (t1 * t2) * (t1 * t2);
    assert (z1 * z1) * (z2 * z2) == (z1 * z2) * (z1 * z2);
  }

  /** Such a pair of points cannot both have a denominator. */
  lemma OppositeIsInfinite(fd: Field, a: Point, b: Point, eps: int)
    requires FieldFacts(fd) && Satisfies(fd, a) && Satisfies(fd, b) && eps * eps == 1
    requires Eq(fd, fd.d * (a.t * b.t), eps * (a.z * b.z))
    ensures Eq(fd, a.z, 0) || Eq(fd, b.z, 0)
  {
    var i := fd.i;
    OppositeSquares(fd, a, b, eps, 1);
    OppositeSquares(fd, a, b, eps, -1);
    var u, v := i * b.x + 1 * b.y, i * b.x + -1 * b.y;
    assert Eq(fd, a.t * u, 0) && Eq(fd, a.t * v, 0);
    Cancel(fd, a.t, u);
    Cancel(fd, a.t, v);
    if Eq(fd, a.t, 0) {
      NoNumerator(fd, a, b, eps);
    } else {
      BothZero(fd, b, u, v);
    }
  }

  lemma NoNumerator(fd: Field, a: Point, b: Point, eps: int)
    requires FieldFacts(fd) && eps * eps == 1 && Eq(fd, fd.d * (a.t * b.t), eps * (a.z * b.z)) && Eq(fd, a.t, 0)
    ensures Eq(fd, a.z, 0) || Eq(fd, b.z, 0)
  {
    Scaled(fd, a.t, 0, fd.d * b.t);
    assert fd.d * b.t * a.t == fd.d * (a.t * b.t);
    Sym(fd, fd.d * (a.t * b.t), eps * (a.z * b.z));
    Trans(fd, eps * (a.z * b.z), fd.d * (a.t * b.t), 0);
    Scaled(fd, eps * (a.z * b.z), 0, eps);
    assert eps * (eps * (a.z * b.z)) == a.z * b.z;
    Cancel(fd, a.z, b.z);
  }

  lemma BothZero(fd: Field, b: Point, u: int, v: int)
    requires FieldFacts(fd) && Satisfies(fd, b) && u == fd.i * b.x + b.y && v == fd.i * b.x - b.y && Eq(fd, u, 0) && Eq(fd, v, 0)
    ensures Eq(fd, b.z, 0)
  {
    SmallUnits(fd);
    Plus(fd, u, 0, v, 0);
    assert u + v == 2 * (fd.i * b.x) && u - v == 2 * b.y;
    Cancel(fd, 2, fd.i * b.x);
    Cancel(fd, fd.i, b.x);
    Cancel(fd, 2, b.y);
    Scaled(fd, b.x, 0, b.y);
    assert b.y * b.x == b.x * b.y;
    Sym(fd, b.x * b.y, b.z * b.t);
    Trans(fd, b.z * b.t, b.x * b.y, 0);
    Cancel(fd, b.z, b.t);
    Times(fd, b.x, 0, b.x, 0);
    Times(fd, b.y, 0, b.y, 0);
    Plus(fd, b.y * b.y, 0, b.x * b.x, 0);
    if Eq(fd, b.t, 0) {
      Times(fd, b.t, 0, b.t, 0);
      Scaled(fd, b.t * b.t, 0, fd.d);
      var r, w := b.z * b.z + fd.d * (b.t * b.t), b.y * b.y - b.x * b.x;
      Sym(fd, w, r);
      Trans(fd, r, w, 0);
      Plus(fd, r, 0, fd.d * (b.t * b.t), 0);
      assert r - fd.d * (b.t * b.t) == b.z * b.z;
      Cancel(fd, b.z, b.z);
    }
  }

  /** `_add` has no exceptional case: the denominators of a sum of two points of the curve are invertible. */
  lemma Complete(fd: Field, a: Point, b: Point)
    requires FieldFacts(fd) && OnCurve(fd, a) && OnCurve(fd, b)
    ensures !Eq(fd, HalfF(fd, a, b), 0) && !Eq(fd, HalfG(fd, a, b), 0)
  {
    var m, n := a.z * b.z, fd.d * (a.t * b.t);
    Same(fd, m, m);
    Same(fd, n, n);
    if Eq(fd, HalfF(fd, a, b), 0) {
      Plus(fd, m, m, m - n, 0);
      OppositeIsInfinite(fd, a, b, 1);
    }
    if Eq(fd, HalfG(fd, a, b), 0) {
      Plus(fd, m + n, 0, m, m);
      OppositeIsInfinite(fd, a, b, -1);
    }
  }

  /** Closure: `_add` maps points of the curve to points of the curve. */
  lemma AddOnCurve(fd: Field, a: Point, b: Point)
    requires FieldFacts(fd) && OnCurve(fd, a) && OnCurve(fd, b)
    ensures OnCurve(fd, Add(fd, a, b))
  {
    var r, f, g := Add(fd, a, b), HalfF(fd, a, b), HalfG(fd, a, b);
    AddIsProduct(fd, a, b);
    ProductSatisfies(fd, a, b, r);
    Complete(fd, a, b);
    SmallUnits(fd);
    if Eq(fd, r.z, 0) {
      Sym(fd, r.z, 4 * (f * g));
      Trans(fd, 4 * (f * g), r.z, 0);
      Cancel(fd, 4, f * g);
      Cancel(fd, f, g);
    }
  }
}
