/** `_mul` is the s-fold sum (tools/usign-verify.py:34-45, 80-92), given that addition on the curve is associative. */
module Ed25519Group {
  import opened Ed25519
  import opened DoubleAndAdd

  // ---- `_equal` is an equivalence, and addition respects it

  /** c u = c v with c not 0: u = v. */
  lemma CancelEq(fd: Field, c: int, u: int, v: int)
    requires FieldFacts(fd) && !Eq(fd, c, 0) && Eq(fd, c * u, c * v)
    ensures Eq(fd, u, v)
  {
    Same(fd, c * v, c * v);
    Plus(fd, c * u, c * v, c * v, c * v);
    assert c * u - c * v == c * (u - v);
    Cancel(fd, c, u - v);
    Same(fd, v, v);
    Plus(fd, u - v, 0, v, v);
  }

  lemma EqualSym(fd: Field, a: Point, b: Point)
    requires Equal(fd, a, b)
    ensures Equal(fd, b, a)
  {
    Sym(fd, a.x * b.z, b.x * a.z);
    Sym(fd, a.y * b.z, b.y * a.z);
  }

  lemma Linked(fd: Field, x: int, z: int, x2: int, z2: int, x3: int, z3: int)
    requires FieldFacts(fd) && !Eq(fd, z2, 0) && Eq(fd, x * z2, x2 * z) && Eq(fd, x2 * z3, x3 * z2)
    ensures Eq(fd, x * z3, x3 * z)
  {
    Scaled(fd, x * z2, x2 * z, z3);
    Scaled(fd, x2 * z3, x3 * z2, z);
    assert z3 * (x * z2) == z2 * (x * z3) && z3 * (x2 * z) == z * (x2 * z3) && z * (x3 * z2) == z2 * (x3 * z);
    Trans(fd, z2 * (x * z3), z * (x2 * z3), z2 * (x3 * z));
    CancelEq(fd, z2, x * z3, x3 * z);
  }

  lemma EqualTrans(fd: Field, a: Point, b: Point, c: Point)
    requires FieldFacts(fd) && OnCurve(fd, b) && Equal(fd, a, b) && Equal(fd, b, c)
    ensures Equal(fd, a, c)
  {
    Linked(fd, a.x, a.z, b.x, b.z, c.x, c.z);
    Linked(fd, a.y, a.z, b.y, b.z, c.y, c.z);
  }

  lemma Regroup(x: int, y: int, w: int)
    ensures (x * w) * (y * w) == w * w * (x * y) && w * w * (x * y) == w * (x * (y * w))
  {
  }

  lemma Swap(u: int, v: int, y: int)
    ensures u * (v * y) == v * (u * y)
  {
  }

  lemma ScaledT(fd: Field, x: int, y: int, z: int, t: int, w: int)
    requires Eq(fd, x * y, z * t)
    ensures Eq(fd, (x * w) * (y * w), w * (z * (t * w)))
  {
    Scaled(fd, x * y, z * t, w * w);
    Regroup(x, y, w);
    Regroup(z, t, w);
  }

  /** Equal points have proportional t as well. */
  lemma EqualT(fd: Field, a: Point, b: Point)
    requires FieldFacts(fd) && OnCurve(fd, a) && OnCurve(fd, b) && Equal(fd, a, b)
    ensures Eq(fd, a.t * b.z, b.t * a.z)
  {
    Times(fd, a.x * b.z, b.x * a.z, a.y * b.z, b.y * a.z);
    ScaledT(fd, a.x, a.y, a.z, a.t, b.z);
    ScaledT(fd, b.x, b.y, b.z, b.t, a.z);
    ProportionT(fd, a.z, b.z, a.t * b.z, b.t * a.z, (a.x * b.z) * (a.y * b.z), (b.x * a.z) * (b.y * a.z));
  }

  lemma ProportionT(fd: Field, z: int, w: int, u: int, v: int, p: int, q: int)
    requires FieldFacts(fd) && !Eq(fd, z, 0) && !Eq(fd, w, 0) && Eq(fd, p, q) && Eq(fd, p, w * (z * u)) && Eq(fd, q, z * (w * v))
    ensures Eq(fd, u, v)
  {
    Sym(fd, p, w * (z * u));
    Trans(fd, w * (z * u), p, q);
    Trans(fd, w * (z * u), q, z * (w * v));
    Swap(z, w, v);
    CancelEq(fd, w, z * u, z * v);
    CancelEq(fd, z, u, v);
  }

  /** l (u1 v1 + s u2 v2) and m (w1 v1 + s w2 v2), when l ui = m wi. */
  lemma HalfScales(fd: Field, l: int, m: int, u1: int, u2: int, w1: int, w2: int, v1: int, v2: int, s: int)
    requires Eq(fd, u1 * l, w1 * m) && Eq(fd, u2 * l, w2 * m)
    ensures Eq(fd, l * (u1 * v1 + s * (u2 * v2)), m * (w1 * v1 + s * (w2 * v2)))
  {
    Scaled(fd, u1 * l, w1 * m, v1);
    Scaled(fd, u2 * l, w2 * m, s * v2);
    Plus(fd, v1 * (u1 * l), v1 * (w1 * m), s * v2 * (u2 * l), s * v2 * (w2 * m));
    assert v1 * (u1 * l) + s * v2 * (u2 * l) == l * (u1 * v1 + s * (u2 * v2));
    assert v1 * (w1 * m) + s * v2 * (w2 * m) == m * (w1 * v1 + s * (w2 * v2));
  }

  /** The four halves scale alike. */
  lemma HalvesScale(fd: Field, a: Point, a': Point, b: Point)
    requires FieldFacts(fd) && OnCurve(fd, a) && OnCurve(fd, a') && Equal(fd, a, a')
    ensures Eq(fd, a'.z * HalfE(a, b), a.z * HalfE(a', b)) && Eq(fd, a'.z * HalfH(a, b), a.z * HalfH(a', b))
    ensures Eq(fd, a'.z * HalfF(fd, a, b), a.z * HalfF(fd, a', b)) && Eq(fd, a'.z * HalfG(fd, a, b), a.z * HalfG(fd, a', b))
  {
    EqualT(fd, a, a');
    Same(fd, a.z * a'.z, a'.z * a.z);
    HalfScales(fd, a'.z, a.z, a.x, a.y, a'.x, a'.y, b.y, b.x, 1);
    HalfScales(fd, a'.z, a.z, a.y, a.x, a'.y, a'.x, b.y, b.x, 1);
    DenominatorsScale(fd, a.z, a'.z, a.t, a'.t, b.z, b.t);
  }

  lemma DenominatorsScale(fd: Field, z: int, z': int, t: int, t': int, w: int, s: int)
    requires Eq(fd, z * z', z' * z) && Eq(fd, t * z', t' * z)
    ensures Eq(fd, z' * (z * w - fd.d * (t * s)), z * (z' * w - fd.d * (t' * s)))
    ensures Eq(fd, z' * (z * w + fd.d * (t * s)), z * (z' * w + fd.d * (t' * s)))
  {
    HalfScales(fd, z', z, z, t, z', t', w, s, -fd.d);
    HalfScales(fd, z', z, z, t, z', t', w, s, fd.d);
    assert -fd.d * (t * s) == -(fd.d * (t * s)) && -fd.d * (t' * s) == -(fd.d * (t' * s));
  }

  lemma CrossEq(fd: Field, l: int, m: int, e: int, e': int, g: int, g': int)
    requires FieldFacts(fd) && !Eq(fd, l, 0) && !Eq(fd, m, 0) && Eq(fd, l * e, m * e') && Eq(fd, l * g, m * g')
    ensures Eq(fd, e * g', e' * g)
  {
    Sym(fd, l * g, m * g');
    Times(fd, l * e, m * e', m * g', l * g);
    assert (l * e) * (m * g') == l * (m * (e * g')) && (m * e') * (l * g) == l * (m * (e' * g));
    CancelEq(fd, l, m * (e * g'), m * (e' * g));
    CancelEq(fd, m, e * g', e' * g);
  }

  lemma Shuffle(u: int, v: int, v': int, w: int)
    ensures 16 * ((u * v) * (v' * w)) == 16 * (v * v') * (u * w)
  {
    assert (u * v) * (v' * w) == (v * v') * (u * w);
  }

  /** One coordinate of two sums, from the cross product of their halves. */
  lemma CoordinateEq(fd: Field, x: int, x': int, z: int, z': int, u: int, u': int, v: int, v': int, w: int, w': int)
    requires Eq(fd, x, 4 * (u * v)) && Eq(fd, z, 4 * (v * w)) && Eq(fd, x', 4 * (u' * v')) && Eq(fd, z', 4 * (v' * w')) && Eq(fd, u * w', u' * w)
    ensures Eq(fd, x * z', x' * z)
  {
    Square16(fd, x, z', u * v, v' * w');
    Square16(fd, x', z, u' * v', v * w);
    Scaled(fd, u * w', u' * w, 16 * (v * v'));
    Shuffle(u, v, v', w');
    Shuffle(u', v', v, w);
    assert v' * v == v * v';
    Sym(fd, x' * z, 16 * ((u' * v') * (v * w)));
    Trans(fd, x * z', 16 * (v * v') * (u * w'), 16 * (v * v') * (u' * w));
    Trans(fd, x * z', 16 * (v * v') * (u' * w), x' * z);
  }

  lemma AddRespects(fd: Field, a: Point, a': Point, b: Point)
    requires FieldFacts(fd) && OnCurve(fd, a) && OnCurve(fd, a') && OnCurve(fd, b) && Equal(fd, a, a')
    ensures Equal(fd, Add(fd, a, b), Add(fd, a', b))
  {
    var r, r' := Add(fd, a, b), Add(fd, a', b);
    AddIsProduct(fd, a, b);
    AddIsProduct(fd, a', b);
    HalvesScale(fd, a, a', b);
    var e, f, g, h := HalfE(a, b), HalfF(fd, a, b), HalfG(fd, a, b), HalfH(a, b);
    var e', f', g', h' := HalfE(a', b), HalfF(fd, a', b), HalfG(fd, a', b), HalfH(a', b);
    CrossEq(fd, a'.z, a.z, e, e', g, g');
    CrossEq(fd, a'.z, a.z, h, h', f, f');
    CoordinateEq(fd, r.x, r'.x, r.z, r'.z, e, e', f, f', g, g');
    assert g * h == h * g && f * g == g * f && g' * h' == h' * g' && f' * g' == g' * f';
    CoordinateEq(fd, r.y, r'.y, r.z, r'.z, h, h', g, g', f, f');
  }

  lemma AddCommutes(fd: Field, a: Point, b: Point)
    ensures Add(fd, a, b) == Add(fd, b, a)
  {
    assert (a.y - a.x) * (b.y - b.x) == (b.y - b.x) * (a.y - a.x);
    assert (a.y + a.x) * (b.y + b.x) == (b.y + b.x) * (a.y + a.x);
    assert 2 * a.t * b.t * fd.d == 2 * b.t * a.t * fd.d && 2 * a.z * b.z == 2 * b.z * a.z;
  }

  lemma NeutralOnCurve(fd: Field)
    ensures OnCurve(fd, NEUTRAL)
  {
    Same(fd, 0, 0);
    Same(fd, 1, 1);
    SmallIsUnit(fd, 1);
  }

  lemma NeutralCoordinate(fd: Field, x: int, z: int, rx: int, rz: int)
    requires Eq(fd, rx, 4 * (x * z)) && Eq(fd, rz, 4 * (z * z))
    ensures Eq(fd, rx * z, x * rz)
  {
    Same(fd, z, z);
    Times(fd, rx, 4 * (x * z), z, z);
    Scaled(fd, rz, 4 * (z * z), x);
    assert 4 * (x * z) * z == x * (4 * (z * z));
    Sym(fd, x * rz, x * (4 * (z * z)));
    Trans(fd, rx * z, x * (4 * (z * z)), x * rz);
  }

  lemma NeutralAdds(fd: Field, a: Point)
    ensures Equal(fd, Add(fd, NEUTRAL, a), a)
  {
    var r := Add(fd, NEUTRAL, a);
    AddIsProduct(fd, NEUTRAL, a);
    assert HalfE(NEUTRAL, a) == a.x && HalfH(NEUTRAL, a) == a.y && HalfF(fd, NEUTRAL, a) == a.z && HalfG(fd, NEUTRAL, a) == a.z;
    assert a.z * a.y == a.y * a.z;
    NeutralCoordinate(fd, a.x, a.z, r.x, r.z);
    NeutralCoordinate(fd, a.y, a.z, r.y, r.z);
  }

  // ---- the s-fold sum

  /** The group law's associativity, which is not proved here. */
  ghost predicate Associative(fd: Field) {
    forall a, b, c :: OnCurve(fd, a) && OnCurve(fd, b) && OnCurve(fd, c) ==> Equal(fd, Add(fd, Add(fd, a, b), c), Add(fd, a, Add(fd, b, c)))
  }

  ghost predicate Group(fd: Field) { FieldFacts(fd) && Associative(fd) }

  ghost function Curve(fd: Field): Ops<Point> {
    Ops((a: Point) => OnCurve(fd, a), (a: Point, b: Point) => Equal(fd, a, b), (a: Point, b: Point) => Add(fd, a, b), NEUTRAL)
  }

  lemma EqualRefl(fd: Field, a: Point)
    ensures Equal(fd, a, a)
  {
    Same(fd, a.x * a.z, a.x * a.z);
    Same(fd, a.y * a.z, a.y * a.z);
  }

  /** What was proved about `_add` and `_equal`, and associativity, are the laws double-and-add needs. */
  lemma CurveLaw(fd: Field)
    requires Group(fd)
    ensures Law(Curve(fd))
  {
    NeutralOnCurve(fd);
    forall a, b, c
      ensures LawAt(Curve(fd), a, b, c)
    {
      CurveLawAt(fd, a, b, c);
    }
  }

  lemma CurveLawAt(fd: Field, a: Point, b: Point, c: Point)
    requires Group(fd)
    ensures LawAt(Curve(fd), a, b, c)
  {
    AddCommutes(fd, a, b);
    NeutralAdds(fd, a);
    EqualRefl(fd, a);
    if Equal(fd, a, b) {
      EqualSym(fd, a, b);
    }
    if OnCurve(fd, b) && Equal(fd, a, b) && Equal(fd, b, c) {
      EqualTrans(fd, a, b, c);
    }
    if OnCurve(fd, a) && OnCurve(fd, b) {
      AddOnCurve(fd, a, b);
      if OnCurve(fd, c) && Equal(fd, a, b) {
        AddRespects(fd, a, b, c);
      }
    }
  }

  /** `_mul`: double and add gives the s-fold sum. */
  method Mul(fd: Field, s0: nat, pt0: Point) returns (r: Point)
    requires Group(fd) && OnCurve(fd, pt0)
    ensures OnCurve(fd, r) && Equal(fd, r, Fold(Curve(fd), s0, pt0))
  {
    ghost var goal := Fold(Curve(fd), s0, pt0);
    CurveLaw(fd);
    r := NEUTRAL;
    var s, pt := s0, pt0;
    Starts(Curve(fd), s, pt);
    while s > 0
      invariant Progress(Curve(fd), r, s, pt, goal)
    {
      Continues(Curve(fd), r, s, pt, goal);
      if s % 2 == 1 {
        r := Add(fd, r, pt);
      }
      pt := Add(fd, pt, pt);
      s := s / 2;
    }
    Ends(Curve(fd), r, pt, goal);
  }

  /** `_equal`: the cross products agree modulo P. */
  method EqualTest(fd: Field, a: Point, b: Point) returns (same: bool)
    ensures same <==> Equal(fd, a, b)
  {
    same := (a.x * b.z - b.x * a.z) % fd.p == 0 && (a.y * b.z - b.y * a.z) % fd.p == 0;
    EqMod(fd, a.x * b.z, b.x * a.z);
    EqMod(fd, a.y * b.z, b.y * a.z);
  }

  /** The last line of ed25519_verify, on points of the curve: it compares the s-fold sum of the base point with R plus the
      h-fold sum of the key. */
  method VerifyEquation(fd: Field, s: nat, h: nat, base: Point, key: Point, R: Point) returns (valid: bool)
    requires Group(fd) && OnCurve(fd, base) && OnCurve(fd, key) && OnCurve(fd, R)
    ensures valid <==> Equal(fd, Fold(Curve(fd), s, base), Add(fd, R, Fold(Curve(fd), h, key)))
  {
    var left := Mul(fd, s, base);
    var sum := Mul(fd, h, key);
    valid := EqualTest(fd, left, Add(fd, R, sum));
    SidesCompare(fd, s, h, base, key, R, left, sum);
  }

  lemma SidesCompare(fd: Field, s: nat, h: nat, base: Point, key: Point, R: Point, left: Point, sum: Point)
    requires Group(fd) && OnCurve(fd, base) && OnCurve(fd, key) && OnCurve(fd, R) && OnCurve(fd, left) && OnCurve(fd, sum)
    requires Equal(fd, left, Fold(Curve(fd), s, base)) && Equal(fd, sum, Fold(Curve(fd), h, key))
    ensures Equal(fd, left, Add(fd, R, sum)) <==> Equal(fd, Fold(Curve(fd), s, base), Add(fd, R, Fold(Curve(fd), h, key)))
  {
    CurveLaw(fd);
    FoldOn(Curve(fd), s, base);
    FoldOn(Curve(fd), h, key);
    ComparesSums(Curve(fd), left, Fold(Curve(fd), s, base), R, sum, Fold(Curve(fd), h, key));
  }
}
