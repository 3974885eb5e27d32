/** From the bytes of a key and a signature to points of the curve, and the whole verification
    (tools/usign-verify.py:48-92; sections 5.1.3 and 5.1.7 of RFC 8032). */
module Ed25519Points {
  import opened Bytes
  import Gpt
  import opened Ed25519
  import opened DoubleAndAdd
  import opened Ed25519Group

  // ---- powers

  function Pow(a: int, n: nat): (r: int)
    ensures a > 0 ==> r > 0
  {
    if n == 0 then 1 else a * Pow(a, n - 1)
  }

  /** `pow(a, n, P)`. */
  function PowMod(fd: Field, a: int, n: nat): int { Pow(a, n) % fd.p }

  lemma Associated(a: int, b: int, c: int)
    ensures (a * b) * c == a * (b * c)
  {
  }

  lemma {:induction false} PowPlus(a: int, m: nat, n: nat)
    ensures Pow(a, m + n) == Pow(a, m) * Pow(a, n)
  {
    if m > 0 {
      PowPlus(a, m - 1, n);
      Associated(a, Pow(a, m - 1), Pow(a, n));
    }
  }

  lemma {:induction false} PowSquare(a: int, n: nat)
    ensures Pow(a * a, n) == Pow(a, 2 * n)
  {
    if n > 0 {
      PowSquare(a, n - 1);
      assert Pow(a, 2 * n) == a * Pow(a, 2 * n - 1) == a * (a * Pow(a, 2 * n - 2));
      assert (a * a) * Pow(a, 2 * n - 2) == a * (a * Pow(a, 2 * n - 2));
    }
  }

  lemma {:induction false} PowEq(fd: Field, a: int, b: int, n: nat)
    requires Eq(fd, a, b)
    ensures Eq(fd, Pow(a, n), Pow(b, n))
  {
    if n == 0 {
      Same(fd, 1, 1);
    } else {
      PowEq(fd, a, b, n - 1);
      Times(fd, a, b, Pow(a, n - 1), Pow(b, n - 1));
    }
  }

  /** What decoding rests on besides the facts about the field: P is 5 modulo 8, below 2^255, and Fermat's little theorem. */
  ghost predicate Decodable(fd: Field) {
    && FieldFacts(fd) && fd.p % 8 == 5 && fd.p <= Pow(2, 255)
    && forall a :: !Eq(fd, a, 0) ==> Eq(fd, Pow(a, fd.p - 1), 1)
  }

  lemma Inverse(fd: Field, v: int, inv: int)
    requires Decodable(fd) && !Eq(fd, v, 0) && inv == PowMod(fd, v, fd.p - 2)
    ensures Eq(fd, v * inv, 1) && 0 <= inv < fd.p && inv != 0
  {
    var w := Pow(v, fd.p - 2);
    Reduced(fd, w);
    Scaled(fd, inv, w, v);
    assert Pow(v, fd.p - 1) == v * w;
    Trans(fd, v * inv, v * w, 1);
    if inv == 0 {
      Sym(fd, 0, 1);
      SmallIsUnit(fd, 1);
    }
  }

  // ---- square roots

  /** The two attempts of `_recover_x` at a square root of `c`. */
  function Sqrt(fd: Field, c: int): Option<int> {
    var x := PowMod(fd, c, (fd.p + 3) / 8);
    var x' := if (x * x - c) % fd.p != 0 then x * fd.i % fd.p else x;
    if (x' * x' - c) % fd.p != 0 then None else Some(x')
  }

  lemma SqrtIsRoot(fd: Field, c: int)
    requires Sqrt(fd, c).Some?
    ensures var x := Sqrt(fd, c).value; 0 <= x < fd.p && Eq(fd, x * x, c)
  {
    var x := Sqrt(fd, c).value;
    EqMod(fd, x * x, c);
  }

  /** Equal squares: equal or opposite. */
  lemma EqualSquares(fd: Field, a: int, b: int)
    requires FieldFacts(fd) && Eq(fd, a * a, b * b)
    ensures Eq(fd, a, b) || Eq(fd, a, -b)
  {
    Same(fd, b * b, b * b);
    Plus(fd, a * a, b * b, b * b, b * b);
    assert a * a - b * b == (a - b) * (a + b);
    Cancel(fd, a - b, a + b);
    Same(fd, b, b);
    if Eq(fd, a - b, 0) {
      Plus(fd, a - b, 0, b, b);
    } else {
      Plus(fd, a + b, 0, b, b);
    }
  }

  /** Half of Fermat: a square other than 0 to the power (P - 1) / 2 is 1. */
  lemma SquareToHalf(fd: Field, c: int, w: int)
    requires Decodable(fd) && !Eq(fd, c, 0) && Eq(fd, w * w, c)
    ensures Eq(fd, Pow(c, (fd.p - 1) / 2), 1)
  {
    var h := (fd.p - 1) / 2;
    if Eq(fd, w, 0) {
      Times(fd, w, 0, w, 0);
      Sym(fd, w * w, c);
      Trans(fd, c, w * w, 0);
    }
    Sym(fd, w * w, c);
    PowEq(fd, c, w * w, h);
    PowSquare(w, h);
    assert 2 * h == fd.p - 1;
    Trans(fd, Pow(c, h), Pow(w, fd.p - 1), 1);
  }

  lemma PowFour(c: int, m: nat, h: nat)
    requires 4 * m == h + 2
    ensures var r := Pow(c, m); (r * r) * (r * r) == Pow(c, h) * (c * c)
  {
    PowPlus(c, m, m);
    PowPlus(c, m + m, m + m);
    PowPlus(c, h, 2);
    assert Pow(c, 2) == c * Pow(c, 1) == c * (c * Pow(c, 0));
    assert m + m + (m + m) == h + 2;
  }

  /** The first attempt's fourth power. */
  lemma FourthPower(fd: Field, c: int, w: int, m: nat, x: int)
    requires Decodable(fd) && !Eq(fd, c, 0) && Eq(fd, w * w, c)
    requires m == (fd.p + 3) / 8 && Eq(fd, x, Pow(c, m))
    ensures Eq(fd, (x * x) * (x * x), c * c)
  {
    var h, r := (fd.p - 1) / 2, Pow(c, m);
    Times(fd, x, r, x, r);
    Times(fd, x * x, r * r, x * x, r * r);
    PowFour(c, m, h);
    SquareToHalf(fd, c, w);
    Same(fd, c * c, c * c);
    Times(fd, Pow(c, h), 1, c * c, c * c);
    Trans(fd, (x * x) * (x * x), Pow(c, h) * (c * c), c * c);
  }

  /** If the first attempt's square is -c, the second's is c. */
  lemma Turned(fd: Field, x: int, c: int, x': int)
    requires Root(fd) && Eq(fd, x * x, -c) && x' == x * fd.i % fd.p
    ensures Eq(fd, x' * x', c)
  {
    Reduced(fd, x * fd.i);
    Times(fd, x', x * fd.i, x', x * fd.i);
    SquareOfTwo(x, fd.i);
    Times(fd, x * x, -c, fd.i * fd.i, -1);
    Trans(fd, x' * x', (x * x) * (fd.i * fd.i), c);
  }

  /** A root is found whenever there is one. */
  lemma SqrtFinds(fd: Field, c: int, w: int)
    requires Decodable(fd) && Eq(fd, w * w, c)
    ensures Sqrt(fd, c).Some?
  {
    var m := (fd.p + 3) / 8;
    var x := PowMod(fd, c, m);
    Reduced(fd, Pow(c, m));
    EqMod(fd, x * x, c);
    if Eq(fd, c, 0) {
      ZeroRoot(fd, c, m, x);
    } else {
      FourthPower(fd, c, w, m, x);
      EqualSquares(fd, x * x, c);
      if !Eq(fd, x * x, c) {
        var x' := x * fd.i % fd.p;
        Turned(fd, x, c, x');
        EqMod(fd, x' * x', c);
      }
    }
  }

  lemma ZeroRoot(fd: Field, c: int, m: nat, x: int)
    requires Eq(fd, c, 0) && m > 0 && Eq(fd, x, Pow(c, m))
    ensures Eq(fd, x * x, c)
  {
    PowEq(fd, c, 0, m);
    Trans(fd, x, Pow(c, m), Pow(0, m));
    Times(fd, x, 0, x, 0);
    Sym(fd, c, 0);
    Trans(fd, x * x, 0, c);
  }

  // ---- the curve at a given y

  function Denominator(fd: Field, y: int): int { fd.d * y * y + 1 }

  /** `x2`, which the program does not reduce. */
  function XSquare(fd: Field, y: int): int { (y * y - 1) * PowMod(fd, Denominator(fd, y), fd.p - 2) }

  function Affine(fd: Field, x: int, y: int): Point { Point(x, y, 1, x * y % fd.p) }

  /** D y^2 + 1 is not 0, since -1 is a square and D is not. */
  lemma DenominatorIsUnit(fd: Field, y: int)
    requires FieldFacts(fd)
    ensures !Eq(fd, Denominator(fd, y), 0)
  {
    var d, i, v := fd.d, fd.i, Denominator(fd, y);
    if Eq(fd, v, 0) {
      Same(fd, 1, 1);
      Plus(fd, v, 0, 1, 1);
      assert v - 1 == d * (y * y);
      Sym(fd, i * i, -1);
      Trans(fd, d * (y * y), -1, i * i);
      assert DSquare(fd, y, i);
      Times(fd, y, 0, y, 0);
      Scaled(fd, y * y, 0, d);
      Sym(fd, d * (y * y), -1);
      Trans(fd, -1, d * (y * y), 0);
      Same(fd, 0, 0);
      Plus(fd, 0, 0, -1, 0);
      SmallIsUnit(fd, 1);
    }
  }

  /** The curve's equation solved for x^2. */
  lemma CurveAt(fd: Field, x: int, y: int)
    requires FieldFacts(fd)
    ensures OnCurve(fd, Affine(fd, x, y)) <==> Eq(fd, (x * x) * Denominator(fd, y), y * y - 1)
  {
    var t, xy := x * y % fd.p, x * y;
    Reduced(fd, xy);
    Sym(fd, t, xy);
    SmallIsUnit(fd, 1);
    Times(fd, t, xy, t, xy);
    Scaled(fd, t * t, xy * xy, fd.d);
    Same(fd, 1, 1);
    Plus(fd, 1, 1, fd.d * (t * t), fd.d * (xy * xy));
    Rearranged(fd, x, y, fd.d, 1 + fd.d * (t * t));
  }

  lemma Rearranged(fd: Field, x: int, y: int, d: int, right: int)
    requires Eq(fd, right, 1 + d * ((x * y) * (x * y)))
    ensures Eq(fd, y * y - x * x, right) <==> Eq(fd, (x * x) * (d * y * y + 1), y * y - 1)
  {
    var r := 1 + d * ((x * y) * (x * y));
    SquareOfTwo(x, y);
    assert (x * x) * (d * y * y + 1) - (y * y - 1) == r - (y * y - x * x) by { Expanded(x * x, y * y, d, y); }
    Sym(fd, right, r);
    if Eq(fd, y * y - x * x, right) {
      Trans(fd, y * y - x * x, right, r);
      Opposite(fd, y * y - x * x, r, (x * x) * (d * y * y + 1), y * y - 1);
    }
    if Eq(fd, (x * x) * (d * y * y + 1), y * y - 1) {
      Opposite(fd, (x * x) * (d * y * y + 1), y * y - 1, y * y - x * x, r);
      Trans(fd, y * y - x * x, r, right);
    }
  }

  lemma Expanded(x2: int, y2: int, d: int, y: int)
    requires y2 == y * y
    ensures x2 * (d * y * y + 1) - (y2 - 1) == 1 + d * (x2 * y2) - (y2 - x2)
  {
    assert d * y * y == d * y2;
    assert x2 * (d * y2 + 1) == d * (x2 * y2) + x2;
  }

  lemma Opposite(fd: Field, a: int, b: int, a': int, b': int)
    requires Eq(fd, a, b) && a' - b' == b - a
    ensures Eq(fd, a', b')
  {
    var k :| Multiple(fd, a, b, k);
    assert Multiple(fd, a', b', -k);
  }

  /** A point of the curve at `y` is a square root of `x2`, and the other way round. */
  lemma OnCurveIsRoot(fd: Field, x: int, y: int)
    requires Decodable(fd)
    ensures OnCurve(fd, Affine(fd, x, y)) <==> Eq(fd, x * x, XSquare(fd, y))
  {
    var v, u := Denominator(fd, y), y * y - 1;
    var inv := PowMod(fd, v, fd.p - 2);
    DenominatorIsUnit(fd, y);
    Inverse(fd, v, inv);
    CurveAt(fd, x, y);
    Divided(fd, x * x, v, u, inv);
  }

  lemma Divided(fd: Field, a: int, v: int, u: int, inv: int)
    requires Eq(fd, v * inv, 1)
    ensures Eq(fd, a * v, u) <==> Eq(fd, a, u * inv)
  {
    if Eq(fd, a * v, u) {
      Quotient(fd, a, v, u, inv);
    }
    if Eq(fd, a, u * inv) {
      Quotient(fd, u, inv, a, v);
    }
  }

  lemma Quotient(fd: Field, a: int, v: int, u: int, inv: int)
    requires (Eq(fd, v * inv, 1) || Eq(fd, inv * v, 1)) && (Eq(fd, a * v, u) || Eq(fd, u, a * v))
    ensures Eq(fd, a, u * inv) && Eq(fd, u * inv, a)
  {
    var w := v * inv;
    assert w == inv * v;
    Scaled(fd, w, 1, a);
    Associated(a, v, inv);
    if !Eq(fd, a * v, u) {
      Sym(fd, u, a * v);
    }
    Same(fd, inv, inv);
    Times(fd, a * v, u, inv, inv);
    Sym(fd, a * w, a);
    Trans(fd, a, a * w, u * inv);
    Sym(fd, a, u * inv);
  }

  // ---- `_recover_x`

  /** Of x and p - x the one with the sign's parity; p is odd. */
  function Pick(p: int, x: int, sign: int): int { if x % 2 != sign then p - x else x }

  function RecoverX(fd: Field, y: int, sign: int): Option<int> {
    if y >= fd.p then None
    else
      var x2 := XSquare(fd, y);
      if x2 == 0 then (if sign != 0 then None else Some(0))
      else
        match Sqrt(fd, x2)
        case None => None
        case Some(x) => Some(Pick(fd.p, x, sign))
  }

  /** x is the one the sign asks for among the points at y. */
  ghost predicate Encodes(fd: Field, x: int, y: int, sign: int) {
    0 <= x < fd.p && x % 2 == sign && OnCurve(fd, Affine(fd, x, y))
  }

  lemma SameSmall(fd: Field, a: int, b: int)
    requires 0 <= a < fd.p && 0 <= b < fd.p && Eq(fd, a, b)
    ensures a == b
  {
    var k :| Multiple(fd, a, b, k);
    MulBound(k, fd.p);
  }

  lemma OppositeSmall(fd: Field, a: int, b: int)
    requires 0 <= a < fd.p && 0 <= b < fd.p && Eq(fd, a, -b)
    ensures a + b == 0 || a + b == fd.p
  {
    var k :| Multiple(fd, a, -b, k);
    MulBound(k, fd.p);
    assert (k - 1) * fd.p == k * fd.p - fd.p;
    MulBound(k - 1, fd.p);
  }

  /** Two roots below P are equal or add up to P. */
  lemma TwoRoots(fd: Field, x: int, w: int, c: int)
    requires FieldFacts(fd) && 0 <= x < fd.p && 0 <= w < fd.p && Eq(fd, x * x, c) && Eq(fd, w * w, c)
    ensures w == x || w == fd.p - x
  {
    Sym(fd, w * w, c);
    Trans(fd, x * x, c, w * w);
    EqualSquares(fd, x, w);
    if Eq(fd, x, w) {
      SameSmall(fd, x, w);
    } else {
      OppositeSmall(fd, x, w);
    }
  }

  lemma NegatedRoot(fd: Field, x: int, c: int)
    requires Eq(fd, x * x, c)
    ensures Eq(fd, (fd.p - x) * (fd.p - x), c)
  {
    assert Multiple(fd, fd.p - x, -x, 1);
    Times(fd, fd.p - x, -x, fd.p - x, -x);
    assert -x * -x == x * x;
    Trans(fd, (fd.p - x) * (fd.p - x), x * x, c);
  }

  /** The y whose only x is 0, and whose square is not 1 but P (P - 2) + 1. */
  predicate NegativeZero(fd: Field, y: int, sign: int) { y == fd.p - 1 && sign == 1 }

  /** x2 is 0 modulo P exactly for y = 1, where it is 0, and y = P - 1, where it is not. */
  lemma ZeroSquare(fd: Field, y: int)
    requires Decodable(fd) && 0 <= y < fd.p
    ensures XSquare(fd, y) == 0 <==> y == 1
    ensures Eq(fd, XSquare(fd, y), 0) <==> y == 1 || y == fd.p - 1
  {
    var v, u, x2 := Denominator(fd, y), y * y - 1, XSquare(fd, y);
    var inv := PowMod(fd, v, fd.p - 2);
    DenominatorIsUnit(fd, y);
    Inverse(fd, v, inv);
    assert u == 0 <==> y == 1 by { assert u == (y - 1) * (y + 1); }
    assert x2 == u * inv;
    assert x2 == 0 <==> u == 0 by { NoFactorZero(u, inv); }
    Same(fd, 0, 0);
    UnitFactor(fd, u, inv, v);
    RootsOfOne(fd, y);
  }

  lemma NoFactorZero(u: int, inv: int)
    requires inv > 0
    ensures u * inv == 0 <==> u == 0
  {
  }

  lemma UnitFactor(fd: Field, u: int, inv: int, v: int)
    requires Eq(fd, v * inv, 1)
    ensures Eq(fd, u * inv, 0) <==> Eq(fd, u, 0)
  {
    Divided(fd, 0, v, u, inv);
    assert 0 * v == 0;
    if Eq(fd, u * inv, 0) {
      Sym(fd, u * inv, 0);
      Sym(fd, 0, u);
    }
    if Eq(fd, u, 0) {
      Sym(fd, u, 0);
      Sym(fd, 0, u * inv);
    }
  }

  lemma RootsOfOne(fd: Field, y: int)
    requires FieldFacts(fd) && 0 <= y < fd.p
    ensures Eq(fd, y * y - 1, 0) <==> y == 1 || y == fd.p - 1
  {
    Same(fd, 1, 1);
    if Eq(fd, y * y - 1, 0) {
      Plus(fd, y * y - 1, 0, 1, 1);
      TwoRoots(fd, 1, y, 1);
    }
    if y == 1 {
      Same(fd, y * y - 1, 0);
    } else if y == fd.p - 1 {
      NegatedRoot(fd, 1, 1);
      Plus(fd, y * y, 1, 1, 1);
    }
  }

  lemma Picks(p: int, x: int, w: int, sign: int)
    requires p % 8 == 5 && 0 <= x < p && 0 <= sign <= 1
    ensures 0 <= Pick(p, x, sign) < p && Pick(p, x, sign) % 2 == sign <==> !(x == 0 && sign == 1)
    ensures (w == x || w == p - x) && w % 2 == sign ==> w == Pick(p, x, sign)
  {
    assert p % 2 == 1;
  }

  /** The root with the sign's parity, where there is one. */
  lemma Chosen(fd: Field, c: int, x: int, sign: int)
    requires FieldFacts(fd) && fd.p % 8 == 5 && 0 <= x < fd.p && Eq(fd, x * x, c) && 0 <= sign <= 1
    ensures var r := Pick(fd.p, x, sign); Eq(fd, r * r, c)
    ensures var r := Pick(fd.p, x, sign); 0 <= r < fd.p && r % 2 == sign <==> !(Eq(fd, c, 0) && sign == 1)
  {
    NegatedRoot(fd, x, c);
    ZeroOnly(fd, x, c);
    Picks(fd.p, x, x, sign);
  }

  /** Whatever `_recover_x` gives is on the curve; and it is the x the encoding means, but for the case above. */
  lemma RecoverSound(fd: Field, y: int, sign: int)
    requires Decodable(fd) && 0 <= y && 0 <= sign <= 1 && RecoverX(fd, y, sign).Some?
    ensures var x := RecoverX(fd, y, sign).value;
            OnCurve(fd, Affine(fd, x, y)) && (Encodes(fd, x, y, sign) <==> !NegativeZero(fd, y, sign))
  {
    var x2, x := XSquare(fd, y), RecoverX(fd, y, sign).value;
    OnCurveIsRoot(fd, x, y);
    ZeroSquare(fd, y);
    if x2 == 0 {
      Same(fd, 0, x2);
    } else {
      SqrtIsRoot(fd, x2);
      Chosen(fd, x2, Sqrt(fd, x2).value, sign);
    }
  }

  lemma ZeroOnly(fd: Field, x: int, c: int)
    requires FieldFacts(fd) && 0 <= x < fd.p && Eq(fd, x * x, c)
    ensures x == 0 <==> Eq(fd, c, 0)
  {
    if x == 0 {
      Sym(fd, 0, c);
    }
    if Eq(fd, c, 0) {
      Trans(fd, x * x, c, 0);
      Cancel(fd, x, x);
      Same(fd, 0, 0);
      SameSmall(fd, x, 0);
    }
  }

  lemma OnlyOne(fd: Field, c: int, x: int, w: int, sign: int)
    requires FieldFacts(fd) && fd.p % 8 == 5 && 0 <= x < fd.p && 0 <= w < fd.p && Eq(fd, x * x, c) && Eq(fd, w * w, c)
    requires 0 <= sign <= 1 && w % 2 == sign
    ensures w == Pick(fd.p, x, sign)
  {
    TwoRoots(fd, x, w, c);
    Picks(fd.p, x, w, sign);
  }

  /** And the x an encoding means is what it gives. */
  lemma RecoverComplete(fd: Field, y: int, sign: int, x: int)
    requires Decodable(fd) && 0 <= y < fd.p && 0 <= sign <= 1 && Encodes(fd, x, y, sign)
    ensures RecoverX(fd, y, sign) == Some(x)
  {
    var x2 := XSquare(fd, y);
    OnCurveIsRoot(fd, x, y);
    ZeroOnly(fd, x, x2);
    if x2 == 0 {
      Same(fd, 0, 0);
    } else {
      SqrtFinds(fd, x2, x);
      SqrtIsRoot(fd, x2);
      OnlyOne(fd, x2, Sqrt(fd, x2).value, x, sign);
    }
  }

  // ---- `_decompress`

  function Decompress(fd: Field, s: Bytes): Option<Point> {
    if |s| != 32 then None
    else
      var n := Gpt.LE(s);
      var y, sign := n % Pow(2, 255), n / Pow(2, 255);
      match RecoverX(fd, y, sign)
      case None => None
      case Some(x) => Some(Affine(fd, x, y))
  }

  /** The encoding of section 5.1.2 of RFC 8032: y in 255 bits, the lowest bit of x above them. */
  ghost predicate EncodingOf(fd: Field, s: Bytes, a: Point) {
    && |s| == 32 && 0 <= a.x < fd.p && 0 <= a.y < fd.p && a == Affine(fd, a.x, a.y) && OnCurve(fd, a)
    && Gpt.LE(s) == a.y + a.x % 2 * Pow(2, 255)
  }

  lemma {:induction false} Powers(k: nat)
    ensures Gpt.Pow256(k) == Pow(2, 8 * k) && Pow(2, 8 * k) > 0
  {
    if k > 0 {
      Powers(k - 1);
      PowPlus(2, 8, 8 * k - 8);
      assert Pow(2, 8) == 256 by {
        assert Pow(2, 4) == 16;
        PowPlus(2, 4, 4);
      }
    }
  }

  /** A number of 32 bytes is 255 bits and one more. */
  lemma SignBit(s: Bytes)
    requires |s| == 32
    ensures Pow(2, 255) > 0 && 0 <= Gpt.LE(s) / Pow(2, 255) <= 1
  {
    Gpt.LEBound(s);
    Powers(32);
    HalfOf(Gpt.LE(s), Pow(2, 255));
  }

  lemma HalfOf(n: nat, half: int)
    requires half > 0 && n < 2 * half
    ensures 0 <= n / half <= 1
  {
  }

  lemma Split(n: int, half: int, y: int, sign: int)
    requires half > 0 && 0 <= y < half
    ensures n == y + sign * half <==> n % half == y && n / half == sign
  {
    var q, r := n / half, n % half;
    assert n == q * half + r;
    if n == y + sign * half {
      assert (q - sign) * half == y - r;
      MulBound(q - sign, half);
    }
  }

  /** The 32 bytes that would be the point (0, -1) with a sign. */
  predicate NegativeZeroBytes(fd: Field, s: Bytes) { |s| == 32 && Gpt.LE(s) == fd.p - 1 + Pow(2, 255) }

  /** `_decompress` gives the point whose encoding the bytes are, and None where there is none; but for one string. */
  lemma DecompressExact(fd: Field, s: Bytes, a: Point)
    requires Decodable(fd)
    ensures EncodingOf(fd, s, a) <==> Decompress(fd, s) == Some(a) && !NegativeZeroBytes(fd, s)
  {
    if |s| == 32 {
      var n, half := Gpt.LE(s), Pow(2, 255);
      SignBit(s);
      var y, sign := n % half, n / half;
      Split(n, half, y, sign);
      Split(n, half, fd.p - 1, 1);
      if RecoverX(fd, y, sign).Some? {
        RecoverSound(fd, y, sign);
      }
      if EncodingOf(fd, s, a) {
        Split(n, half, a.y, a.x % 2);
        RecoverComplete(fd, y, sign, a.x);
        RecoverSound(fd, y, sign);
      }
    }
  }

  lemma DecompressOnCurve(fd: Field, s: Bytes)
    requires Decodable(fd) && Decompress(fd, s).Some?
    ensures OnCurve(fd, Decompress(fd, s).value)
  {
    SignBit(s);
    RecoverSound(fd, Gpt.LE(s) % Pow(2, 255), Gpt.LE(s) / Pow(2, 255));
  }

  lemma RecoverNegativeZero(fd: Field, y: int)
    requires Decodable(fd) && y == fd.p - 1
    ensures RecoverX(fd, y, 1) == Some(fd.p)
  {
    var x2 := XSquare(fd, y);
    ZeroSquare(fd, y);
    Sym(fd, x2, 0);
    SqrtFinds(fd, x2, 0);
    SqrtIsRoot(fd, x2);
    ZeroOnly(fd, Sqrt(fd, x2).value, x2);
  }

  /** That string is decoded, to the point it would be without the sign; section 5.1.3 of RFC 8032 has it fail. */
  lemma NegativeZeroDecodes(fd: Field, s: Bytes)
    requires Decodable(fd) && NegativeZeroBytes(fd, s)
    ensures Decompress(fd, s) == Some(Point(fd.p, fd.p - 1, 1, 0)) && forall a :: !EncodingOf(fd, s, a)
  {
    Split(Gpt.LE(s), Pow(2, 255), fd.p - 1, 1);
    RecoverNegativeZero(fd, fd.p - 1);
    MultipleMod(fd.p - 1, fd.p);
    assert fd.p * (fd.p - 1) == (fd.p - 1) * fd.p;
    forall a
      ensures !EncodingOf(fd, s, a)
    {
      DecompressExact(fd, s, a);
    }
  }

  // ---- the verification

  /** `_G`. */
  function Base(fd: Field): Option<Point> {
    var y := 4 * PowMod(fd, 5, fd.p - 2) % fd.p;
    match RecoverX(fd, y, 0)
    case None => None
    case Some(x) => Some(Affine(fd, x, y))
  }

  /** What a signature is: section 5.1.7 of RFC 8032, on the points the bytes decode to. */
  ghost predicate Signed(fd: Field, order: nat, hash: Bytes -> Bytes, public: Bytes, msg: Bytes, sig: Bytes)
    requires order > 0 && Base(fd).Some?
  {
    && |public| == 32 && |sig| == 64
    && var key, R := Decompress(fd, public), Decompress(fd, sig[..32]);
       var s, h := Gpt.LE(sig[32..]), Gpt.LE(hash(sig[..32] + public + msg)) % order;
       && key.Some? && R.Some? && s < order
       && Equal(fd, Fold(Curve(fd), s, Base(fd).value), Add(fd, R.value, Fold(Curve(fd), h, key.value)))
  }

  /** `ed25519_verify`; `hash` is SHA-512, `order` the group's. */
  method Verify(fd: Field, order: nat, hash: Bytes -> Bytes, public: Bytes, msg: Bytes, sig: Bytes) returns (valid: bool)
    requires Group(fd) && Decodable(fd) && order > 0 && Base(fd).Some?
    ensures valid <==> Signed(fd, order, hash, public, msg, sig)
  {
    if |public| != 32 || |sig| != 64 {
      return false;
    }
    var key, R := Decompress(fd, public), Decompress(fd, sig[..32]);
    if key.None? || R.None? {
      return false;
    }
    var s := Gpt.LE(sig[32..]);
    if s >= order {
      return false;
    }
    var h := Gpt.LE(hash(sig[..32] + public + msg)) % order;
    DecompressOnCurve(fd, public);
    DecompressOnCurve(fd, sig[..32]);
    RecoverSound(fd, 4 * PowMod(fd, 5, fd.p - 2) % fd.p, 0);
    valid := VerifyEquation(fd, s, h, Base(fd).value, key.value, R.value);
  }
}
