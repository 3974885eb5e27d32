/** Ed25519's own numbers: what decoding and verifying need of them is computed, not taken as given
    (tools/usign-verify.py:18-21, 76-92). */
module Ed25519Numbers {
  import opened Bytes
  import opened Ed25519
  import opened Ed25519Group
  import opened Ed25519Points

  /** The group's order. */
  const ORDER: nat := 7237005577332262213973186563042994240857116359379907606001950938285454250989

  /** The base point. */
  const BASE_X := 15112221349535400772501151409588531511454012693041857206046113283949847762202
  const BASE_Y := 46316835694926478169428394003475163141307993866256225615783033603165251855960

  /** What is taken as given of the numbers: P has no zero divisors, D is not a square modulo P, and Fermat's little theorem. */
  ghost predicate PrimeFacts(fd: Field) {
    && (forall a, b :: Eq(fd, Prod(a, b), 0) ==> Eq(fd, a, 0) || Eq(fd, b, 0))
    && (forall a, b :: DSquare(fd, a, b) ==> Eq(fd, a, 0))
    && (forall a :: !Eq(fd, a, 0) ==> Eq(fd, Pow(a, fd.p - 1), 1))
  }

  // ---- the size of P

  lemma NextPower(n: nat, v: int)
    requires Pow(2, n) == v
    ensures Pow(2, 2 * n + 1) == 2 * (v * v)
  {
    PowPlus(2, n, n);
    assert Pow(2, 2 * n + 1) == 2 * Pow(2, 2 * n);
  }

  lemma Power255()
    ensures Pow(2, 255) == 0x80000000_00000000_00000000_00000000_00000000_00000000_00000000_00000000
  {
    assert Pow(2, 1) == 2 * Pow(2, 0);
    NextPower(1, 2);
    NextPower(3, 8);
    NextPower(7, 128);
    NextPower(15, 0x8000);
    NextPower(31, 0x8000_0000);
    NextPower(63, 0x8000_0000_0000_0000);
    NextPower(127, 0x80000000_00000000_00000000_00000000);
  }

  lemma NumbersDecode(fd: Field)
    requires fd == ED25519 && PrimeFacts(fd)
    ensures Decodable(fd)
  {
    StandardFacts(fd);
    Power255();
  }

  // ---- the base point

  /** Its y is 4/5. */
  lemma BaseY(fd: Field)
    requires fd == ED25519 && Decodable(fd)
    ensures 4 * PowMod(fd, 5, fd.p - 2) % fd.p == BASE_Y
  {
    FiveIsUnit(fd);
    FourFifths(fd, PowMod(fd, 5, fd.p - 2), BASE_Y);
  }

  lemma FiveIsUnit(fd: Field)
    requires fd == ED25519
    ensures !Eq(fd, 5, 0) && Eq(fd, 5 * BASE_Y, 4) && 0 <= BASE_Y < fd.p
  {
    EqMod(fd, 5, 0);
    EqMod(fd, 5 * BASE_Y, 4);
  }

  lemma FourFifths(fd: Field, inv: int, y: int)
    requires Decodable(fd) && inv == PowMod(fd, 5, fd.p - 2) && !Eq(fd, 5, 0) && Eq(fd, 5 * y, 4) && 0 <= y < fd.p
    ensures 4 * inv % fd.p == y
  {
    Inverse(fd, 5, inv);
    Scaled(fd, 5 * inv, 1, 4);
    assert 4 * (5 * inv) == 5 * (4 * inv);
    Sym(fd, 5 * y, 4);
    Trans(fd, 5 * (4 * inv), 4, 5 * y);
    CancelEq(fd, 5, 4 * inv, y);
    Reduced(fd, 4 * inv);
    Trans(fd, 4 * inv % fd.p, 4 * inv, y);
    SameSmall(fd, 4 * inv % fd.p, y);
  }

  lemma BaseOnCurve(fd: Field)
    requires fd == ED25519 && FieldFacts(fd)
    ensures Encodes(fd, BASE_X, BASE_Y, 0)
  {
    BaseEquation(fd);
    CurveAt(fd, BASE_X, BASE_Y);
  }

  lemma BaseEquation(fd: Field)
    requires fd == ED25519
    ensures Eq(fd, (BASE_X * BASE_X) * Denominator(fd, BASE_Y), BASE_Y * BASE_Y - 1)
  {
    EqMod(fd, (BASE_X * BASE_X) * Denominator(fd, BASE_Y), BASE_Y * BASE_Y - 1);
  }

  /** The program's base point is decoded. */
  lemma BaseDecodes(fd: Field)
    requires fd == ED25519 && PrimeFacts(fd)
    ensures Decodable(fd) && Base(fd) == Some(Affine(fd, BASE_X, BASE_Y))
  {
    NumbersDecode(fd);
    BaseY(fd);
    BaseOnCurve(fd);
    FiveIsUnit(fd);
    RecoverComplete(fd, BASE_Y, 0, BASE_X);
  }

  /** `ed25519_verify` with the program's own numbers. */
  method VerifySignature(fd: Field, hash: Bytes -> Bytes, public: Bytes, msg: Bytes, sig: Bytes) returns (valid: bool)
    requires fd == ED25519 && PrimeFacts(fd) && Associative(fd)
    ensures Base(fd) == Some(Affine(fd, BASE_X, BASE_Y))
    ensures valid <==> Signed(fd, ORDER, hash, public, msg, sig)
  {
    BaseDecodes(fd);
    valid := Verify(fd, ORDER, hash, public, msg, sig);
  }
}
