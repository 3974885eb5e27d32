/** The carry tool's streaming SHA-256: a 64-byte buffer filled from chunks of any size, and the padding of section 5.1.1
    of FIPS 180-4 written through the same buffer. The compression of one block is a parameter: what is proved is that
    exactly the right blocks are compressed, in order, for every way to cut the message into chunks. */
module Sha256 {
  import opened Bytes
  import opened Gpt
  import opened BigEndian

  // ---- the standard

  /** The state after the whole 64-byte blocks of m. */
  function Blocks<H>(compress: (H, Bytes) -> H, h: H, m: Bytes): H
    decreases |m|
  {
    if |m| < 64 then h else Blocks(compress, compress(h, m[..64]), m[64..])
  }

  /** The number of zero bits after the bit 1: the least k with l + 1 + k = 448 modulo 512, for a message of l bits. */
  ghost predicate ZeroBits(l: nat, k: nat) {
    Congruent(l, k) && forall j: nat :: j < k ==> !Congruent(l, j)
  }

  predicate Congruent(l: nat, k: nat) { (l + 1 + k) % 512 == 448 }

  /** The zero bytes after the byte 0x80 of a message of n bytes. */
  function ZeroBytes(n: nat): (z: nat)
    ensures z < 64 && (n + 1 + z) % 64 == 56
  {
    (119 - n % 64) % 64
  }

  /** The byte 0x80 and the zero bytes are the bit 1 and the standard's zero bits. */
  lemma PaddingIsStandard(n: nat)
    ensures ZeroBits(8 * n, 7 + 8 * ZeroBytes(n))
  {
    var k := 7 + 8 * ZeroBytes(n);
    assert Congruent(8 * n, k);
    forall j: nat | j < k
      ensures !Congruent(8 * n, j)
    {
      Apart(8 * n + 1 + j, 8 * n + 1 + k);
    }
  }

  lemma Apart(a: nat, b: nat)
    requires a < b < a + 512
    ensures a % 512 != b % 512
  {
  }

  /** The length field: the message's bits, modulo 2^64. */
  function LengthBytes(bits: nat): (r: Bytes)
    ensures |r| == 8
  {
    ToBE(bits % TWO64, 8)
  }

  /** The padded message. */
  function Padded(m: Bytes): (r: Bytes)
    ensures |r| % 64 == 0
  {
    PaddedWhole(|m|, ZeroBytes(|m|));
    m + [0x80] + Zeros(ZeroBytes(|m|)) + LengthBytes(8 * |m|)
  }

  lemma PaddedWhole(n: nat, z: nat)
    requires (n + 1 + z) % 64 == 56
    ensures (n + 1 + z + 8) % 64 == 0
  {
  }

  function Digest<H>(compress: (H, Bytes) -> H, iv: H, m: Bytes): H {
    Blocks(compress, iv, Padded(m))
  }

  /** Two messages shorter than 2^64 bits are padded to different block sequences. */
  lemma PaddedInjective(a: Bytes, b: Bytes)
    requires 8 * |a| < TWO64 && 8 * |b| < TWO64 && Padded(a) == Padded(b)
    ensures a == b
  {
    PaddedParts(a, Padded(a));
    PaddedParts(b, Padded(b));
    PartsTell(a, b, Padded(a));
  }

  /** A message can be read off its padded form: the last eight bytes say how much of the rest it is. */
  ghost predicate Parts(m: Bytes, p: Bytes) {
    |p| >= |m| + 8 && p[|p| - 8..] == LengthBytes(8 * |m|) && p[..|m|] == m
  }

  lemma PaddedParts(m: Bytes, p: Bytes)
    requires p == Padded(m)
    ensures Parts(m, p)
  {
    Sliced(m, [0x80] + Zeros(ZeroBytes(|m|)), LengthBytes(8 * |m|));
    assert p == m + ([0x80] + Zeros(ZeroBytes(|m|))) + LengthBytes(8 * |m|);
  }

  lemma Sliced(a: Bytes, b: Bytes, c: Bytes)
    ensures (a + b + c)[..|a|] == a && (a + b + c)[|a| + |b|..] == c
  {
  }

  lemma PartsTell(a: Bytes, b: Bytes, p: Bytes)
    requires Parts(a, p) && Parts(b, p) && 8 * |a| < TWO64 && 8 * |b| < TWO64
    ensures a == b
  {
    FieldTells(8 * |a|, 8 * |b|, p[|p| - 8..]);
  }

  lemma FieldTells(m: nat, n: nat, f: Bytes)
    requires m < TWO64 && n < TWO64 && f == LengthBytes(m) && f == LengthBytes(n)
    ensures m == n
  {
    Unwrapped(m);
    Unwrapped(n);
    Widths();
    ToBEInjective(m, n, |f|);
  }

  lemma Unwrapped(m: nat)
    requires m < TWO64
    ensures LengthBytes(m) == ToBE(m, 8)
  {
    assert m % TWO64 == m;
  }

  // ---- blocks of a message that grows

  lemma {:induction false} BlocksAppend<H>(compress: (H, Bytes) -> H, h: H, m: Bytes, n: Bytes)
    requires |m| % 64 == 0
    ensures Blocks(compress, h, m + n) == Blocks(compress, Blocks(compress, h, m), n)
    decreases |m|
  {
    if m == [] {
      assert m + n == n;
    } else {
      BlocksAppend(compress, compress(h, m[..64]), m[64..], n);
      assert (m + n)[..64] == m[..64];
      assert (m + n)[64..] == m[64..] + n;
    }
  }

  lemma OneBlock<H>(compress: (H, Bytes) -> H, h: H, b: Bytes)
    requires |b| == 64
    ensures Blocks(compress, h, b) == compress(h, b)
  {
    assert b[..64] == b;
  }

  /** What the fields say about the bytes taken so far. */
  ghost predicate Holds<H>(compress: (H, Bytes) -> H, iv: H, m: Bytes, h: H, tail: Bytes) {
    && |tail| == |m| % 64
    && m[|m| - |tail|..] == tail
    && h == Blocks(compress, iv, m[..|m| - |tail|])
  }

  /** Part of a chunk goes into the buffer, which stays short of a block. */
  lemma TakesPart<H>(compress: (H, Bytes) -> H, iv: H, m: Bytes, h: H, tail: Bytes, p: Bytes)
    requires Holds(compress, iv, m, h, tail) && |tail| + |p| < 64
    ensures Holds(compress, iv, m + p, h, tail + p)
  {
    var m' := m + p;
    assert m'[..|m'| - |tail + p|] == m[..|m| - |tail|];
    assert m'[|m'| - |tail + p|..] == tail + p;
  }

  /** Part of a chunk fills the buffer, which is compressed. */
  lemma TakesBlock<H>(compress: (H, Bytes) -> H, iv: H, m: Bytes, h: H, tail: Bytes, p: Bytes)
    requires Holds(compress, iv, m, h, tail) && |tail| + |p| == 64
    ensures Holds(compress, iv, m + p, compress(h, tail + p), [])
  {
    var m', done := m + p, m[..|m| - |tail|];
    assert m' == done + (tail + p);
    BlocksAppend(compress, iv, done, tail + p);
    OneBlock(compress, h, tail + p);
    assert m'[..|m'|] == m';
    assert m'[|m'|..] == [];
  }

  // ---- the program

  class Sha<H> {
    const compress: (H, Bytes) -> H
    ghost const iv: H
    var h: H
    const buf: array<byte>
    var fill: nat
    var len: nat
    ghost var taken: Bytes

    ghost predicate Core()
      reads this, buf
    {
      buf.Length == 64 && fill < 64 && Holds(compress, iv, taken, h, buf[..fill])
    }

    ghost predicate Valid()
      reads this, buf
    {
      Core() && len == |taken| % TWO64
    }

    /** `sha256_init` */
    constructor (c: (H, Bytes) -> H, init: H)
      ensures Valid() && fresh(buf) && taken == [] && compress == c && iv == init
    {
      compress := c;
      iv := init;
      h := init;
      buf := new byte[64];
      fill := 0;
      len := 0;
      taken := [];
      new;
    }

    /** memcpy into the buffer at `fill` */
    method Fill(p: Bytes)
      requires buf.Length == 64 && fill + |p| <= 64
      modifies buf
      ensures buf[..fill + |p|] == old(buf[..fill]) + p
    {
      var i := 0;
      while i < |p|
        invariant 0 <= i <= |p|
        invariant buf[..fill + i] == old(buf[..fill]) + p[..i]
      {
        buf[fill + i] := p[i];
        assert buf[..fill + i + 1] == buf[..fill + i] + [p[i]];
        assert p[..i + 1] == p[..i] + [p[i]];
        i := i + 1;
      }
      assert p[..|p|] == p;
    }

    /** One turn of the update: as much as fits into the buffer, and the block when it is full. */
    method Absorb(p: Bytes)
      requires Core() && fill + |p| <= 64
      modifies this`h, this`fill, this`taken, buf
      ensures Core() && taken == old(taken) + p
    {
      ghost var tail := buf[..fill];
      Fill(p);
      if fill + |p| == 64 {
        TakesBlock(compress, iv, taken, h, tail, p);
        assert buf[..] == tail + p;
        h := compress(h, buf[..]);
        fill := 0;
        assert buf[..fill] == [];
      } else {
        TakesPart(compress, iv, taken, h, tail, p);
        fill := fill + |p|;
      }
      taken := taken + p;
    }

    method Feed(p: Bytes)
      requires Core()
      modifies this`h, this`fill, this`taken, buf
      ensures Core() && taken == old(taken) + p
    {
      var i := 0;
      while i < |p|
        invariant 0 <= i <= |p|
        invariant Core() && taken == old(taken) + p[..i]
      {
        var k := if 64 - fill > |p| - i then |p| - i else 64 - fill;
        TakesMore(old(taken), p, i, k);
        Absorb(p[i..i + k]);
        i := i + k;
      }
      assert p[..|p|] == p;
    }

    /** `sha256_update`: a chunk of any size is taken as if the message had grown by it. */
    method Update(p: Bytes)
      requires Valid()
      modifies this, buf
      ensures Valid() && taken == old(taken) + p
    {
      AddWraps(|taken|, |p|);
      len := (len + |p|) % TWO64;
      Feed(p);
    }

    /** `sha256_hex`, before the number is printed: the padding goes through the buffer, and the state is the digest of
        the message. The padding never needs more than the 72 bytes set aside for it. */
    method Finish() returns (d: H)
      requires Valid()
      modifies this, buf
      ensures d == Digest(compress, iv, old(taken))
    {
      ghost var m := taken;
      var bits := len * 8 % TWO64;
      var pad: Bytes := [0x80] + Zeros(71);
      var n := (if fill < 56 then 56 else 120) - fill;
      var field := LengthField(bits);
      assert pad[..n] == [0x80] + Zeros(ZeroBytes(|m|)) && ToBE(bits, 8) == LengthBytes(8 * |m|) by {
        PadLength(|m|, fill, n, len);
      }
      Update(pad[..n]);
      Update(field);
      d := h;
      Whole(compress, iv, m, taken, d, buf[..fill]);
    }
  }

  lemma TakesMore(m: Bytes, p: Bytes, i: nat, k: nat)
    requires i + k <= |p|
    ensures m + p[..i] + p[i..i + k] == m + p[..i + k]
  {
  }

  lemma Whole<H>(compress: (H, Bytes) -> H, iv: H, m: Bytes, p: Bytes, h: H, tail: Bytes)
    requires p == m + ([0x80] + Zeros(ZeroBytes(|m|))) + LengthBytes(8 * |m|) && Holds(compress, iv, p, h, tail)
    ensures h == Digest(compress, iv, m)
  {
    assert p == Padded(m);
    assert p[..|p|] == p;
  }

  lemma AddWraps(a: nat, b: nat)
    ensures (a % TWO64 + b) % TWO64 == (a + b) % TWO64
  {
    assert a + b == a % TWO64 + b + TWO64 * (a / TWO64);
  }

  lemma PadLength(m: nat, fill: nat, n: nat, len: nat)
    requires fill == m % 64 && len == m % TWO64 && n == (if fill < 56 then 56 else 120) - fill
    ensures n == 1 + ZeroBytes(m) && len * 8 % TWO64 == 8 * m % TWO64
  {
    assert 8 * m == 8 * len + TWO64 * (8 * (m / TWO64));
  }

  /** n shifted down by k bytes. */
  function Shr(n: nat, k: nat): nat {
    if k == 0 then n else Shr(n / 256, k - 1)
  }

  lemma {:induction false} ShrNext(n: nat, k: nat)
    ensures Shr(n, k) / 256 == Shr(n, k + 1)
  {
    if k > 0 {
      ShrNext(n / 256, k - 1);
    }
  }

  /** The length field, each byte shifted down from the number. */
  method LengthField(bits: nat) returns (field: Bytes)
    ensures field == ToBE(bits, 8)
  {
    field := [];
    var i := 0;
    while i < 8
      invariant 0 <= i <= 8
      invariant field == ToBE(Shr(bits, 8 - i), i)
    {
      ShrNext(bits, 7 - i);
      field := field + [Shr(bits, 7 - i) % 256];
      i := i + 1;
    }
  }
}
