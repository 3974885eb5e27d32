/** LZ4 legacy framing: the magic number, then for every 8 MiB of data the length of a compressed block and the block. The
    compression of one block is a parameter. */
module Lz4Legacy {
  import opened Bytes
  import opened Gpt

  const MAGIC: Bytes := [2, 33, 76, 24]
  const BLOCK := 8388608

  datatype Codec = Codec(compress: Bytes -> Bytes, decompress: Bytes -> Option<Bytes>)

  /** What the framing needs of the compression: it is undone, and the length of a block is never the magic number. */
  ghost predicate Works(c: Codec) {
    forall x :: |x| <= BLOCK ==>
      c.decompress(c.compress(x)) == Some(x) && |c.compress(x)| < LE(MAGIC)
  }

  function Blocks(c: Codec, d: Bytes): Bytes
    decreases |d|
  {
    if d == [] then []
    else
      var n := if |d| < BLOCK then |d| else BLOCK;
      OneBlock(c, d[..n]) + Blocks(c, d[n..])
  }

  function OneBlock(c: Codec, x: Bytes): Bytes { ToLE(|c.compress(x)|, 4) + c.compress(x) }

  function Encode(c: Codec, d: Bytes): Bytes { MAGIC + Blocks(c, d) }

  function Drop(d: Bytes, n: nat): Bytes { if n <= |d| then d[n..] else [] }
  function Take(d: Bytes, n: nat): Bytes { if n <= |d| then d[..n] else d }

  function Then(a: Bytes, r: Option<Bytes>): Option<Bytes> { if r.None? then None else Some(a + r.value) }

  /** The frames one after another; `inside` says whether the magic number was read. */
  function Decode(c: Codec, d: Bytes, inside: bool): Option<Bytes>
    decreases |d|
  {
    if inside && |d| >= 4 && d[..4] != MAGIC then
      var n := LE(d[..4]);
      match c.decompress(Take(d[4..], n))
      case None => None
      case Some(x) => Then(x, Decode(c, Drop(d[4..], n), true))
    else if d == [] then Some([])
    else if |d| >= 4 && d[..4] == MAGIC then Decode(c, d[4..], true)
    else None
  }

  // ---- decoding undoes encoding

  lemma LengthIsNoMagic(n: nat, b: Bytes)
    requires n < LE(MAGIC) && b == ToLE(n, 4)
    ensures b != MAGIC && LE(b) == n
  {
    Widths();
    LEBound(MAGIC);
    LERoundTrip(n, 4);
  }

  lemma BlockBack(c: Codec, x: Bytes, rest: Bytes, d: Bytes, r: Option<Bytes>)
    requires Works(c) && |x| <= BLOCK && d == OneBlock(c, x) + rest && r == Decode(c, rest, true)
    ensures Decode(c, d, true) == Then(x, r)
  {
    var b := c.compress(x);
    var size := ToLE(|b|, 4);
    BlockSlices(size, b, rest, d);
    LengthIsNoMagic(|b|, size);
  }

  lemma BlockSlices(size: Bytes, b: Bytes, rest: Bytes, d: Bytes)
    requires |size| == 4 && d == size + b + rest
    ensures |d| >= 4 && d[..4] == size && Take(d[4..], |b|) == b && Drop(d[4..], |b|) == rest
  {
    assert d[4..] == b + rest;
  }

  lemma ThenThen(a: Bytes, b: Bytes, r: Option<Bytes>)
    ensures Then(a, Then(b, r)) == Then(a + b, r)
  {
    assert r.Some? ==> a + (b + r.value) == a + b + r.value;
  }

  lemma ThenNothing(r: Option<Bytes>)
    ensures Then([], r) == r
  {
    assert r.Some? ==> [] + r.value == r.value;
  }

  lemma {:induction false} BlocksBack(c: Codec, x: Bytes, rest: Bytes, d: Bytes, r: Option<Bytes>)
    requires Works(c) && d == Blocks(c, x) + rest && r == Decode(c, rest, true)
    ensures Decode(c, d, true) == Then(x, r)
    decreases |x|
  {
    if x == [] {
      assert d == rest;
      ThenNothing(r);
    } else {
      var n := if |x| < BLOCK then |x| else BLOCK;
      var more := Blocks(c, x[n..]) + rest;
      BlocksBack(c, x[n..], rest, more, r);
      Assoc(OneBlock(c, x[..n]), Blocks(c, x[n..]), rest);
      BlockBack(c, x[..n], more, d, Then(x[n..], r));
      ThenThen(x[..n], x[n..], r);
      assert x[..n] + x[n..] == x;
    }
  }

  lemma FrameSlices(body: Bytes, rest: Bytes, d: Bytes)
    requires d == MAGIC + body + rest
    ensures |d| >= 4 && d[..4] == MAGIC && d[4..] == body + rest
  {
  }

  /** A frame in front of anything that is nothing or starts with a frame. */
  lemma FrameBack(c: Codec, x: Bytes, rest: Bytes, inside: bool, d: Bytes, r: Option<Bytes>)
    requires Works(c) && d == Encode(c, x) + rest && r == Decode(c, rest, true)
    ensures Decode(c, d, inside) == Then(x, r)
  {
    FrameSlices(Blocks(c, x), rest, d);
    BlocksBack(c, x, rest, d[4..], r);
  }

  function EncodeAll(c: Codec, xs: seq<Bytes>): Bytes { if xs == [] then [] else Encode(c, xs[0]) + EncodeAll(c, xs[1..]) }

  function Concat(xs: seq<Bytes>): Bytes { if xs == [] then [] else xs[0] + Concat(xs[1..]) }

  /** Segments appended one after another decode to their data one after another. */
  lemma {:induction false} SegmentsBack(c: Codec, xs: seq<Bytes>, inside: bool)
    requires Works(c)
    ensures Decode(c, EncodeAll(c, xs), inside) == Some(Concat(xs))
    decreases |xs|
  {
    if xs != [] {
      SegmentsBack(c, xs[1..], true);
      FrameBack(c, xs[0], EncodeAll(c, xs[1..]), inside, EncodeAll(c, xs), Some(Concat(xs[1..])));
    }
  }

  // ---- the programs

  /** `lz4_legacy`, where it frames the blocks itself. */
  method EncodeRun(c: Codec, d: Bytes) returns (out: Bytes)
    ensures out == Encode(c, d)
  {
    out := MAGIC;
    var i := 0;
    assert d[0..] == d;
    while i < |d|
      invariant 0 <= i <= |d| && out + Blocks(c, d[i..]) == Encode(c, d)
    {
      var n := if |d| - i < BLOCK then |d| - i else BLOCK;
      assert d[i..][..n] == d[i..i + n] && d[i..][n..] == d[i + n..];
      Assoc(out, OneBlock(c, d[i..i + n]), Blocks(c, d[i + n..]));
      out := out + OneBlock(c, d[i..i + n]);
      i := i + n;
    }
    assert Blocks(c, d[i..]) == [] && out + [] == out;
  }

  /** `unlz4_legacy`, where it reads the frames itself. */
  method DecodeRun(c: Codec, d: Bytes) returns (r: Option<Bytes>)
    ensures r == Decode(c, d, false)
  {
    var out: Bytes := [];
    var rest := d;
    assert Decode(c, d, false).Some? ==> [] + Decode(c, d, false).value == Decode(c, d, false).value;
    ghost var inside := false;
    while rest != []
      invariant Decode(c, d, false) == Then(out, Decode(c, rest, inside))
      invariant inside ==> |rest| < 4 || rest[..4] == MAGIC
      decreases |rest|
    {
      if |rest| < 4 || rest[..4] != MAGIC {
        return None;
      }
      ghost var before := |rest|;
      rest := rest[4..];
      inside := true;
      while |rest| >= 4 && rest[..4] != MAGIC
        invariant |rest| < before
        invariant Decode(c, d, false) == Then(out, Decode(c, rest, true))
        decreases |rest|
      {
        var n := LE(rest[..4]);
        var x := c.decompress(Take(rest[4..], n));
        if x.None? {
          return None;
        }
        ThenThen(out, x.value, Decode(c, Drop(rest[4..], n), true));
        out := out + x.value;
        rest := Drop(rest[4..], n);
      }
    }
    assert out + [] == out;
    r := Some(out);
  }
}
