/** `GPT.set_end` as a function on bytes, and what it keeps (tools/resize-last-partition.py:120-137). */
module GptEdit {
  import opened Bytes
  import opened Gpt

  /** One copy of the table in a buffer: a header of `hsize` bytes at `h`, its array of `n` bytes at `e`, and inside the
      array the 8-byte field at `f`. */
  predicate Placed(size: nat, h: nat, hsize: nat, e: nat, n: nat, f: nat) {
    && HEADER <= hsize && h + hsize <= size && e + n <= size
    && (h + hsize <= e || e + n <= h)
    && e <= f && f + 8 <= e + n
  }

  /** The header seals itself and its array. */
  predicate Sealed(crc: Crc, buf: Bytes, h: nat, hsize: nat, e: nat, n: nat) {
    && HEADER <= hsize && h + hsize <= |buf| && e + n <= |buf|
    && crc(Covered(buf, h, hsize)) == Field(buf, h + 16, 4)
    && crc(buf[e..e + n]) == Field(buf, h + 88, 4)
  }

  /** A byte an edit of the field at `f` may change. */
  predicate Editable(h: nat, f: nat, i: int) {
    f <= i < f + 8 || h + 16 <= i < h + 20 || h + 88 <= i < h + 92
  }

  /** The bytes `a` and `b` of one size agree wherever an edit may not reach. */
  ghost predicate SameElsewhere(a: Bytes, b: Bytes, h: nat, f: nat) {
    |a| == |b| && forall i :: 0 <= i < |a| && !Editable(h, f, i) ==> a[i] == b[i]
  }

  /** Both CRCs of a copy written again, the array's CRC given. */
  function Resealed(crc: Crc, buf: Bytes, h: nat, hsize: nat, ecrc: Word32): (r: Bytes)
    requires HEADER <= hsize && h + hsize <= |buf|
    ensures |r| == |buf|
  {
    var b := Unsealed(buf, h, ecrc);
    Put(b, h + 16, ToLE(crc(b[h..h + hsize]), 4))
  }

  /** One copy with the field set and both CRCs renewed. */
  function EditCopy(crc: Crc, buf: Bytes, h: nat, hsize: nat, e: nat, n: nat, f: nat, v: nat): (r: Bytes)
    requires Placed(|buf|, h, hsize, e, n, f)
    ensures |r| == |buf|
  {
    var b := Put(buf, f, ToLE(v, 8));
    Resealed(crc, b, h, hsize, crc(b[e..e + n]))
  }

  lemma FieldOf(buf: Bytes, o: nat, v: nat, k: nat)
    requires o + k <= |buf| && buf[o..o + k] == ToLE(v, k) && v < Pow256(k)
    ensures Field(buf, o, k) == v
  {
    LERoundTrip(v, k);
  }

  lemma SameSlice(a: Bytes, b: Bytes, lo: nat, hi: nat)
    requires |a| == |b| && lo <= hi <= |a| && forall i :: lo <= i < hi ==> a[i] == b[i]
    ensures a[lo..hi] == b[lo..hi]
  {
  }

  /** The buffer both CRC fields are written over: the array's CRC set, the header's zero. */
  function Unsealed(buf: Bytes, h: nat, ecrc: Word32): (r: Bytes)
    requires h + HEADER <= |buf|
    ensures |r| == |buf|
  {
    Put(Put(buf, h + 88, ToLE(ecrc, 4)), h + 16, Zeros(4))
  }

  lemma UnsealedFacts(buf: Bytes, h: nat, ecrc: Word32)
    requires h + HEADER <= |buf|
    ensures var b := Unsealed(buf, h, ecrc);
            && b[h + 88..h + 92] == ToLE(ecrc, 4) && b[h + 16..h + 20] == Zeros(4)
            && forall i :: 0 <= i < |buf| && !(h + 16 <= i < h + 20) && !(h + 88 <= i < h + 92) ==> b[i] == buf[i]
  {
    var b0 := Put(buf, h + 88, ToLE(ecrc, 4));
    PutFacts(buf, h + 88, ToLE(ecrc, 4));
    PutFacts(b0, h + 16, Zeros(4));
    SameSlice(b0, Unsealed(buf, h, ecrc), h + 88, h + 92);
  }

  /** Writing the header's CRC over its zeros does not change what the CRC covers. */
  lemma CoveredAfter(b: Bytes, h: nat, hsize: nat, v: Bytes)
    requires HEADER <= hsize && h + hsize <= |b| && |v| == 4 && b[h + 16..h + 20] == Zeros(4)
    ensures Covered(Put(b, h + 16, v), h, hsize) == b[h..h + hsize]
  {
    var r := Put(b, h + 16, v);
    PutFacts(b, h + 16, v);
    PutFacts(r[h..h + hsize], 16, Zeros(4));
    var c := Covered(r, h, hsize);
    forall i | 0 <= i < hsize
      ensures c[i] == b[h..h + hsize][i]
    {
      if 16 <= i < 20 {
        assert c[i] == c[16..20][i - 16] == b[h + 16..h + 20][i - 16];
      }
    }
  }

  lemma SealedBy(crc: Crc, buf: Bytes, b: Bytes, r: Bytes, h: nat, hsize: nat, e: nat, n: nat, ecrc: Word32, c: Word32)
    requires HEADER <= hsize && h + hsize <= |buf| && e + n <= |buf| && (h + hsize <= e || e + n <= h)
    requires |b| == |buf| == |r| && ecrc == crc(buf[e..e + n]) && c == crc(b[h..h + hsize])
    requires b[h + 88..h + 92] == ToLE(ecrc, 4) && r[h + 16..h + 20] == ToLE(c, 4)
    requires forall i :: 0 <= i < |buf| && !(h + 16 <= i < h + 20) && !(h + 88 <= i < h + 92) ==> b[i] == buf[i]
    requires forall i :: 0 <= i < |b| && !(h + 16 <= i < h + 20) ==> r[i] == b[i]
    requires Covered(r, h, hsize) == b[h..h + hsize]
    ensures Sealed(crc, r, h, hsize, e, n)
  {
    Widths();
    FieldOf(r, h + 16, c, 4);
    SameSlice(b, r, h + 88, h + 92);
    FieldOf(r, h + 88, ecrc, 4);
    SameSlice(buf, r, e, e + n);
  }

  lemma ResealedHolds(crc: Crc, buf: Bytes, h: nat, hsize: nat, e: nat, n: nat, r: Bytes)
    requires HEADER <= hsize && h + hsize <= |buf| && e + n <= |buf| && (h + hsize <= e || e + n <= h)
    requires r == Resealed(crc, buf, h, hsize, crc(buf[e..e + n]))
    ensures Sealed(crc, r, h, hsize, e, n)
    ensures forall i :: 0 <= i < |buf| && !(h + 16 <= i < h + 20) && !(h + 88 <= i < h + 92) ==> r[i] == buf[i]
  {
    var ecrc := crc(buf[e..e + n]);
    var b := Unsealed(buf, h, ecrc);
    UnsealedFacts(buf, h, ecrc);
    var c := crc(b[h..h + hsize]);
    PutFacts(b, h + 16, ToLE(c, 4));
    CoveredAfter(b, h, hsize, ToLE(c, 4));
    SealedBy(crc, buf, b, r, h, hsize, e, n, ecrc, c);
  }

  /** `r` is `buf` with `v` in the field, both CRCs renewed, and nothing else changed. */
  ghost predicate EditedCopy(crc: Crc, buf: Bytes, h: nat, hsize: nat, e: nat, n: nat, f: nat, v: nat, r: Bytes) {
    && Placed(|buf|, h, hsize, e, n, f) && SameElsewhere(buf, r, h, f)
    && Sealed(crc, r, h, hsize, e, n) && Field(r, f, 8) == v
  }

  /** The edit is local: the field, and the two CRC fields of the header. And the copy is sealed again. */
  lemma EditCopyHolds(crc: Crc, buf: Bytes, h: nat, hsize: nat, e: nat, n: nat, f: nat, v: nat, r: Bytes)
    requires Placed(|buf|, h, hsize, e, n, f) && v < TWO64 && r == EditCopy(crc, buf, h, hsize, e, n, f, v)
    ensures EditedCopy(crc, buf, h, hsize, e, n, f, v, r)
  {
    var b := Put(buf, f, ToLE(v, 8));
    PutFacts(buf, f, ToLE(v, 8));
    ResealedHolds(crc, b, h, hsize, e, n, r);
    Widths();
    SameSlice(b, r, f, f + 8);
    FieldOf(r, f, v, 8);
  }

  // ---- torn writes

  /** Each byte of `m` is that of `a` or that of `b`: what a write of `b` over `a` can leave when it is cut short. */
  ghost predicate Mix(a: Bytes, b: Bytes, m: Bytes) {
    |a| == |b| == |m| && forall i :: 0 <= i < |m| ==> m[i] == a[i] || m[i] == b[i]
  }

  lemma CoveredSame(a: Bytes, b: Bytes, h: nat, hsize: nat)
    requires HEADER <= hsize && h + hsize <= |a| && |a| == |b|
    requires forall i :: h <= i < h + hsize && !(h + 16 <= i < h + 20) ==> a[i] == b[i]
    ensures Covered(a, h, hsize) == Covered(b, h, hsize)
  {
    PutFacts(a[h..h + hsize], 16, Zeros(4));
    PutFacts(b[h..h + hsize], 16, Zeros(4));
    var x, y := Covered(a, h, hsize), Covered(b, h, hsize);
    forall i | 0 <= i < hsize
      ensures x[i] == y[i]
    {
      if 16 <= i < 20 {
        assert x[i] == x[16..20][i - 16] && y[i] == y[16..20][i - 16];
      }
    }
  }

  lemma SameField(a: Bytes, b: Bytes, o: nat, k: nat)
    requires o + k <= |a| && |a| == |b| && Field(a, o, k) == Field(b, o, k)
    ensures forall i :: o <= i < o + k ==> a[i] == b[i]
  {
    LEInjective(a[o..o + k], b[o..o + k]);
    assert forall i :: o <= i < o + k ==> a[i] == a[o..o + k][i - o] && b[i] == b[o..o + k][i - o];
  }

  /** A mix of two sealed copies that differ only by such an edit, itself sealed and with `b`'s value in the field, is
      `b`: the field fixes the array, the array its CRC, and that the header's. Whatever function `crc` is. */
  lemma MixIsWhole(crc: Crc, a: Bytes, b: Bytes, m: Bytes, h: nat, hsize: nat, e: nat, n: nat, f: nat)
    requires Placed(|a|, h, hsize, e, n, f) && SameElsewhere(a, b, h, f) && Mix(a, b, m)
    requires Sealed(crc, b, h, hsize, e, n) && Sealed(crc, m, h, hsize, e, n)
    requires Field(m, f, 8) == Field(b, f, 8)
    ensures m == b
  {
    SameField(m, b, f, 8);
    SameSlice(m, b, e, e + n);
    SameField(m, b, h + 88, 4);
    CoveredSame(m, b, h, hsize);
    SameField(m, b, h + 16, 4);
  }
}
