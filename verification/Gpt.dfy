/** The GUID partition table as tools/resize-last-partition.py reads and edits it: two copies of a header (section 5.3.2
    of the UEFI Specification) and an entry array (section 5.3.3), each header holding the CRC32 of its array and its
    own. CRC32 is a parameter: nothing here depends on which function it is. */
module Gpt {
  import opened Bytes

  type Word32 = n: int | 0 <= n < 0x1_0000_0000
  type Crc = Bytes -> Word32

  // ---- little-endian fields

  function LE(b: Bytes): nat {
    if b == [] then 0 else b[0] + 256 * LE(b[1..])
  }

  function ToLE(n: nat, k: nat): (r: Bytes)
    ensures |r| == k
  {
    if k == 0 then [] else [n % 256] + ToLE(n / 256, k - 1)
  }

  function Pow256(k: nat): (r: nat)
    ensures r > 0
  {
    if k == 0 then 1 else 256 * Pow256(k - 1)
  }

  lemma {:induction false} LEBound(b: Bytes)
    ensures LE(b) < Pow256(|b|)
  {
    if b != [] {
      LEBound(b[1..]);
    }
  }

  lemma {:induction false} LERoundTrip(n: nat, k: nat)
    requires n < Pow256(k)
    ensures LE(ToLE(n, k)) == n
  {
    if k > 0 {
      LERoundTrip(n / 256, k - 1);
      assert ToLE(n, k)[1..] == ToLE(n / 256, k - 1);
    }
  }

  lemma {:induction false} LEInjective(a: Bytes, b: Bytes)
    requires |a| == |b| && LE(a) == LE(b)
    ensures a == b
  {
    if a != [] {
      assert a[0] - b[0] == 256 * (LE(b[1..]) - LE(a[1..]));
      LEInjective(a[1..], b[1..]);
      assert a == [a[0]] + a[1..] && b == [b[0]] + b[1..];
    }
  }

  lemma Widths()
    ensures Pow256(4) == TWO32 && Pow256(8) == TWO64
  {
    assert Pow256(4) == 256 * (256 * (256 * (256 * Pow256(0))));
    assert Pow256(8) == 256 * (256 * (256 * (256 * Pow256(4))));
  }

  /** struct.pack_into: `v` over the bytes of `buf` from `o` on. */
  function Put(buf: Bytes, o: nat, v: Bytes): (r: Bytes)
    requires o + |v| <= |buf|
    ensures |r| == |buf|
    decreases |v|
  {
    if v == [] then buf else Put(buf[o := v[0]], o + 1, v[1..])
  }

  lemma {:induction false} PutFacts(buf: Bytes, o: nat, v: Bytes)
    requires o + |v| <= |buf|
    ensures var r := Put(buf, o, v);
            r[o..o + |v|] == v && forall i :: 0 <= i < |buf| && !(o <= i < o + |v|) ==> r[i] == buf[i]
    decreases |v|
  {
    if v != [] {
      PutFacts(buf[o := v[0]], o + 1, v[1..]);
      assert Put(buf, o, v)[o..o + |v|] == [v[0]] + Put(buf, o, v)[o + 1..o + |v|];
    }
  }

  // ---- headers

  const SIGNATURE: Bytes := [69, 70, 73, 32, 80, 65, 82, 84]    // "EFI PART"
  const HEADER: nat := 92

  datatype Header = Header(hsize: nat, hcrc: nat, cur: nat, first: nat, last: nat,
                           entriesLba: nat, nents: nat, esize: nat, ecrc: nat)

  function Field(buf: Bytes, o: nat, k: nat): nat
    requires o + k <= |buf|
  {
    LE(buf[o..o + k])
  }

  function HeaderAt(buf: Bytes, h: nat): Header
    requires h + HEADER <= |buf|
  {
    Header(Field(buf, h + 12, 4), Field(buf, h + 16, 4), Field(buf, h + 24, 8), Field(buf, h + 40, 8),
           Field(buf, h + 48, 8), Field(buf, h + 72, 8), Field(buf, h + 80, 4), Field(buf, h + 84, 4), Field(buf, h + 88, 4))
  }

  /** The `hsize` bytes a header's CRC covers: its own CRC field counts as zero. */
  function Covered(buf: Bytes, h: nat, hsize: nat): Bytes
    requires 20 <= hsize && h + hsize <= |buf|
  {
    Put(buf[h..h + hsize], 16, Zeros(4))
  }

  /** `_check_hdr`: the signature and the header's CRC. The last test stands for the exceptions of `struct`. */
  predicate HeaderValid(crc: Crc, buf: Bytes, h: nat) {
    && h + HEADER <= |buf|
    && buf[h..h + 8] == SIGNATURE
    && var hd := HeaderAt(buf, h);
       var size := if h + hd.hsize <= |buf| then hd.hsize else |buf| - h;
       20 <= size && crc(Covered(buf, h, size)) == hd.hcrc
  }

  // ---- the table

  /** Where everything is, from the two headers. */
  datatype Layout = Layout(ph: Header, bh: Header, bhOff: nat, pOff: nat, bOff: int, bytes: nat)

  predicate BlockSize(lbs: nat) { lbs == 512 || lbs == 4096 }

  /** The 512-byte sectors of a logical block. */
  function PerBlock(lbs: nat): nat
    requires BlockSize(lbs)
  {
    if lbs == 512 then 1 else 8
  }

  function LayoutOf(ph: Header, bh: Header, bhOff: nat, lbs: nat): Layout {
    var bytes := ph.nents * ph.esize;
    Layout(ph, bh, bhOff, ph.entriesLba * lbs, bhOff - bytes, bytes)
  }

  /** `GPT.__init__` and `_parse`: None where the tool refuses the table. */
  function Parse(crc: Crc, head: Bytes, tail: Bytes, sectors: nat, lbs: nat): Option<Layout>
    requires BlockSize(lbs)
  {
    var k := PerBlock(lbs);
    if sectors % k != 0 || |tail| < lbs then None
    else
      var bhOff := |tail| - lbs;
      if !HeaderValid(crc, head, lbs) || !HeaderValid(crc, tail, bhOff) then None
      else
        var ph, bh := HeaderAt(head, lbs), HeaderAt(tail, bhOff);
        var l := LayoutOf(ph, bh, bhOff, lbs);
        if ph.first != bh.first || ph.last != bh.last || ph.nents != bh.nents || ph.esize != bh.esize then None
        else if ph.cur != 1 || bh.cur != sectors / k - 1 then None
        else if l.pOff + l.bytes > |head| || l.bOff < 0 then None
        else if !ArrayValid(crc, head, l.pOff, l.bytes, ph.ecrc) || !ArrayValid(crc, tail, l.bOff, l.bytes, bh.ecrc) then None
        else Some(l)
  }

  /** The array of `n` bytes at `e` has the CRC its header says. */
  predicate ArrayValid(crc: Crc, buf: Bytes, e: nat, n: nat, ecrc: nat) {
    e + n <= |buf| && crc(buf[e..e + n]) == ecrc
  }

  /** The layout section 5.3 of the UEFI Specification asks for, which the tool takes as given. */
  predicate WellFormed(l: Layout, lbs: nat) {
    && HEADER <= l.ph.hsize <= lbs && HEADER <= l.bh.hsize <= lbs
    && l.ph.esize >= 128 && l.pOff >= 2 * lbs
  }

  // ---- entries

  /** A partition in 512-byte sectors; `name` is its raw name field. */
  datatype Part = Part(index: nat, first: nat, last: int, name: Bytes)

  lemma {:induction false} EntryInside(esize: nat, nents: nat, i: nat)
    requires i < nents && esize >= 128
    ensures i * esize + 128 <= nents * esize
  {
    assert (i + 1) * esize <= nents * esize by { MulMono(i + 1, nents, esize); }
  }

  lemma {:induction false} MulMono(a: nat, b: nat, k: nat)
    requires a <= b
    ensures a * k <= b * k
  {
    assert b * k - a * k == (b - a) * k;
  }

  predicate Used(head: Bytes, o: nat)
    requires o + 16 <= |head|
  {
    head[o..o + 16] != Zeros(16)
  }

  function PartAt(head: Bytes, o: nat, k: nat, i: nat): Part
    requires o + 128 <= |head|
  {
    Part(i, Field(head, o + 32, 8) * k, (Field(head, o + 40, 8) + 1) * k - 1, head[o + 56..o + 128])
  }

  /** Where the `n` entries of an array at `base` start. */
  function Offsets(base: nat, esize: nat, n: nat): (r: seq<nat>)
    ensures |r| == n && forall i :: 0 <= i < n ==> r[i] == base + i * esize
  {
    seq(n, i requires 0 <= i < n => base + i * esize)
  }

  ghost predicate EntriesFit(size: nat, offs: seq<nat>) {
    forall i :: 0 <= i < |offs| ==> offs[i] + 128 <= size
  }

  lemma OffsetsFit(base: nat, esize: nat, n: nat, size: nat)
    requires esize >= 128 && base + n * esize <= size
    ensures EntriesFit(size, Offsets(base, esize, n))
  {
    forall i | 0 <= i < n
      ensures Offsets(base, esize, n)[i] + 128 <= size
    {
      EntryInside(esize, n, i);
    }
  }

  /** `entries`: the used ones among the entries at `offs`, in order. */
  function Entries(head: Bytes, offs: seq<nat>, k: nat): seq<Part>
    requires EntriesFit(|head|, offs)
  {
    if offs == [] then []
    else
      var n := |offs| - 1;
      Entries(head, offs[..n], k) + Listed(head, offs[n], k, n)
  }

  /** The entry at `o`, when it is used. */
  function Listed(head: Bytes, o: nat, k: nat, i: nat): seq<Part>
    requires o + 128 <= |head|
  {
    if Used(head, o) then [PartAt(head, o, k, i)] else []
  }
}
