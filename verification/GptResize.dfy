/** The whole resize: both copies edited, read back, and the partitions still apart
    (tools/resize-last-partition.py:98-137, 163-202). */
module GptResize {
  import opened Bytes
  import opened Gpt
  import opened GptEdit

  /** Where in the entry array the last LBA of entry `index` is. */
  function EndOff(esize: nat, index: nat): nat {
    index * esize + 40
  }

  lemma EndOffInside(l: Layout, index: nat)
    requires l.bytes == l.ph.nents * l.ph.esize && l.ph.esize >= 128 && index < l.ph.nents
    ensures EndOff(l.ph.esize, index) + 8 <= l.bytes
  {
    EntryInside(l.ph.esize, l.ph.nents, index);
  }

  /** The LBA of the block that ends with 512-byte sector `newLast`. */
  function EndLba(newLast: int, lbs: nat): int
    requires BlockSize(lbs)
  {
    (newLast + 1) / PerBlock(lbs) - 1
  }

  /** Both copies hold the 8-byte field at `off` of their arrays. */
  predicate BothPlaced(head: Bytes, tail: Bytes, lbs: nat, l: Layout, off: nat) {
    && l.bOff >= 0
    && Placed(|head|, lbs, l.ph.hsize, l.pOff, l.bytes, l.pOff + off)
    && Placed(|tail|, l.bhOff, l.bh.hsize, l.bOff, l.bytes, l.bOff + off)
  }

  /** The sizes a layout's headers give. */
  predicate Consistent(l: Layout, lbs: nat) {
    l.bytes == l.ph.nents * l.ph.esize && l.pOff == l.ph.entriesLba * lbs
  }

  /** What `_parse` establishes, fact by fact. */
  ghost predicate Table(crc: Crc, head: Bytes, tail: Bytes, sectors: nat, lbs: nat, l: Layout) {
    && BlockSize(lbs) && sectors % PerBlock(lbs) == 0 && lbs <= |tail|
    && l.bOff >= 0 && l.bhOff == |tail| - lbs && l.bOff + l.bytes == l.bhOff && l.pOff + l.bytes <= |head|
    && HeaderValid(crc, head, lbs) && HeaderValid(crc, tail, l.bhOff)
    && l.ph == HeaderAt(head, lbs) && l.bh == HeaderAt(tail, l.bhOff)
    && l.ph.first == l.bh.first && l.ph.last == l.bh.last && l.ph.nents == l.bh.nents && l.ph.esize == l.bh.esize
    && l.ph.cur == 1 && l.bh.cur == sectors / PerBlock(lbs) - 1
    && ArrayValid(crc, head, l.pOff, l.bytes, l.ph.ecrc) && ArrayValid(crc, tail, l.bOff, l.bytes, l.bh.ecrc)
    && Consistent(l, lbs)
  }

  lemma ParseIsTable(crc: Crc, head: Bytes, tail: Bytes, sectors: nat, lbs: nat, l: Layout)
    requires BlockSize(lbs)
    ensures Parse(crc, head, tail, sectors, lbs) == Some(l) <==> Table(crc, head, tail, sectors, lbs, l)
  {
  }

  /** What `set_end` is called with: a table that was read, and the place of an entry's field in its arrays. */
  ghost predicate Editing(crc: Crc, head: Bytes, tail: Bytes, sectors: nat, lbs: nat, l: Layout, off: nat) {
    Table(crc, head, tail, sectors, lbs, l) && WellFormed(l, lbs) && off + 8 <= l.bytes
  }

  lemma EditingPlaces(crc: Crc, head: Bytes, tail: Bytes, sectors: nat, lbs: nat, l: Layout, off: nat)
    requires Editing(crc, head, tail, sectors, lbs, l, off)
    ensures BothPlaced(head, tail, lbs, l, off)
  {
  }

  /** `set_end`: None where it exits (the sector is not the last of a block, or the two edited arrays differ in CRC). */
  function SetEnd(crc: Crc, head: Bytes, tail: Bytes, lbs: nat, l: Layout, off: nat, newLast: int): Option<(Bytes, Bytes)>
    requires BlockSize(lbs) && BothPlaced(head, tail, lbs, l, off)
    requires (newLast + 1) % PerBlock(lbs) == 0 ==> 0 <= EndLba(newLast, lbs) < TWO64
  {
    if (newLast + 1) % PerBlock(lbs) != 0 then None
    else
      var v := ToLE(EndLba(newLast, lbs), 8);
      var h1 := Put(head, l.pOff + off, v);
      var t1 := Put(tail, l.bOff + off, v);
      if crc(h1[l.pOff..l.pOff + l.bytes]) != crc(t1[l.bOff..l.bOff + l.bytes]) then None
      else Some((EditCopy(crc, head, lbs, l.ph.hsize, l.pOff, l.bytes, l.pOff + off, EndLba(newLast, lbs)),
                 EditCopy(crc, tail, l.bhOff, l.bh.hsize, l.bOff, l.bytes, l.bOff + off, EndLba(newLast, lbs))))
  }

  /** The steps of `set_end` on two buffers come to `SetEnd`. */
  lemma SetEndSteps(crc: Crc, head: Bytes, tail: Bytes, lbs: nat, l: Layout, off: nat, newLast: int, v: nat, h1: Bytes, t1: Bytes,
                    hc: Word32, tc: Word32, r: Option<(Bytes, Bytes)>)
    requires BlockSize(lbs) && BothPlaced(head, tail, lbs, l, off) && v == EndLba(newLast, lbs) && v < TWO64
    requires (newLast + 1) % PerBlock(lbs) == 0 && r == SetEnd(crc, head, tail, lbs, l, off, newLast)
    requires h1 == Put(head, l.pOff + off, ToLE(v, 8)) && hc == crc(h1[l.pOff..l.pOff + l.bytes])
    requires t1 == Put(tail, l.bOff + off, ToLE(v, 8)) && tc == crc(t1[l.bOff..l.bOff + l.bytes])
    ensures hc == tc <==> r.Some?
    ensures hc == tc ==> r.value.0 == EditCopy(crc, head, lbs, l.ph.hsize, l.pOff, l.bytes, l.pOff + off, v)
    ensures hc == tc ==> r.value.1 == EditCopy(crc, tail, l.bhOff, l.bh.hsize, l.bOff, l.bytes, l.bOff + off, v)
  {
  }

  lemma EditCopyIs(crc: Crc, buf: Bytes, h: nat, hsize: nat, e: nat, n: nat, f: nat, v: nat, b: Bytes, k: Word32)
    requires Placed(|buf|, h, hsize, e, n, f) && v < TWO64 && b == Put(buf, f, ToLE(v, 8)) && k == crc(b[e..e + n])
    ensures EditCopy(crc, buf, h, hsize, e, n, f, v) == Resealed(crc, b, h, hsize, k)
  {
  }

  /** A header whose CRC fields alone changed. */
  lemma HeaderStays(a: Bytes, b: Bytes, h: nat, f: nat)
    requires SameElsewhere(a, b, h, f) && h + HEADER <= |a| && (f + 8 <= h || h + HEADER <= f)
    ensures var ha, hb := HeaderAt(a, h), HeaderAt(b, h);
            hb == ha.(hcrc := hb.hcrc, ecrc := hb.ecrc) && b[h..h + 8] == a[h..h + 8]
  {
    SameSlice(a, b, h, h + 8);
    SameSlice(a, b, h + 12, h + 16);
    SameSlice(a, b, h + 24, h + 32);
    SameSlice(a, b, h + 40, h + 48);
    SameSlice(a, b, h + 48, h + 56);
    SameSlice(a, b, h + 72, h + 80);
    SameSlice(a, b, h + 80, h + 84);
    SameSlice(a, b, h + 84, h + 88);
  }

  /** The layout with the CRCs of edited copies. */
  function WithCrcs(l: Layout, head: Bytes, tail: Bytes, lbs: nat): Layout
    requires lbs + HEADER <= |head| && l.bhOff + HEADER <= |tail|
  {
    var p, b := HeaderAt(head, lbs), HeaderAt(tail, l.bhOff);
    l.(ph := l.ph.(hcrc := p.hcrc, ecrc := p.ecrc), bh := l.bh.(hcrc := b.hcrc, ecrc := b.ecrc))
  }

  /** A sealed copy that agrees with a valid one but for an edit is valid. */
  lemma CopyStays(crc: Crc, a: Bytes, b: Bytes, h: nat, hsize: nat, e: nat, n: nat, f: nat)
    requires Placed(|a|, h, hsize, e, n, f) && SameElsewhere(a, b, h, f) && Sealed(crc, b, h, hsize, e, n)
    requires HeaderValid(crc, a, h) && HeaderAt(a, h).hsize == hsize
    ensures HeaderValid(crc, b, h) && ArrayValid(crc, b, e, n, HeaderAt(b, h).ecrc)
    ensures var ha, hb := HeaderAt(a, h), HeaderAt(b, h); hb == ha.(hcrc := hb.hcrc, ecrc := hb.ecrc)
  {
    HeaderStays(a, b, h, f);
  }

  /** `h'` and `t'` are the two copies after an edit of the field at `off` of their arrays to `v`. */
  ghost predicate Edited(crc: Crc, head: Bytes, tail: Bytes, lbs: nat, l: Layout, off: nat, v: nat, h': Bytes, t': Bytes) {
    && l.bOff >= 0
    && EditedCopy(crc, head, lbs, l.ph.hsize, l.pOff, l.bytes, l.pOff + off, v, h')
    && EditedCopy(crc, tail, l.bhOff, l.bh.hsize, l.bOff, l.bytes, l.bOff + off, v, t')
  }

  /** Edited copies of a table are a table of the same layout. */
  lemma EditedIsTable(crc: Crc, head: Bytes, tail: Bytes, sectors: nat, lbs: nat, l: Layout, off: nat, v: nat,
                      h': Bytes, t': Bytes, l': Layout)
    requires Editing(crc, head, tail, sectors, lbs, l, off) && Edited(crc, head, tail, lbs, l, off, v, h', t')
    requires l' == WithCrcs(l, h', t', lbs)
    ensures Table(crc, h', t', sectors, lbs, l')
  {
    CopyStays(crc, head, h', lbs, l.ph.hsize, l.pOff, l.bytes, l.pOff + off);
    CopyStays(crc, tail, t', l.bhOff, l.bh.hsize, l.bOff, l.bytes, l.bOff + off);
  }

  lemma SetEndEdits(crc: Crc, head: Bytes, tail: Bytes, lbs: nat, l: Layout, off: nat, newLast: int, h': Bytes, t': Bytes)
    requires BlockSize(lbs) && BothPlaced(head, tail, lbs, l, off) && 0 <= EndLba(newLast, lbs) < TWO64
    requires SetEnd(crc, head, tail, lbs, l, off, newLast) == Some((h', t'))
    ensures Edited(crc, head, tail, lbs, l, off, EndLba(newLast, lbs), h', t')
  {
    HeadEdited(crc, head, tail, lbs, l, off, newLast, EndLba(newLast, lbs), h', t');
    TailEdited(crc, head, tail, lbs, l, off, newLast, EndLba(newLast, lbs), h', t');
  }

  lemma SetEndCopies(crc: Crc, head: Bytes, tail: Bytes, lbs: nat, l: Layout, off: nat, newLast: int, v: nat, h': Bytes, t': Bytes)
    requires BlockSize(lbs) && BothPlaced(head, tail, lbs, l, off) && v == EndLba(newLast, lbs) && v < TWO64
    requires SetEnd(crc, head, tail, lbs, l, off, newLast) == Some((h', t'))
    ensures h' == EditCopy(crc, head, lbs, l.ph.hsize, l.pOff, l.bytes, l.pOff + off, v)
    ensures t' == EditCopy(crc, tail, l.bhOff, l.bh.hsize, l.bOff, l.bytes, l.bOff + off, v)
  {
  }

  lemma HeadEdited(crc: Crc, head: Bytes, tail: Bytes, lbs: nat, l: Layout, off: nat, newLast: int, v: nat, h': Bytes, t': Bytes)
    requires BlockSize(lbs) && BothPlaced(head, tail, lbs, l, off) && v == EndLba(newLast, lbs) && v < TWO64
    requires SetEnd(crc, head, tail, lbs, l, off, newLast) == Some((h', t'))
    ensures EditedCopy(crc, head, lbs, l.ph.hsize, l.pOff, l.bytes, l.pOff + off, v, h')
  {
    SetEndCopies(crc, head, tail, lbs, l, off, newLast, v, h', t');
    EditCopyHolds(crc, head, lbs, l.ph.hsize, l.pOff, l.bytes, l.pOff + off, v, h');
  }

  lemma TailEdited(crc: Crc, head: Bytes, tail: Bytes, lbs: nat, l: Layout, off: nat, newLast: int, v: nat, h': Bytes, t': Bytes)
    requires BlockSize(lbs) && BothPlaced(head, tail, lbs, l, off) && v == EndLba(newLast, lbs) && v < TWO64
    requires SetEnd(crc, head, tail, lbs, l, off, newLast) == Some((h', t'))
    ensures EditedCopy(crc, tail, l.bhOff, l.bh.hsize, l.bOff, l.bytes, l.bOff + off, v, t')
  {
    SetEndCopies(crc, head, tail, lbs, l, off, newLast, v, h', t');
    EditCopyHolds(crc, tail, l.bhOff, l.bh.hsize, l.bOff, l.bytes, l.bOff + off, v, t');
  }

  /** What `set_end` gives differs from the old table only in the 8 bytes of the field and the CRC fields of the headers,
      and is accepted again, with the same layout. */
  lemma SetEndValidAndLocal(crc: Crc, head: Bytes, tail: Bytes, sectors: nat, lbs: nat, l: Layout, off: nat, newLast: int,
                            h': Bytes, t': Bytes)
    requires Editing(crc, head, tail, sectors, lbs, l, off) && 0 <= EndLba(newLast, lbs) < TWO64
    requires BothPlaced(head, tail, lbs, l, off) && SetEnd(crc, head, tail, lbs, l, off, newLast) == Some((h', t'))
    ensures Edited(crc, head, tail, lbs, l, off, EndLba(newLast, lbs), h', t')
    ensures Parse(crc, h', t', sectors, lbs) == Some(WithCrcs(l, h', t', lbs))
  {
    SetEndEdits(crc, head, tail, lbs, l, off, newLast, h', t');
    EditedIsTable(crc, head, tail, sectors, lbs, l, off, EndLba(newLast, lbs), h', t', WithCrcs(l, h', t', lbs));
    ParseIsTable(crc, h', t', sectors, lbs, WithCrcs(l, h', t', lbs));
  }

  /** With equal arrays, `set_end` exits only for a sector that ends no block. */
  lemma SetEndSucceeds(crc: Crc, head: Bytes, tail: Bytes, lbs: nat, l: Layout, off: nat, newLast: int)
    requires BlockSize(lbs) && BothPlaced(head, tail, lbs, l, off) && 0 <= EndLba(newLast, lbs) < TWO64
    requires SameArray(head, tail, l)
    ensures SetEnd(crc, head, tail, lbs, l, off, newLast).Some? <==> (newLast + 1) % PerBlock(lbs) == 0
  {
    SameArrays(head, tail, l.pOff, l.bOff, l.bytes, off, ToLE(EndLba(newLast, lbs), 8));
  }

  /** The two copies hold the same array. */
  predicate SameArray(head: Bytes, tail: Bytes, l: Layout) {
    && l.bOff >= 0 && l.pOff + l.bytes <= |head| && l.bOff + l.bytes <= |tail|
    && head[l.pOff..l.pOff + l.bytes] == tail[l.bOff..l.bOff + l.bytes]
  }

  /** One edit of two equal arrays leaves them equal. */
  lemma SameArrays(a: Bytes, b: Bytes, ea: nat, eb: nat, n: nat, off: nat, v: Bytes)
    requires ea + n <= |a| && eb + n <= |b| && a[ea..ea + n] == b[eb..eb + n] && off + |v| <= n
    ensures Put(a, ea + off, v)[ea..ea + n] == Put(b, eb + off, v)[eb..eb + n]
  {
    PutInside(a, ea, n, off, v);
    PutInside(b, eb, n, off, v);
  }

  /** An edit inside a slice is an edit of the slice. */
  lemma {:induction false} PutInside(a: Bytes, e: nat, n: nat, off: nat, v: Bytes)
    requires e + n <= |a| && off + |v| <= n
    ensures Put(a, e + off, v)[e..e + n] == Put(a[e..e + n], off, v)
    decreases |v|
  {
    if v != [] {
      PutInside(a[e + off := v[0]], e, n, off + 1, v[1..]);
      assert a[e + off := v[0]][e..e + n] == a[e..e + n][off := v[0]];
    }
  }
}
