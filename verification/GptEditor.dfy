/** `class GPT` of tools/resize-last-partition.py: two buffers that `set_end` edits in place. */
module GptEditor {
  import opened Bytes
  import opened Gpt
  import opened GptEdit
  import opened GptResize
  import opened GptParts

  /** struct.pack_into. */
  method PackInto(buf: array<byte>, o: nat, v: Bytes)
    requires o + |v| <= buf.Length
    modifies buf
    ensures buf[..] == Put(old(buf[..]), o, v)
  {
    forall i | 0 <= i < |v| {
      buf[o + i] := v[i];
    }
    PutFacts(old(buf[..]), o, v);
    assert forall i :: o <= i < o + |v| ==> Put(old(buf[..]), o, v)[o..o + |v|][i - o] == buf[i];
  }

  /** The loop of `entries`. */
  method ReadEntries(head: Bytes, offs: seq<nat>, k: nat) returns (es: seq<Part>)
    requires EntriesFit(|head|, offs)
    ensures es == Entries(head, offs, k)
  {
    es := [];
    var i := 0;
    while i < |offs|
      invariant 0 <= i <= |offs|
      invariant es == Entries(head, offs[..i], k)
    {
      EntriesStep(head, offs, i, k);
      es := es + Listed(head, offs[i], k, i);
      i := i + 1;
    }
    assert offs[..i] == offs;
  }

  /** `max(es, key=...)`: the first of the entries with the greatest end. */
  method LastOf(es: seq<Part>) returns (j: nat)
    requires es != []
    ensures IsLast(es, j)
  {
    j := 0;
    var i := 1;
    while i < |es|
      invariant 0 <= j < i <= |es|
      invariant forall m :: 0 <= m < i ==> es[m].last <= es[j].last
      invariant forall m :: 0 <= m < j ==> es[m].last < es[j].last
    {
      if es[i].last > es[j].last {
        j := i;
      }
      i := i + 1;
    }
  }

  /** A listed partition is an entry of the table. */
  lemma ListedFits(head: Bytes, l: Layout, lbs: nat, es: seq<Part>, j: nat)
    requires BlockSize(lbs) && Listable(head, l) && es == PartsOf(head, l, lbs) && j < |es|
    ensures es[j].index < l.ph.nents && DistinctIndices(es)
  {
    OffsetsFit(l.pOff, l.ph.esize, l.ph.nents, |head|);
    EntriesDistinctIndices(head, EntryOffsets(l), PerBlock(lbs));
  }

  /** An end after a partition's first sector and inside the usable area fits the last-LBA field. */
  lemma EndFits(head: Bytes, l: Layout, lbs: nat, first: nat, end: int)
    requires BlockSize(lbs) && lbs + HEADER <= |head| && l.ph == HeaderAt(head, lbs)
    requires first < end <= (l.ph.last + 1) * PerBlock(lbs) - 1
    ensures (end + 1) % PerBlock(lbs) == 0 ==> 0 <= EndLba(end, lbs) < TWO64
  {
    LEBound(head[lbs + 48..lbs + 56]);
    Widths();
  }

  lemma KeepsDisjoint(es: seq<Part>, j: nat, end: int, hi: int)
    requires IsLast(es, j) && DistinctIndices(es) && es[j].first < end <= hi
    ensures forall lo :: Disjoint(es, lo, hi) ==> Disjoint(Moved(es, es[j].index, end), lo, hi)
  {
    forall lo | Disjoint(es, lo, hi)
      ensures Disjoint(Moved(es, es[j].index, end), lo, hi)
    {
      ResizeKeepsDisjoint(es, j, end, lo, hi);
    }
  }

  /** `h'` and `t'` are a table again; its partitions are those of `h0`, the last one, `at`, with its end at `end`; and
      they are apart and inside the usable area if they were. */
  ghost predicate Resized(crc: Crc, h0: Bytes, sectors: nat, lbs: nat, l: Layout, name: Bytes, at: nat, end: int,
                          h': Bytes, t': Bytes)
    requires BlockSize(lbs)
  {
    && Listable(h0, l) && Listable(h', l)
    && var es, usableEnd := PartsOf(h0, l, lbs), (l.ph.last + 1) * PerBlock(lbs) - 1;
       && IsLast(es, at) && es[at].name == name && es[at].first < end <= usableEnd
       && PartsOf(h', l, lbs) == Moved(es, es[at].index, end)
       && Parse(crc, h', t', sectors, lbs).Some?
       && (forall lo :: Disjoint(es, lo, usableEnd) ==> Disjoint(PartsOf(h', l, lbs), lo, usableEnd))
  }

  /** What `main` asks before it edits: the last partition has the name, and its new end lies after its first sector and in
      the usable area. */
  ghost predicate Asked(h0: Bytes, lbs: nat, l: Layout, name: Bytes, at: nat, end: int)
    requires BlockSize(lbs)
  {
    && Listable(h0, l)
    && var es := PartsOf(h0, l, lbs);
       IsLast(es, at) && es[at].name == name && es[at].first < end <= (l.ph.last + 1) * PerBlock(lbs) - 1
  }

  /** What a resize comes to. What `main` does not ask for is refused with both buffers as they were; on equal arrays the rest
      is refused only for a sector that ends no block. */
  ghost predicate Outcome(crc: Crc, h0: Bytes, t0: Bytes, sectors: nat, lbs: nat, l: Layout, name: Bytes, at: nat, end: int, ok: bool,
                          h': Bytes, t': Bytes)
    requires BlockSize(lbs)
  {
    && (ok ==> Resized(crc, h0, sectors, lbs, l, name, at, end, h', t'))
    && (Asked(h0, lbs, l, name, at, end) || (!ok && h' == h0 && t' == t0))
    && (Asked(h0, lbs, l, name, at, end) && SameArray(h0, t0, l) ==> (ok <==> (end + 1) % PerBlock(lbs) == 0))
  }

  lemma NotAsked(crc: Crc, h0: Bytes, t0: Bytes, sectors: nat, lbs: nat, l: Layout, name: Bytes, es: seq<Part>, at: nat, end: int)
    requires BlockSize(lbs) && Listable(h0, l) && es == PartsOf(h0, l, lbs)
    requires at < |es| ==> es[at].name != name || end <= es[at].first || end > (l.ph.last + 1) * PerBlock(lbs) - 1
    ensures Outcome(crc, h0, t0, sectors, lbs, l, name, at, end, false, h0, t0)
  {
  }

  lemma MoveSucceeds(crc: Crc, head: Bytes, tail: Bytes, lbs: nat, l: Layout, off: nat, end: int)
    requires BlockSize(lbs) && BothPlaced(head, tail, lbs, l, off)
    requires (end + 1) % PerBlock(lbs) == 0 ==> 0 <= EndLba(end, lbs) < TWO64
    ensures SameArray(head, tail, l) ==> (GptResize.SetEnd(crc, head, tail, lbs, l, off, end).Some? <==> (end + 1) % PerBlock(lbs) == 0)
  {
    if SameArray(head, tail, l) && (end + 1) % PerBlock(lbs) == 0 {
      SetEndSucceeds(crc, head, tail, lbs, l, off, end);
    }
  }

  lemma ResizedFrom(crc: Crc, h0: Bytes, sectors: nat, lbs: nat, l: Layout, name: Bytes, es: seq<Part>, at: nat, end: int,
                    h': Bytes, t': Bytes)
    requires BlockSize(lbs) && Listable(h0, l) && Listable(h', l) && Parse(crc, h', t', sectors, lbs).Some?
    requires es == PartsOf(h0, l, lbs) && IsLast(es, at) && es[at].name == name && DistinctIndices(es)
    requires es[at].first < end <= (l.ph.last + 1) * PerBlock(lbs) - 1
    requires PartsOf(h', l, lbs) == Moved(es, es[at].index, end)
    ensures Resized(crc, h0, sectors, lbs, l, name, at, end, h', t')
  {
    KeepsDisjoint(es, at, end, (l.ph.last + 1) * PerBlock(lbs) - 1);
  }

  /** `set_end` gives a table again whose partitions are the old ones with one end moved. */
  lemma SetEndWhole(crc: Crc, h0: Bytes, t0: Bytes, sectors: nat, lbs: nat, l: Layout, index: nat, off: nat, end: int,
                    h': Bytes, t': Bytes)
    requires Editing(crc, h0, t0, sectors, lbs, l, off) && off == index * l.ph.esize + 40
    requires BothPlaced(h0, t0, lbs, l, off) && ((end + 1) % PerBlock(lbs) == 0 ==> 0 <= EndLba(end, lbs) < TWO64)
    requires SetEnd(crc, h0, t0, lbs, l, off, end) == Some((h', t'))
    ensures Parse(crc, h', t', sectors, lbs).Some? && Listable(h0, l) && Listable(h', l)
    ensures PartsOf(h', l, lbs) == Moved(PartsOf(h0, l, lbs), index, end)
  {
    SetEndValidAndLocal(crc, h0, t0, sectors, lbs, l, off, end, h', t');
    SetEndReadsBack(crc, h0, t0, sectors, lbs, l, index, off, end, h', t');
  }

  lemma MoveDone(crc: Crc, h0: Bytes, t0: Bytes, sectors: nat, lbs: nat, l: Layout, name: Bytes, es: seq<Part>, at: nat, off: nat,
                 end: int, h': Bytes, t': Bytes)
    requires BlockSize(lbs) && Asked(h0, lbs, l, name, at, end) && es == PartsOf(h0, l, lbs) && DistinctIndices(es)
    requires Editing(crc, h0, t0, sectors, lbs, l, off) && off == es[at].index * l.ph.esize + 40
    requires BothPlaced(h0, t0, lbs, l, off) && ((end + 1) % PerBlock(lbs) == 0 ==> 0 <= EndLba(end, lbs) < TWO64)
    requires SetEnd(crc, h0, t0, lbs, l, off, end) == Some((h', t'))
    ensures Resized(crc, h0, sectors, lbs, l, name, at, end, h', t')
  {
    SetEndWhole(crc, h0, t0, sectors, lbs, l, es[at].index, off, end, h', t');
    ResizedFrom(crc, h0, sectors, lbs, l, name, es, at, end, h', t');
  }

  class Editor {
    const crc: Crc
    const lbs: nat
    const sectors: nat
    const l: Layout
    const head: array<byte>
    const tail: array<byte>

    /** The buffers hold the table that was read. */
    ghost predicate Loaded()
      reads head, tail
    {
      head != tail && BlockSize(lbs) && Table(crc, head[..], tail[..], sectors, lbs, l)
    }

    /** `GPT.__init__`, for a table `_parse` accepts. */
    constructor (crc: Crc, head: Bytes, tail: Bytes, sectors: nat, lbs: nat)
      requires BlockSize(lbs) && Parse(crc, head, tail, sectors, lbs).Some?
      ensures Loaded() && fresh(this.head) && fresh(this.tail)
      ensures this.head[..] == head && this.tail[..] == tail && this.lbs == lbs && this.sectors == sectors && this.crc == crc
      ensures Some(l) == Parse(crc, head, tail, sectors, lbs)
    {
      this.crc, this.lbs, this.sectors := crc, lbs, sectors;
      l := Parse(crc, head, tail, sectors, lbs).value;
      var h := new byte[|head|](i requires 0 <= i < |head| => head[i]);
      var t := new byte[|tail|](i requires 0 <= i < |tail| => tail[i]);
      this.head, this.tail := h, t;
      new;
      assert h[..] == head && t[..] == tail;
      ParseIsTable(crc, head, tail, sectors, lbs, l);
    }

    /** `entries`. */
    method ListEntries() returns (es: seq<Part>)
      requires Loaded() && WellFormed(l, lbs)
      ensures es == PartsOf(head[..], l, lbs)
    {
      OffsetsFit(l.pOff, l.ph.esize, l.ph.nents, head.Length);
      es := ReadEntries(head[..], EntryOffsets(l), PerBlock(lbs));
    }

    /** `find_last`: None where it exits. */
    method FindLast() returns (r: Option<Part>)
      requires Loaded() && WellFormed(l, lbs)
      ensures r.None? <==> PartsOf(head[..], l, lbs) == []
      ensures r.Some? ==> exists j: nat :: IsLast(PartsOf(head[..], l, lbs), j) && PartsOf(head[..], l, lbs)[j] == r.value
    {
      var es := ListEntries();
      if es == [] {
        return None;
      }
      var j := LastOf(es);
      r := Some(es[j]);
    }

    /** The CRC of a copy's array written into its header, and the header's own after it. */
    method Reseal(buf: array<byte>, h: nat, hsize: nat, ecrc: Word32)
      requires HEADER <= hsize && h + hsize <= buf.Length
      modifies buf
      ensures buf[..] == Resealed(crc, old(buf[..]), h, hsize, ecrc)
    {
      PackInto(buf, h + 88, ToLE(ecrc, 4));
      PackInto(buf, h + 16, Zeros(4));
      assert buf[h..h + hsize] == buf[..][h..h + hsize];
      PackInto(buf, h + 16, ToLE(crc(buf[h..h + hsize]), 4));
    }

    /** The steps of `set_end` on the buffers: the field at `off` of both arrays, then all CRCs. `h1` and `t1` are the
        buffers in between. */
    method WriteEnd(off: nat, v: Bytes) returns (ok: bool, ghost h1: Bytes, ghost t1: Bytes)
      requires head != tail && BothPlaced(head[..], tail[..], lbs, l, off) && |v| == 8
      modifies head, tail
      ensures h1 == Put(old(head[..]), l.pOff + off, v) && t1 == Put(old(tail[..]), l.bOff + off, v)
      ensures ok == (crc(h1[l.pOff..l.pOff + l.bytes]) == crc(t1[l.bOff..l.bOff + l.bytes]))
      ensures ok ==> head[..] == Resealed(crc, h1, lbs, l.ph.hsize, crc(h1[l.pOff..l.pOff + l.bytes]))
      ensures ok ==> tail[..] == Resealed(crc, t1, l.bhOff, l.bh.hsize, crc(h1[l.pOff..l.pOff + l.bytes]))
    {
      PackInto(head, l.pOff + off, v);
      PackInto(tail, l.bOff + off, v);
      var h, t := head[..], tail[..];
      h1, t1 := h, t;
      var ecrc := crc(h[l.pOff..l.pOff + l.bytes]);
      ok := ecrc == crc(t[l.bOff..l.bOff + l.bytes]);
      if ok {
        Reseal(head, lbs, l.ph.hsize, ecrc);
        Reseal(tail, l.bhOff, l.bh.hsize, ecrc);
      }
    }

    /** `set_end` of a sector that ends a block, with the field's place given. */
    method SetEndAt(ghost h0: Bytes, ghost t0: Bytes, off: nat, newLast: int) returns (ok: bool)
      requires head != tail && head[..] == h0 && tail[..] == t0
      requires BlockSize(lbs) && BothPlaced(h0, t0, lbs, l, off) && 0 <= EndLba(newLast, lbs) < TWO64
      requires (newLast + 1) % PerBlock(lbs) == 0
      modifies head, tail
      ensures SetEndResult(ok, GptResize.SetEnd(crc, h0, t0, lbs, l, off, newLast))
    {
      ghost var h1, t1;
      ok, h1, t1 := WriteEnd(off, ToLE(EndLba(newLast, lbs), 8));
      ghost var v, hc, tc := EndLba(newLast, lbs), crc(h1[l.pOff..l.pOff + l.bytes]), crc(t1[l.bOff..l.bOff + l.bytes]);
      SetEndSteps(crc, h0, t0, lbs, l, off, newLast, v, h1, t1, hc, tc, GptResize.SetEnd(crc, h0, t0, lbs, l, off, newLast));
      EditCopyIs(crc, h0, lbs, l.ph.hsize, l.pOff, l.bytes, l.pOff + off, v, h1, hc);
      EditCopyIs(crc, t0, l.bhOff, l.bh.hsize, l.bOff, l.bytes, l.bOff + off, v, t1, tc);
    }

    ghost predicate SetEndResult(ok: bool, r: Option<(Bytes, Bytes)>)
      reads head, tail
    {
      ok == r.Some? && (ok ==> head[..] == r.value.0 && tail[..] == r.value.1)
    }

    /** `set_end` of entry `index`. False where it exits; nothing is handed out then. */
    method SetEnd(index: nat, newLast: int) returns (ok: bool)
      requires Loaded() && WellFormed(l, lbs) && index < l.ph.nents
      requires (newLast + 1) % PerBlock(lbs) == 0 ==> 0 <= EndLba(newLast, lbs) < TWO64
      modifies head, tail
      ensures BothPlaced(old(head[..]), old(tail[..]), lbs, l, EndOff(l.ph.esize, index))
      ensures SetEndResult(ok, GptResize.SetEnd(crc, old(head[..]), old(tail[..]), lbs, l, EndOff(l.ph.esize, index), newLast))
    {
      EndOffInside(l, index);
      EditingPlaces(crc, head[..], tail[..], sectors, lbs, l, EndOff(l.ph.esize, index));
      ok := (newLast + 1) % PerBlock(lbs) == 0;
      if ok {
        ok := SetEndAt(head[..], tail[..], EndOff(l.ph.esize, index), newLast);
      }
    }

    /** `usable_end`: the last usable 512-byte sector. */
    function UsableEnd(): int
      requires BlockSize(lbs)
    {
      (l.ph.last + 1) * PerBlock(lbs) - 1
    }

    /** The end of the last partition moved to a place `main` has checked. */
    method Move(name: Bytes, es: seq<Part>, j: nat, end: int) returns (ok: bool)
      requires Loaded() && WellFormed(l, lbs) && Asked(head[..], lbs, l, name, j, end) && es == PartsOf(head[..], l, lbs)
      modifies head, tail
      ensures Outcome(crc, old(head[..]), old(tail[..]), sectors, lbs, l, name, j, end, ok, head[..], tail[..])
    {
      ghost var h0, t0 := head[..], tail[..];
      ListedFits(h0, l, lbs, es, j);
      EndFits(h0, l, lbs, es[j].first, end);
      ok := SetEnd(es[j].index, end);
      ghost var off := EndOff(l.ph.esize, es[j].index);
      MoveSucceeds(crc, h0, t0, lbs, l, off, end);
      if ok {
        EndOffInside(l, es[j].index);
        MoveDone(crc, h0, t0, sectors, lbs, l, name, es, j, off, end, head[..], tail[..]);
      }
    }

    /** What `main` does with a table it read: the last partition, if it has the name asked for, gets the end asked for, or
        the end of the usable area (`newEnd` None). False where the tool exits. */
    method Resize(name: Bytes, newEnd: Option<int>) returns (ok: bool, ghost at: nat)
      requires Loaded() && WellFormed(l, lbs)
      modifies head, tail
      ensures Outcome(crc, old(head[..]), old(tail[..]), sectors, lbs, l, name, at,
                      if newEnd.Some? then newEnd.value else UsableEnd(), ok, head[..], tail[..])
      ensures Listable(old(head[..]), l) && (PartsOf(old(head[..]), l, lbs) != [] ==> IsLast(PartsOf(old(head[..]), l, lbs), at))
    {
      var es := ListEntries();
      var end := if newEnd.Some? then newEnd.value else UsableEnd();
      ok, at := false, 0;
      if es == [] {
        NotAsked(crc, head[..], tail[..], sectors, lbs, l, name, es, at, end);
      } else {
        var j := LastOf(es);
        at := j;
        if es[j].name == name && end <= UsableEnd() && end > es[j].first {
          ok := Move(name, es, j, end);
        } else {
          NotAsked(crc, head[..], tail[..], sectors, lbs, l, name, es, at, end);
        }
      }
    }
  }
}
