/** The partitions of a table before and after a resize (tools/resize-last-partition.py:98-118, 166-191). */
module GptParts {
  import opened Bytes
  import opened Gpt
  import opened GptEdit
  import opened GptResize

  function MovedPart(p: Part, index: nat, last: int): Part {
    if p.index == index then p.(last := last) else p
  }

  /** `es` with the end of entry `index` at `last`. */
  function Moved(es: seq<Part>, index: nat, last: int): seq<Part> {
    seq(|es|, i requires 0 <= i < |es| => MovedPart(es[i], index, last))
  }

  lemma MovedJoin(a: seq<Part>, b: seq<Part>, index: nat, last: int)
    ensures Moved(a + b, index, last) == Moved(a, index, last) + Moved(b, index, last)
  {
  }

  /** The entry at `o` lies apart from the header at `h`: before the array in the head, behind it in the tail. */
  predicate ApartFrom(h: nat, o: nat) { h + HEADER <= o || o + 128 <= h }

  /** The entry at `o` of a copy edited at `f` by `set_end` reads as before, but for its end when `f` is its own. */
  lemma PartStays(a: Bytes, b: Bytes, h: nat, f: nat, o: nat, k: nat, i: nat, index: nat, last: int)
    requires SameElsewhere(a, b, h, f) && o + 128 <= |a| && ApartFrom(h, o)
    requires if i == index then f == o + 40 && (Field(b, f, 8) + 1) * k - 1 == last else f + 8 <= o || o + 128 <= f
    ensures Used(a, o) == Used(b, o)
    ensures PartAt(b, o, k, i) == if i == index then PartAt(a, o, k, i).(last := last) else PartAt(a, o, k, i)
  {
    SameSlice(a, b, o, o + 16);
    SameSlice(a, b, o + 32, o + 40);
    SameSlice(a, b, o + 56, o + 128);
    if i != index {
      SameSlice(a, b, o + 40, o + 48);
    }
  }

  /** `f` is the end field of entry `index`, and outside every other. */
  ghost predicate FieldOf(offs: seq<nat>, index: nat, f: nat) {
    forall i :: 0 <= i < |offs| ==>
      if i == index then f == offs[i] + 40 else f + 8 <= offs[i] || offs[i] + 128 <= f
  }

  lemma FieldOfOffsets(base: nat, esize: nat, n: nat, index: nat)
    requires esize >= 128
    ensures FieldOf(Offsets(base, esize, n), index, base + index * esize + 40)
  {
    var offs, f := Offsets(base, esize, n), base + index * esize + 40;
    forall i | 0 <= i < n
      ensures if i == index then f == offs[i] + 40 else f + 8 <= offs[i] || offs[i] + 128 <= f
    {
      if i < index {
        EntryInside(esize, index, i);
      } else if index < i {
        EntryInside(esize, i, index);
      }
    }
  }

  lemma ListedAfter(a: Bytes, b: Bytes, h: nat, o: nat, i: nat, k: nat, index: nat, f: nat, last: int)
    requires SameElsewhere(a, b, h, f) && o + 128 <= |a| && ApartFrom(h, o)
    requires if i == index then f == o + 40 && (Field(b, f, 8) + 1) * k - 1 == last else f + 8 <= o || o + 128 <= f
    ensures Listed(b, o, k, i) == Moved(Listed(a, o, k, i), index, last)
  {
    PartStays(a, b, h, f, o, k, i, index, last);
  }

  lemma {:induction false} EntriesAfter(a: Bytes, b: Bytes, h: nat, offs: seq<nat>, k: nat, index: nat, f: nat, last: int)
    requires EntriesFit(|a|, offs) && FieldOf(offs, index, f) && forall i :: 0 <= i < |offs| ==> ApartFrom(h, offs[i])
    requires f + 8 <= |a| && SameElsewhere(a, b, h, f) && (Field(b, f, 8) + 1) * k - 1 == last
    ensures Entries(b, offs, k) == Moved(Entries(a, offs, k), index, last)
    decreases |offs|
  {
    if offs != [] {
      var n := |offs| - 1;
      EntriesAfter(a, b, h, offs[..n], k, index, f, last);
      ListedAfter(a, b, h, offs[n], n, k, index, f, last);
      MovedJoin(Entries(a, offs[..n], k), Listed(a, offs[n], k, n), index, last);
    }
  }

  lemma EntriesStep(head: Bytes, offs: seq<nat>, i: nat, k: nat)
    requires EntriesFit(|head|, offs) && i < |offs|
    ensures Entries(head, offs[..i + 1], k) == Entries(head, offs[..i], k) + Listed(head, offs[i], k, i)
  {
    assert offs[..i + 1][..i] == offs[..i];
  }

  // ---- partitions apart

  predicate InArea(p: Part, lo: int, hi: int) { lo <= p.first <= p.last <= hi }

  predicate Before(p: Part, q: Part) { p.last < q.first }

  /** All partitions lie in `lo..hi` and no two overlap. */
  ghost predicate Disjoint(es: seq<Part>, lo: int, hi: int) {
    && (forall i :: 0 <= i < |es| ==> InArea(es[i], lo, hi))
    && (forall i, j :: 0 <= i < j < |es| ==> Before(es[i], es[j]) || Before(es[j], es[i]))
  }

  /** `find_last` picks `es[j]`: the greatest end, the first of several. */
  ghost predicate IsLast(es: seq<Part>, j: nat) {
    && j < |es| && (forall i :: 0 <= i < |es| ==> es[i].last <= es[j].last)
    && (forall i :: 0 <= i < j ==> es[i].last < es[j].last)
  }

  /** No two listed partitions are one entry. */
  ghost predicate DistinctIndices(es: seq<Part>) {
    forall i, j :: 0 <= i < j < |es| ==> es[i].index < es[j].index
  }

  lemma {:induction false} EntriesDistinctIndices(head: Bytes, offs: seq<nat>, k: nat)
    requires EntriesFit(|head|, offs)
    ensures DistinctIndices(Entries(head, offs, k))
    ensures forall i :: 0 <= i < |Entries(head, offs, k)| ==> Entries(head, offs, k)[i].index < |offs|
    decreases |offs|
  {
    if offs != [] {
      EntriesDistinctIndices(head, offs[..|offs| - 1], k);
    }
  }

  /** Moving the end of the last partition, not to or before its first sector and not past the usable area, keeps all
      partitions apart and inside: both a shrink and a fill. */
  lemma ResizeKeepsDisjoint(es: seq<Part>, j: nat, newEnd: int, lo: int, hi: int)
    requires Disjoint(es, lo, hi) && IsLast(es, j) && DistinctIndices(es)
    requires es[j].first < newEnd <= hi
    ensures Disjoint(Moved(es, es[j].index, newEnd), lo, hi)
  {
    var r := Moved(es, es[j].index, newEnd);
    forall i | 0 <= i < |es| && i != j
      ensures Before(es[i], es[j])
    {
      assert Before(es[i], es[j]) || Before(es[j], es[i]);
    }
  }

  lemma EndLbaExact(newLast: int, lbs: nat)
    requires BlockSize(lbs) && (newLast + 1) % PerBlock(lbs) == 0
    ensures (EndLba(newLast, lbs) + 1) * PerBlock(lbs) - 1 == newLast
  {
  }

  /** Where the entries of a table's head are. */
  function EntryOffsets(l: Layout): seq<nat> {
    Offsets(l.pOff, l.ph.esize, l.ph.nents)
  }

  ghost predicate Listable(head: Bytes, l: Layout) {
    l.ph.esize >= 128 && l.bytes == l.ph.nents * l.ph.esize && l.pOff + l.bytes <= |head|
  }

  /** All partitions of a table's head. */
  ghost function PartsOf(head: Bytes, l: Layout, lbs: nat): seq<Part>
    requires BlockSize(lbs) && Listable(head, l)
  {
    OffsetsFit(l.pOff, l.ph.esize, l.ph.nents, |head|);
    Entries(head, EntryOffsets(l), PerBlock(lbs))
  }

  /** The header at `h` is before or behind the array of `l`. */
  predicate HeaderApart(h: nat, l: Layout) { h + HEADER <= l.pOff || l.pOff + l.bytes <= h }

  lemma EntriesApart(h: nat, l: Layout)
    requires l.ph.esize >= 128 && l.bytes == l.ph.nents * l.ph.esize && HeaderApart(h, l)
    ensures var offs := EntryOffsets(l); forall i :: 0 <= i < |offs| ==> ApartFrom(h, offs[i])
  {
    OffsetsFit(l.pOff, l.ph.esize, l.ph.nents, l.pOff + l.bytes);
  }

  /** The partitions of a copy that is another but for the end field of entry `index`, now `v`, and the CRCs. */
  lemma EditedReadsBack(copy: Bytes, c': Bytes, h: nat, lbs: nat, l: Layout, index: nat, field: nat, v: nat, last: int)
    requires BlockSize(lbs) && Listable(copy, l) && HeaderApart(h, l) && field + 8 <= |copy|
    requires field == l.pOff + index * l.ph.esize + 40 && (v + 1) * PerBlock(lbs) - 1 == last
    requires SameElsewhere(copy, c', h, field) && Field(c', field, 8) == v
    ensures Listable(c', l) && PartsOf(c', l, lbs) == Moved(PartsOf(copy, l, lbs), index, last)
  {
    OffsetsFit(l.pOff, l.ph.esize, l.ph.nents, |copy|);
    EntriesApart(h, l);
    FieldOfOffsets(l.pOff, l.ph.esize, l.ph.nents, index);
    EntriesAfter(copy, c', h, EntryOffsets(l), PerBlock(lbs), index, field, last);
  }

  // ---- the tail

  /** The layout as the tail has it: its array at `bOff`. */
  function InTail(l: Layout): Layout
    requires l.bOff >= 0
  {
    l.(pOff := l.bOff)
  }

  lemma SliceOfSlice(a: Bytes, o: nat, n: nat, lo: nat, hi: nat)
    requires o + n <= |a| && lo <= hi <= n
    ensures a[o..o + n][lo..hi] == a[o + lo..o + hi]
  {
    var s, t := a[o..o + n][lo..hi], a[o + lo..o + hi];
    assert forall k :: 0 <= k < hi - lo ==> s[k] == t[k];
  }

  lemma ListedAlike(a: Bytes, b: Bytes, oa: nat, ob: nat, k: nat, i: nat)
    requires oa + 128 <= |a| && ob + 128 <= |b| && a[oa..oa + 128] == b[ob..ob + 128]
    ensures Listed(a, oa, k, i) == Listed(b, ob, k, i)
  {
    PiecesAlike(a, b, oa, ob, 0, 16);
    PiecesAlike(a, b, oa, ob, 32, 40);
    PiecesAlike(a, b, oa, ob, 40, 48);
    PiecesAlike(a, b, oa, ob, 56, 128);
  }

  lemma PiecesAlike(a: Bytes, b: Bytes, oa: nat, ob: nat, lo: nat, hi: nat)
    requires lo <= hi <= 128 && oa + 128 <= |a| && ob + 128 <= |b| && a[oa..oa + 128] == b[ob..ob + 128]
    ensures a[oa + lo..oa + hi] == b[ob + lo..ob + hi]
  {
    SliceOfSlice(a, oa, 128, lo, hi);
    SliceOfSlice(b, ob, 128, lo, hi);
  }

  lemma {:induction false} EntriesAlike(a: Bytes, b: Bytes, la: seq<nat>, lb: seq<nat>, k: nat)
    requires EntriesFit(|a|, la) && EntriesFit(|b|, lb) && |la| == |lb|
    requires forall i :: 0 <= i < |la| ==> a[la[i]..la[i] + 128] == b[lb[i]..lb[i] + 128]
    ensures Entries(a, la, k) == Entries(b, lb, k)
    decreases |la|
  {
    if la != [] {
      var n := |la| - 1;
      EntriesAlike(a, b, la[..n], lb[..n], k);
      ListedAlike(a, b, la[n], lb[n], k, n);
    }
  }

  /** Copies with the same array list the same partitions. */
  lemma SamePartitions(head: Bytes, tail: Bytes, lbs: nat, l: Layout)
    requires BlockSize(lbs) && Listable(head, l) && SameArray(head, tail, l)
    ensures Listable(tail, InTail(l)) && PartsOf(tail, InTail(l), lbs) == PartsOf(head, l, lbs)
  {
    var la, lb := EntryOffsets(l), EntryOffsets(InTail(l));
    OffsetsFit(l.pOff, l.ph.esize, l.ph.nents, |head|);
    OffsetsFit(l.bOff, l.ph.esize, l.ph.nents, |tail|);
    forall i | 0 <= i < |la|
      ensures head[la[i]..la[i] + 128] == tail[lb[i]..lb[i] + 128]
    {
      EntryInside(l.ph.esize, l.ph.nents, i);
      SameInside(head, tail, l.pOff, l.bOff, l.bytes, i * l.ph.esize);
    }
    EntriesAlike(head, tail, la, lb, PerBlock(lbs));
  }

  lemma SameInside(a: Bytes, b: Bytes, ea: nat, eb: nat, n: nat, o: nat)
    requires ea + n <= |a| && eb + n <= |b| && a[ea..ea + n] == b[eb..eb + n] && o + 128 <= n
    ensures a[ea + o..ea + o + 128] == b[eb + o..eb + o + 128]
  {
    SliceOfSlice(a, ea, n, o, o + 128);
    SliceOfSlice(b, eb, n, o, o + 128);
  }

  /** For 512- and 4096-byte blocks alike: after `set_end`, `entries` reads back exactly the end that was set, in 512-byte
      sectors, and every other entry as it was. */
  lemma SetEndReadsBack(crc: Crc, head: Bytes, tail: Bytes, sectors: nat, lbs: nat, l: Layout, index: nat, off: nat,
                        newLast: int, h': Bytes, t': Bytes)
    requires Editing(crc, head, tail, sectors, lbs, l, off) && off == index * l.ph.esize + 40
    requires 0 <= EndLba(newLast, lbs) < TWO64 && BothPlaced(head, tail, lbs, l, off)
    requires SetEnd(crc, head, tail, lbs, l, off, newLast) == Some((h', t'))
    ensures Listable(head, l) && Listable(h', l)
    ensures PartsOf(h', l, lbs) == Moved(PartsOf(head, l, lbs), index, newLast)
  {
    SetEndEdits(crc, head, tail, lbs, l, off, newLast, h', t');
    EndLbaExact(newLast, lbs);
    EditedReadsBack(head, h', lbs, lbs, l, index, l.pOff + off, EndLba(newLast, lbs), newLast);
  }
}
