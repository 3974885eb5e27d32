/** The shrink on real partition tables: where the filesystem lies, and what the host's check proves
    (tools/resume.py:191-232, tools/resize-last-partition.py:69-118). */
module ShrinkTable {
  import opened Bytes
  import opened Gpt
  import opened GptEdit
  import opened GptResize
  import opened GptParts
  import opened Shrink
  import opened Resume

  /** The partition table of the disk and the edit of it that makes a job: entry `index`, at place `at` of the list of
      partitions, gets `newLast` for its last sector; `field` is where the head says so. */
  datatype Resizing = Resizing(crc: Crc, sectors: nat, lbs: nat, l: Layout, index: nat, at: nat, newLast: int, field: nat)

  /** The head image of `j` is a table's head, and what the edit made of it. */
  ghost predicate MadeFrom(j: Job, z: Resizing) {
    && BlockSize(z.lbs) && Listable(j.oldHead, z.l) && z.l.pOff >= 2 * z.lbs && z.l.pOff == z.l.ph.entriesLba * z.lbs
    && z.field == z.l.pOff + z.index * z.l.ph.esize + 40
    && z.lbs + HEADER <= |j.oldHead| && HeaderAt(j.oldHead, z.lbs) == z.l.ph
    && EndLba(z.newLast, z.lbs) >= 0 && (z.newLast + 1) % PerBlock(z.lbs) == 0
    && EditedCopy(z.crc, j.oldHead, z.lbs, z.l.ph.hsize, z.l.pOff, z.l.bytes, z.field, EndLba(z.newLast, z.lbs), j.newHead)
  }

  /** Where the tail has the end of the resized entry. */
  function TailField(z: Resizing): nat
    requires z.l.bOff >= 0
  {
    z.l.bOff + z.index * z.l.ph.esize + 40
  }

  /** And so are the tail images; the two arrays were the same. */
  ghost predicate MadeBoth(j: Job, z: Resizing) {
    && MadeFrom(j, z) && SameArray(j.oldHead, j.oldTail, z.l) && z.l.bOff + z.l.bytes <= z.l.bhOff
    && EditedCopy(z.crc, j.oldTail, z.l.bhOff, z.l.bh.hsize, z.l.bOff, z.l.bytes, TailField(z), EndLba(z.newLast, z.lbs), j.newTail)
  }

  lemma CopiesEdited(crc: Crc, head: Bytes, tail: Bytes, lbs: nat, l: Layout, off: nat, v: nat, h': Bytes, t': Bytes,
                     hf: nat, tf: int)
    requires Edited(crc, head, tail, lbs, l, off, v, h', t') && hf == l.pOff + off && tf == l.bOff + off
    ensures EditedCopy(crc, head, lbs, l.ph.hsize, l.pOff, l.bytes, hf, v, h')
    ensures l.bOff >= 0 && EditedCopy(crc, tail, l.bhOff, l.bh.hsize, l.bOff, l.bytes, tf, v, t')
  {
  }

  /** Of a table that is edited, what does not depend on the edit. */
  lemma TableFits(crc: Crc, head: Bytes, tail: Bytes, sectors: nat, lbs: nat, l: Layout, off: nat)
    requires Editing(crc, head, tail, sectors, lbs, l, off)
    ensures Listable(head, l) && l.pOff >= 2 * lbs && l.pOff == l.ph.entriesLba * lbs
    ensures lbs + HEADER <= |head| && HeaderAt(head, lbs) == l.ph && l.bOff + l.bytes <= l.bhOff
  {
  }

  lemma Made(j: Job, z: Resizing, v: nat)
    requires BlockSize(z.lbs) && Listable(j.oldHead, z.l) && z.l.pOff >= 2 * z.lbs && z.l.pOff == z.l.ph.entriesLba * z.lbs
    requires z.lbs + HEADER <= |j.oldHead| && HeaderAt(j.oldHead, z.lbs) == z.l.ph
    requires z.field == z.l.pOff + z.index * z.l.ph.esize + 40
    requires v == EndLba(z.newLast, z.lbs) && (z.newLast + 1) % PerBlock(z.lbs) == 0
    requires EditedCopy(z.crc, j.oldHead, z.lbs, z.l.ph.hsize, z.l.pOff, z.l.bytes, z.field, v, j.newHead)
    ensures MadeFrom(j, z)
  {
  }

  /** So it is for the images the host makes with `set_end` from a table it parsed. */
  lemma MadeByEdit(j: Job, z: Resizing, off: nat, v: nat)
    requires off == z.index * z.l.ph.esize + 40 && z.field == z.l.pOff + off
    requires Editing(z.crc, j.oldHead, j.oldTail, z.sectors, z.lbs, z.l, off)
    requires v == EndLba(z.newLast, z.lbs) && (z.newLast + 1) % PerBlock(z.lbs) == 0
    requires Edited(z.crc, j.oldHead, j.oldTail, z.lbs, z.l, off, v, j.newHead, j.newTail)
    ensures MadeFrom(j, z)
    ensures SameArray(j.oldHead, j.oldTail, z.l) ==> MadeBoth(j, z)
  {
    TableFits(z.crc, j.oldHead, j.oldTail, z.sectors, z.lbs, z.l, off);
    CopiesEdited(z.crc, j.oldHead, j.oldTail, z.lbs, z.l, off, v, j.newHead, j.newTail, z.field, TailField(z));
    Made(j, z, v);
  }

  ghost function OldParts(j: Job, z: Resizing): seq<Part>
    requires MadeFrom(j, z)
  {
    PartsOf(j.oldHead, z.l, z.lbs)
  }

  /** The edited entry is the `at`th partition; all are apart and inside the usable area; its end really moves. */
  ghost predicate ResizesLast(j: Job, z: Resizing, lo: int, hi: int)
    requires MadeFrom(j, z)
  {
    var es := OldParts(j, z);
    Disjoint(es, lo, hi) && z.at < |es| && es[z.at].index == z.index && es[z.at].last != z.newLast
  }

  /** What `_parse` establishes about the head. */
  ghost predicate HeadTable(crc: Crc, head: Bytes, lbs: nat, l: Layout) {
    && HeaderValid(crc, head, lbs) && l.ph == HeaderAt(head, lbs)
    && ArrayValid(crc, head, l.pOff, l.bytes, l.ph.ecrc) && GptResize.Consistent(l, lbs)
  }

  lemma TableHead(crc: Crc, head: Bytes, tail: Bytes, sectors: nat, lbs: nat, l: Layout)
    requires BlockSize(lbs) && Parse(crc, head, tail, sectors, lbs) == Some(l)
    ensures HeadTable(crc, head, lbs, l)
  {
    ParseIsTable(crc, head, tail, sectors, lbs, l);
  }

  lemma ValidIsSealed(crc: Crc, head: Bytes, lbs: nat, l: Layout)
    requires HeadTable(crc, head, lbs, l) && HEADER <= l.ph.hsize && lbs + l.ph.hsize <= |head|
    ensures Sealed(crc, head, lbs, l.ph.hsize, l.pOff, l.bytes)
  {
  }

  lemma MixAgrees(a: Bytes, b: Bytes, m: Bytes, h: nat, f: nat)
    requires SameElsewhere(a, b, h, f) && Mix(a, b, m)
    ensures SameElsewhere(a, m, h, f)
  {
  }

  /** Two layouts place the entries alike. */
  predicate SameShape(l: Layout, l': Layout) {
    l'.pOff == l.pOff && l'.bytes == l.bytes && l'.ph.nents == l.ph.nents && l'.ph.esize == l.ph.esize
  }

  /** What a table parsed from a head that is a mix of the two images has in common with the old one. */
  lemma MixLayout(j: Job, z: Resizing, head: Bytes, l': Layout)
    requires MadeFrom(j, z) && Mix(j.oldHead, j.newHead, head)
    requires HeadTable(z.crc, head, z.lbs, l')
    ensures SameShape(z.l, l')
    ensures Sealed(z.crc, head, z.lbs, z.l.ph.hsize, z.l.pOff, z.l.bytes)
    ensures SameElsewhere(j.oldHead, head, z.lbs, z.field)
  {
    MixAgrees(j.oldHead, j.newHead, head, z.lbs, z.field);
    HeaderStays(j.oldHead, head, z.lbs, z.field);
    ValidIsSealed(z.crc, head, z.lbs, l');
  }

  /** The partitions of such a head: the old ones, the resized one with whatever end its field says. */
  lemma MixParts(j: Job, z: Resizing, head: Bytes, l': Layout, v: nat, last: int)
    requires MadeFrom(j, z) && SameElsewhere(j.oldHead, head, z.lbs, z.field) && SameShape(z.l, l')
    requires v == Field(head, z.field, 8) && last == (v + 1) * PerBlock(z.lbs) - 1
    ensures Listable(head, l') && PartsOf(head, l', z.lbs) == Moved(OldParts(j, z), z.index, last)
  {
    EditedReadsBack(j.oldHead, head, z.lbs, z.lbs, z.l, z.index, z.field, v, last);
  }

  /** The new images, each as it lists the partitions: the old ones with the new end. */
  lemma NewCopies(j: Job, z: Resizing)
    requires MadeBoth(j, z)
    ensures Listable(j.newHead, z.l) && PartsOf(j.newHead, z.l, z.lbs) == Moved(OldParts(j, z), z.index, z.newLast)
    ensures Listable(j.oldTail, InTail(z.l)) && PartsOf(j.oldTail, InTail(z.l), z.lbs) == OldParts(j, z)
    ensures Listable(j.newTail, InTail(z.l)) && PartsOf(j.newTail, InTail(z.l), z.lbs) == Moved(OldParts(j, z), z.index, z.newLast)
  {
    var v := EndLba(z.newLast, z.lbs);
    EndLbaExact(z.newLast, z.lbs);
    EditedReadsBack(j.oldHead, j.newHead, z.lbs, z.lbs, z.l, z.index, z.field, v, z.newLast);
    SamePartitions(j.oldHead, j.oldTail, z.lbs, z.l);
    EditedReadsBack(j.oldTail, j.newTail, z.l.bhOff, z.lbs, InTail(z.l), z.index, TailField(z), v, z.newLast);
  }

  /** Partitions that are apart have different first sectors. */
  lemma FirstsDiffer(es: seq<Part>, lo: int, hi: int, i: nat, j: nat)
    requires Disjoint(es, lo, hi) && i < |es| && j < |es| && es[i].first == es[j].first
    ensures i == j
  {
  }

  /** A head that may be torn, but that the tool accepts and shows with the new end, is the new head byte for byte. No
      property of CRC32 is needed. */
  lemma ShownIsNew(j: Job, z: Resizing, lo: int, hi: int, head: Bytes, l': Layout, shown: nat)
    requires MadeFrom(j, z) && ResizesLast(j, z, lo, hi) && Mix(j.oldHead, j.newHead, head)
    requires HeadTable(z.crc, head, z.lbs, l') && Listable(head, l') && shown < |PartsOf(head, l', z.lbs)|
    requires PartsOf(head, l', z.lbs)[shown].first == OldParts(j, z)[z.at].first
    requires PartsOf(head, l', z.lbs)[shown].last == z.newLast
    ensures head == j.newHead && head != j.oldHead
  {
    MixLayout(j, z, head, l');
    var v := Field(head, z.field, 8);
    MixParts(j, z, head, l', v, (v + 1) * PerBlock(z.lbs) - 1);
    FirstsDiffer(OldParts(j, z), lo, hi, shown, z.at);
    SameEnd(v, EndLba(z.newLast, z.lbs), z.newLast, z.lbs);
    MixIsWhole(z.crc, j.oldHead, j.newHead, head, z.lbs, z.l.ph.hsize, z.l.pOff, z.l.bytes, z.field);
  }

  lemma SameEnd(v: nat, w: int, newLast: int, lbs: nat)
    requires BlockSize(lbs) && w == EndLba(newLast, lbs) && (v + 1) * PerBlock(lbs) - 1 == newLast
    ensures v == w
  {
  }
}
