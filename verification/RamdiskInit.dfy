/** What is left of `init` when the kernel has read and unpacked every segment of the ramdisk. */
module RamdiskInit {
  import opened Bytes
  import opened Cpio
  import opened CpioRead
  import opened Ramdisk
  import Lz4Legacy
  import Paths

  const INIT: Bytes := [105, 110, 105, 116]                                         // init
  const GUARD: Bytes := [101, 116, 99, 47, 109, 117, 51, 48, 48, 45, 116, 114, 105, 97, 108, 45, 103, 117, 97, 114, 100]
                                                                                    // etc/mu300-trial-guard

  /** The data of the segments: what is built here; with an appended segment, the data of its frames and the init built here
      once more; with a trial guard, its file last of all. */
  function Segments(main: Bytes, frames: Option<seq<Bytes>>, again: Bytes, guard: Option<Bytes>): seq<Bytes> {
    [main] + (if frames.None? then [] else frames.value + [again]) + (if guard.None? then [] else [guard.value])
  }

  lemma OneName(f: File)
    ensures NamesIn([f]) == {f.name}
  {
    var fs := [f];
    assert fs[0].name in NamesIn(fs);
  }

  lemma NoSlashNoParents(n: Bytes, ds: seq<Bytes>)
    requires SLASH !in n && OrderOf(ds, Closure({}, {n}))
    ensures forall x :: x !in ds
  {
    assert Ancestors(n) == {};
    assert Closure({}, {n}) == {};
  }

  lemma GuardParents(n: Bytes, ds: seq<Bytes>)
    requires n == GUARD && OrderOf(ds, Closure({}, {n}))
    ensures forall i :: 0 <= i < |ds| ==> |ds[i]| == 3
  {
    assert forall k :: 0 < k < |n| && n[k] == SLASH ==> k == 3;
    forall i | 0 <= i < |ds|
      ensures |ds[i]| == 3
    {
      assert ds[i] in ds;
    }
  }

  lemma GuardKeepsInit(t: Tree, guard: File, dg: seq<Bytes>)
    requires guard.name == GUARD && OrderOf(dg, Closure({}, {guard.name}))
    ensures (INIT in Unpack(t, Records(dg, [guard])) <==> INIT in t) && (INIT in t ==> Unpack(t, Records(dg, [guard]))[INIT] == t[INIT])
  {
    GuardParents(guard.name, dg);
    var rs := Records(dg, [guard]);
    assert |INIT| == 4 && |CONSOLE| == 11 && |GUARD| == 21;
    forall i | 0 <= i < |rs|
      ensures rs[i].name != INIT
    {
      assert |rs[i].name| != 4;
    }
    Untouched(t, rs, INIT);
  }

  /** The entries of `main`: a dictionary with an init, and the guard under its name. */
  predicate Given(fs: seq<File>, init: File, guard: Option<File>) {
    && (forall i, j :: 0 <= i < j < |fs| ==> fs[i].name != fs[j].name)
    && init in fs && init.name == INIT && (guard.Some? ==> guard.value.name == GUARD)
  }

  predicate FileFits(f: File) { |f.name| + 1 < TWO32 && |f.data| < TWO32 && f.mode < TWO32 && f.name != TRAILER }

  /** The decompressed ramdisk, read and unpacked: its init and its guard are those built here. */
  ghost predicate InitLeft(data: Option<Bytes>, init: File, guard: Option<File>) {
    && data.Some? && ReadRecs(data.value).Some?
    && var t := Unpack(map[], ReadRecs(data.value).value);
    && INIT in t && t[INIT] == Node(init.mode, init.data)
    && (guard.Some? ==> GUARD in t && t[GUARD] == Node(guard.value.mode, guard.value.data))
  }

  // ---- reading

  lemma RecordsSmall(ds: seq<Bytes>, fs: seq<File>, rs: seq<Rec>)
    requires Fits(ds, fs) && rs == Records(ds, fs)
    ensures forall i :: 0 <= i < |rs| ==> Small(rs[i]) && rs[i].name != TRAILER
  {
    assert |CONSOLE| == 11 && |TRAILER| == 10;
  }

  /** An archive in front of anything. */
  lemma ArchiveReads(ds: seq<Bytes>, fs: seq<File>, rest: Bytes, d: Bytes, more: Option<seq<Rec>>)
    requires Fits(ds, fs) && d == Archive(ds, fs) + rest && more == ReadTail(rest)
    ensures ReadRecs(d) == Prepend(Records(ds, fs), more) && d != [] && d[0] != NUL
  {
    var rs, trailer := Records(ds, fs), Rec(TRAILER, [], 0, |ds| + |fs| + 2, 0, 0);
    RecordsSmall(ds, fs, rs);
    ArchiveBack(rs, trailer, rest, d, more);
    StartsRecord(rs, trailer, rest, d);
  }

  lemma StartsRecord(rs: seq<Rec>, trailer: Rec, rest: Bytes, d: Bytes)
    requires rs != [] && d == Flat(rs) + Record(trailer) + rest
    ensures d != [] && d[0] != NUL
  {
    Assoc(Flat(rs), Record(trailer), rest);
    FlatStarts(rs, Record(trailer) + rest, d);
  }

  lemma FlatStarts(rs: seq<Rec>, tail: Bytes, d: Bytes)
    requires rs != [] && d == Flat(rs) + tail
    ensures d != [] && d[0] == MAGIC[0]
  {
    assert Record(rs[0])[0] == Header(rs[0])[0] == MAGIC[0];
  }

  // ---- unpacking

  lemma InitParent()
    ensures Paths.Parent(INIT) == []
  {
    assert Paths.LastSlash(INIT[..0]) == 0;
    assert Paths.LastSlash(INIT[..1]) == 0;
    assert Paths.LastSlash(INIT[..2]) == 0;
    assert Paths.LastSlash(INIT[..3]) == 0;
  }

  /** An archive with an init leaves it, whatever was unpacked before. */
  lemma InitUnpacked(t: Tree, ds: seq<Bytes>, fs: seq<File>, init: File)
    requires Given(fs, init, None)
    ensures var u := Unpack(t, Records(ds, fs)); INIT in u && u[INIT] == Node(init.mode, init.data)
  {
    var k :| 0 <= k < |fs| && fs[k] == init;
    var rs, at := Records(ds, fs), |ds| + k;
    assert rs[at] == Rec(INIT, init.data, init.mode, at + 1, 0, 0);
    NoneBehind(ds, fs, k, rs[at + 1..]);
    PutLast(t, rs, at, INIT, rs[at + 1..]);
  }

  lemma NoneBehind(ds: seq<Bytes>, fs: seq<File>, k: nat, rest: seq<Rec>)
    requires k < |fs| && fs[k].name == INIT && rest == Records(ds, fs)[|ds| + k + 1..]
    requires forall i, j :: 0 <= i < j < |fs| ==> fs[i].name != fs[j].name
    ensures forall i :: 0 <= i < |rest| ==> rest[i].name != INIT
  {
    assert |INIT| == 4 && |CONSOLE| == 11;
  }

  /** The last record of a name in the root is what is left of it. */
  lemma PutLast(t: Tree, rs: seq<Rec>, at: nat, n: Bytes, rest: seq<Rec>)
    requires n == INIT && at < |rs| && rs[at].name == n && rest == rs[at + 1..]
    requires forall i :: 0 <= i < |rest| ==> rest[i].name != n
    ensures var u := Unpack(t, rs); n in u && u[n] == Node(rs[at].mode, rs[at].data)
  {
    var front := rs[..at + 1];
    assert rs == front + rest;
    UnpackMore(t, front, rest);
    assert front[..at] == rs[..at] && front[at] == rs[at];
    InitParent();
    Untouched(Unpack(t, front), rest, n);
  }

  /** The guard's archive brings its own directory, so the guard is unpacked. */
  lemma GuardUnpacked(t: Tree, guard: File, dg: seq<Bytes>)
    requires guard.name == GUARD && OrderOf(dg, Closure({}, {guard.name}))
    ensures var u := Unpack(t, Records(dg, [guard])); GUARD in u && u[GUARD] == Node(guard.mode, guard.data)
  {
    GuardParents(guard.name, dg);
    OneName(guard);
    assert |CONSOLE| == 11 && |GUARD| == 21;
    assert forall i :: 0 <= i < |dg| ==> dg[i] != GUARD && dg[i] != CONSOLE;
    ArchiveUnpacked(t, dg, {}, [guard]);
    var fs := [guard];
    assert fs[0].name in Unpack(t, Records(dg, fs));
  }

  lemma GuardFits(guard: File, dg: seq<Bytes>)
    requires guard.name == GUARD && FileFits(guard) && OrderOf(dg, Closure({}, {guard.name}))
    ensures Fits(dg, [guard])
  {
    var n := guard.name;
    GuardParents(n, dg);
    assert |TRAILER| == 10;
    forall i | 0 <= i < |dg|
      ensures dg[i] == n[..3]
    {
      assert dg[i] in dg;
    }
    AllAlike(dg, n[..3]);
  }

  lemma AllAlike(ds: seq<Bytes>, x: Bytes)
    requires Ordered(ds) && forall i :: 0 <= i < |ds| ==> ds[i] == x
    ensures |ds| <= 1
  {
    if |ds| > 1 {
      TwoDiffer(ds);
    }
  }

  lemma TwoDiffer(ds: seq<Bytes>)
    requires Ordered(ds) && |ds| > 1
    ensures ds[0] != ds[1]
  {
  }

  lemma InitFits(fs: seq<File>, ds: seq<Bytes>, init: File, di: seq<Bytes>)
    requires Fits(ds, fs) && Given(fs, init, None) && OrderOf(di, Closure({}, {init.name}))
    ensures Fits(di, [init])
  {
    NoSlashNoParents(init.name, di);
    NoElements(di);
  }

  lemma NoElements(ds: seq<Bytes>)
    requires forall x :: x !in ds
    ensures ds == []
  {
    if ds != [] {
      HasElement(ds);
    }
  }

  lemma HasElement(ds: seq<Bytes>)
    requires ds != []
    ensures exists x :: x in ds
  {
    assert ds[0] in ds;
  }

  // ---- all segments

  lemma {:induction false} ConcatMore(a: seq<Bytes>, b: seq<Bytes>)
    ensures Lz4Legacy.Concat(a + b) == Lz4Legacy.Concat(a) + Lz4Legacy.Concat(b)
  {
    if a == [] {
      assert a + b == b;
    } else {
      ConcatMore(a[1..], b);
      assert (a + b)[0] == a[0] && (a + b)[1..] == a[1..] + b;
      Assoc(a[0], Lz4Legacy.Concat(a[1..]), Lz4Legacy.Concat(b));
    }
  }

  lemma ConcatOne(x: Bytes)
    ensures Lz4Legacy.Concat([x]) == x
  {
    assert [x][1..] == [] && x + [] == x;
  }

  /** The data of all segments, one after another. */
  lemma PartsData(main: Bytes, frames: Option<seq<Bytes>>, again: Bytes, guard: Option<Bytes>, g: Bytes)
    requires g == if guard.None? then [] else guard.value
    ensures Lz4Legacy.Concat(Segments(main, frames, again, guard)) ==
            main + if frames.None? then g else Lz4Legacy.Concat(frames.value) + (again + g)
  {
    var more: seq<Bytes> := if frames.None? then [] else frames.value + [again];
    var last: seq<Bytes> := if guard.None? then [] else [guard.value];
    ConcatOne(main);
    ConcatMore([main] + more, last);
    ConcatMore([main], more);
    if guard.Some? {
      ConcatOne(guard.value);
    }
    if frames.Some? {
      ConcatMore(frames.value, [again]);
      ConcatOne(again);
      Assoc(Lz4Legacy.Concat(frames.value), again, g);
    }
    Assoc(main, Lz4Legacy.Concat(more), g);
  }

  ghost function GuardRecs(guard: Option<File>, dg: seq<Bytes>): seq<Rec> { if guard.None? then [] else Records(dg, [guard.value]) }

  function GuardData(guard: Option<File>, dg: seq<Bytes>): Bytes { if guard.None? then [] else Archive(dg, [guard.value]) }

  lemma GuardReads(guard: Option<File>, dg: seq<Bytes>, g: Bytes)
    requires guard.Some? ==> guard.value.name == GUARD && FileFits(guard.value) && OrderOf(dg, Closure({}, {guard.value.name}))
    requires g == GuardData(guard, dg)
    ensures ReadTail(g) == Some(GuardRecs(guard, dg)) && |g| % 4 == 0
  {
    NoZeroes([]);
    if guard.Some? {
      GuardFits(guard.value, dg);
      assert g + [] == g;
      ArchiveReads(dg, [guard.value], [], g, Some([]));
      assert GuardRecs(guard, dg) + [] == GuardRecs(guard, dg);
      NoZeroes(g);
      ArchiveWords(dg, [guard.value]);
    }
  }

  lemma GuardLast(t: Tree, init: File, guard: Option<File>, dg: seq<Bytes>)
    requires INIT in t && t[INIT] == Node(init.mode, init.data)
    requires guard.Some? ==> guard.value.name == GUARD && OrderOf(dg, Closure({}, {guard.value.name}))
    ensures var u := Unpack(t, GuardRecs(guard, dg));
            && INIT in u && u[INIT] == Node(init.mode, init.data)
            && (guard.Some? ==> GUARD in u && u[GUARD] == Node(guard.value.mode, guard.value.data))
  {
    if guard.Some? {
      GuardKeepsInit(t, guard.value, dg);
      GuardUnpacked(t, guard.value, dg);
    }
  }

  /** Without an appended segment the init is the one of the main archive. */
  lemma InitOfMain(ds: seq<Bytes>, fs: seq<File>, init: File, guard: Option<File>, dg: seq<Bytes>, d: Bytes)
    requires Given(fs, init, guard) && Fits(ds, fs) && d == Archive(ds, fs) + GuardData(guard, dg)
    requires guard.Some? ==> FileFits(guard.value) && OrderOf(dg, Closure({}, {guard.value.name}))
    ensures InitLeft(Some(d), init, guard)
  {
    var g, recs := GuardData(guard, dg), GuardRecs(guard, dg);
    GuardReads(guard, dg, g);
    ArchiveReads(ds, fs, g, d, Some(recs));
    UnpackMore(map[], Records(ds, fs), recs);
    InitUnpacked(map[], ds, fs, init);
    GuardLast(Unpack(map[], Records(ds, fs)), init, guard, dg);
  }

  /** The data behind an appended segment, which reads as the init and the guard. */
  lemma BehindReads(ds: seq<Bytes>, fs: seq<File>, init: File, di: seq<Bytes>, guard: Option<File>, dg: seq<Bytes>, behind: Bytes)
    requires Given(fs, init, guard) && Fits(ds, fs) && OrderOf(di, Closure({}, {init.name}))
    requires guard.Some? ==> FileFits(guard.value) && OrderOf(dg, Closure({}, {guard.value.name}))
    requires behind == Archive(di, [init]) + GuardData(guard, dg)
    ensures ReadRecs(behind) == Some(Records(di, [init]) + GuardRecs(guard, dg))
    ensures behind != [] && behind[0] != NUL && |behind| % 4 == 0
  {
    var g := GuardData(guard, dg);
    GuardReads(guard, dg, g);
    InitFits(fs, ds, init, di);
    ArchiveReads(di, [init], g, behind, Some(GuardRecs(guard, dg)));
    ArchiveWords(di, [init]);
    WordsJoin(Archive(di, [init]), g);
  }

  lemma WordsJoin(a: Bytes, b: Bytes)
    requires |a| % 4 == 0 && |b| % 4 == 0
    ensures |a + b| % 4 == 0
  {
  }

  lemma {:induction false} FlatWords(rs: seq<Rec>)
    ensures |Flat(rs)| % 4 == 0
  {
    if rs != [] {
      FlatWords(rs[1..]);
      WordsJoin(Record(rs[0]), Flat(rs[1..]));
    }
  }

  lemma ArchiveWords(ds: seq<Bytes>, fs: seq<File>)
    ensures |Archive(ds, fs)| % 4 == 0
  {
    FlatWords(Records(ds, fs));
    WordsJoin(Flat(Records(ds, fs)), Record(Rec(TRAILER, [], 0, |ds| + |fs| + 2, 0, 0)));
  }

  /** With one it is the init behind it exactly when the segment's data can be read to its end, unless that ends inside a
      record. */
  lemma InitBehind(ds: seq<Bytes>, fs: seq<File>, e: Bytes, init: File, di: seq<Bytes>, guard: Option<File>, dg: seq<Bytes>, d: Bytes)
    requires Given(fs, init, guard) && Fits(ds, fs) && OrderOf(di, Closure({}, {init.name})) && !CutTail(e)
    requires guard.Some? ==> FileFits(guard.value) && OrderOf(dg, Closure({}, {guard.value.name}))
    requires d == Archive(ds, fs) + (e + (Archive(di, [init]) + GuardData(guard, dg)))
    ensures InitLeft(Some(d), init, guard) <==> Continues(e)
  {
    var recs, mine := GuardRecs(guard, dg), Records(di, [init]);
    var behind := Archive(di, [init]) + GuardData(guard, dg);
    BehindReads(ds, fs, init, di, guard, dg, behind);
    TailExact(e, behind, Some(mine + recs));
    ArchiveReads(ds, fs, e + behind, d, ReadTail(e + behind));
    if Continues(e) {
      var extra := ReadTail(e).value;
      LastOf(Records(ds, fs), extra, mine, recs);
      InitUnpacked(Unpack(Unpack(map[], Records(ds, fs)), extra), di, [init], init);
      GuardLast(Unpack(Unpack(Unpack(map[], Records(ds, fs)), extra), mine), init, guard, dg);
    }
  }

  lemma LastOf(a: seq<Rec>, b: seq<Rec>, c: seq<Rec>, d: seq<Rec>)
    ensures Unpack(map[], a + (b + (c + d))) == Unpack(Unpack(Unpack(Unpack(map[], a), b), c), d)
  {
    UnpackMore(map[], a, b + (c + d));
    UnpackMore(Unpack(map[], a), b, c + d);
    UnpackMore(Unpack(Unpack(map[], a), b), c, d);
  }

  /** The decompressed ramdisk. */
  function RamData(ds: seq<Bytes>, fs: seq<File>, frames: Option<seq<Bytes>>, init: File, di: seq<Bytes>, guard: Option<File>, dg: seq<Bytes>): Bytes {
    Lz4Legacy.Concat(Segments(Archive(ds, fs), frames, Archive(di, [init]),
                              if guard.None? then None else Some(Archive(dg, [guard.value]))))
  }

  lemma RamDataIs(ds: seq<Bytes>, fs: seq<File>, frames: Option<seq<Bytes>>, init: File, di: seq<Bytes>, guard: Option<File>, dg: seq<Bytes>)
    ensures var g := GuardData(guard, dg);
            RamData(ds, fs, frames, init, di, guard, dg) ==
            Archive(ds, fs) + if frames.None? then g else Lz4Legacy.Concat(frames.value) + (Archive(di, [init]) + g)
  {
    var file := if guard.None? then None else Some(Archive(dg, [guard.value]));
    PartsData(Archive(ds, fs), frames, Archive(di, [init]), file, GuardData(guard, dg));
  }

  /** Read to its end and unpacked in order, the ramdisk leaves the init built here: always without an appended segment, and
      with one that does not end inside a record if and only if its data can be read; with and without a guard. */
  lemma InitIsLast(ds: seq<Bytes>, fs: seq<File>, frames: Option<seq<Bytes>>, init: File, di: seq<Bytes>, guard: Option<File>, dg: seq<Bytes>)
    requires Given(fs, init, guard) && Fits(ds, fs) && OrderOf(di, Closure({}, {init.name}))
    requires guard.Some? ==> FileFits(guard.value) && OrderOf(dg, Closure({}, {guard.value.name}))
    requires frames.Some? ==> !CutTail(Lz4Legacy.Concat(frames.value))
    ensures InitLeft(Some(RamData(ds, fs, frames, init, di, guard, dg)), init, guard)
            <==> (frames.Some? ==> Continues(Lz4Legacy.Concat(frames.value)))
  {
    RamDataIs(ds, fs, frames, init, di, guard, dg);
    var d := RamData(ds, fs, frames, init, di, guard, dg);
    if frames.None? {
      InitOfMain(ds, fs, init, guard, dg, d);
    } else {
      InitBehind(ds, fs, Lz4Legacy.Concat(frames.value), init, di, guard, dg, d);
    }
  }

  /** An appended segment is checked for its magic number only. One whose data begins with anything but a record or a zero
      ends the reading before the init behind it. */
  lemma UnreadableStops(ds: seq<Bytes>, fs: seq<File>, frames: seq<Bytes>, init: File, di: seq<Bytes>, guard: Option<File>, dg: seq<Bytes>)
    requires Given(fs, init, guard) && Fits(ds, fs) && OrderOf(di, Closure({}, {init.name}))
    requires guard.Some? ==> FileFits(guard.value) && OrderOf(dg, Closure({}, {guard.value.name}))
    requires var junk := Lz4Legacy.Concat(frames); junk != [] && junk[0] != NUL && junk[0] != Cpio.MAGIC[0]
    ensures !InitLeft(Some(RamData(ds, fs, Some(frames), init, di, guard, dg)), init, guard)
  {
    JunkStops(Lz4Legacy.Concat(frames));
    InitIsLast(ds, fs, Some(frames), init, di, guard, dg);
  }

  predicate LeftIs(t: Tree, r: Rec) { r.name in t && t[r.name] == Node(r.mode, r.data) }

  /** A segment that ends inside a record: everything can be read, but the record that is cut takes the init behind it for its
      own data, and the init that is left is the segment's. */
  lemma CutTakesInit(ds: seq<Bytes>, fs: seq<File>, frames: seq<Bytes>, init: File, di: seq<Bytes>, guard: Option<File>, dg: seq<Bytes>,
                     theirs: seq<Rec>, other: Rec, x: Rec)
    requires Given(fs, init, guard) && Fits(ds, fs) && OrderOf(di, Closure({}, {init.name}))
    requires guard.Some? ==> FileFits(guard.value) && OrderOf(dg, Closure({}, {guard.value.name}))
    requires forall i :: 0 <= i < |theirs| ==> Small(theirs[i]) && theirs[i].name != TRAILER
    requires Small(other) && other.name == INIT && Node(other.mode, other.data) != Node(init.mode, init.data)
    requires Small(x) && x.name != TRAILER && x.name != INIT && x.data == Archive(di, [init]) + GuardData(guard, dg)
    requires Lz4Legacy.Concat(frames) == Flat(theirs + [other]) + UpToData(x)
    ensures CutTail(Lz4Legacy.Concat(frames))
    ensures var d := RamData(ds, fs, Some(frames), init, di, guard, dg);
            && ReadRecs(d) == Some(Records(ds, fs) + (theirs + [other] + [x]))
            && LeftIs(Unpack(map[], ReadRecs(d).value), other) && !InitLeft(Some(d), init, guard)
  {
    var e, recs, d := Lz4Legacy.Concat(frames), theirs + [other], RamData(ds, fs, Some(frames), init, di, guard, dg);
    BehindReads(ds, fs, init, di, guard, dg, x.data);
    DataCompletes(x);
    CutIsCut(recs, x, UpToData(x), e);
    RamDataIs(ds, fs, Some(frames), init, di, guard, dg);
    CutReads(recs, x, UpToData(x), e + x.data);
    ArchiveReads(ds, fs, e + x.data, d, Some(recs + [x]));
    TheirsLeft(Records(ds, fs), theirs, other, x);
  }

  lemma CutIsCut(recs: seq<Rec>, x: Rec, c: Bytes, e: Bytes)
    requires recs != [] && forall i :: 0 <= i < |recs| ==> Small(recs[i]) && recs[i].name != TRAILER
    requires Small(x) && x.data != [] && |x.data| % 4 == 0 && c + x.data == Record(x) && e == Flat(recs) + c
    ensures CutTail(e)
  {
    HeadIsFront(x, c);
    CutBehind(recs, c, e);
    FlatStarts(recs, c, e);
    assert AfterTrailer(e) == Some(e);
  }

  lemma RecordAlone(x: Rec, d: Bytes)
    requires Small(x) && x.name != TRAILER && d == Record(x)
    ensures ReadRecs(d) == Some([x])
  {
    assert d + [] == d;
    NextBack(x, [], d, Some([]));
    assert [x] + [] == [x];
  }

  lemma CutReads(recs: seq<Rec>, x: Rec, c: Bytes, d: Bytes)
    requires recs != [] && forall i :: 0 <= i < |recs| ==> Small(recs[i]) && recs[i].name != TRAILER
    requires Small(x) && x.name != TRAILER && c + x.data == Record(x) && d == Flat(recs) + c + x.data
    ensures ReadTail(d) == Some(recs + [x])
  {
    Assoc(Flat(recs), c, x.data);
    RecordAlone(x, Record(x));
    FlatBack(recs, Record(x), d, Some([x]));
    FlatStarts(recs, Record(x), d);
    NoZeroes(d);
  }

  lemma TheirsLeft(main: seq<Rec>, theirs: seq<Rec>, other: Rec, x: Rec)
    requires other.name == INIT && x.name != INIT
    ensures LeftIs(Unpack(map[], main + (theirs + [other] + [x])), other)
  {
    var rs := main + (theirs + [other] + [x]);
    var at := |main| + |theirs|;
    assert rs[at] == other && rs[at + 1..] == [x];
    PutLast(map[], rs, at, INIT, rs[at + 1..]);
  }

  /** The archive of init alone, unpacked into nothing, leaves no console: its directory is not among the entries. */
  lemma ConsoleMissing(init: File, di: seq<Bytes>)
    requires init.name == INIT && init.mode / 4096 != 4 && OrderOf(di, Closure({}, {init.name}))
    ensures CONSOLE !in Unpack(map[], Records(di, [init]))
  {
    NoSlashNoParents(init.name, di);
    assert |INIT| == 4 && |CONSOLE| == 11;
    OneName(init);
    ConsoleUnpacked(di, {}, [init]);
    assert DEV !in di;
  }

}
