/** Building the ramdisk: the archives, their framing and the order of the segments. */
module RamdiskBuild {
  import opened Bytes
  import opened Text
  import opened SortBy
  import opened Cpio
  import opened Ramdisk
  import opened RamdiskInit
  import Lz4Legacy
  import opened CpioRead

  // ---- `cpio_archive`

  method Elements(s: set<Bytes>) returns (xs: seq<Bytes>)
    ensures NoRepeats(xs) && forall x :: x in xs <==> x in s
  {
    xs := [];
    var left := s;
    while left != {}
      invariant NoRepeats(xs) && left <= s && forall x :: x in xs <==> x in s && x !in left
      decreases left
    {
      var x :| x in left;
      assert x !in xs;
      xs := xs + [x];
      left := left - {x};
    }
  }

  function DirKey(d: Bytes): (Bytes, Bytes) { (Zeros(Depth(d)), d) }

  lemma {:induction false} ZerosOrder(a: nat, b: nat)
    ensures Le(Zeros(a), Zeros(b)) <==> a <= b
  {
    if a > 0 && b > 0 {
      ZerosOrder(a - 1, b - 1);
      assert Zeros(a)[1..] == Zeros(a - 1) && Zeros(b)[1..] == Zeros(b - 1);
    }
  }

  lemma KeyOrder(x: Bytes, y: Bytes)
    requires PairLe(DirKey(x), DirKey(y))
    ensures Depth(x) <= Depth(y) && (Depth(x) == Depth(y) ==> Le(x, y))
  {
    ZerosOrder(Depth(x), Depth(y));
  }

  lemma SortedDirs(xs: seq<Bytes>, ds: seq<Bytes>)
    requires NoRepeats(xs) && ds == Sort(xs, DirKey)
    ensures Ordered(ds) && forall d :: d in ds <==> d in xs
  {
    SortSorts(xs, DirKey);
    SameMembers(xs, ds);
    NoRepeatsKept(xs, ds);
    forall i, j | 0 <= i < j < |ds|
      ensures Depth(ds[i]) <= Depth(ds[j]) && (Depth(ds[i]) == Depth(ds[j]) ==> Le(ds[i], ds[j]))
    {
      KeyOrder(ds[i], ds[j]);
    }
  }

  /** The directories above the first k names. */
  function Above(xs: seq<Bytes>, k: nat): set<Bytes>
    requires k <= |xs|
  {
    set i, a | 0 <= i < k && a in Ancestors(xs[i]) :: a
  }

  method AddParents(dirs: set<Bytes>, xs: seq<Bytes>) returns (all: set<Bytes>)
    ensures all == dirs + Above(xs, |xs|)
  {
    all := dirs;
    var i := 0;
    while i < |xs|
      invariant 0 <= i <= |xs| && all == dirs + Above(xs, i)
    {
      all := all + Ancestors(xs[i]);
      assert Above(xs, i + 1) == Above(xs, i) + Ancestors(xs[i]);
      i := i + 1;
    }
  }

  lemma AboveIsClosure(dirs: set<Bytes>, fs: seq<File>, xs: seq<Bytes>)
    requires forall x :: x in xs <==> x in NamesIn(fs) + dirs
    ensures dirs + Above(xs, |xs|) == Closure(dirs, NamesIn(fs))
  {
    forall a
      ensures a in Above(xs, |xs|) <==> exists x :: x in NamesIn(fs) + dirs && a in Ancestors(x)
    {
      if a in Above(xs, |xs|) {
        var i :| 0 <= i < |xs| && a in Ancestors(xs[i]);
        assert xs[i] in NamesIn(fs) + dirs;
      }
      if x :| x in NamesIn(fs) + dirs && a in Ancestors(x) {
        var i :| 0 <= i < |xs| && xs[i] == x;
      }
    }
  }

  /** The records, one after another. */
  method Write(rs: seq<Rec>) returns (out: Bytes)
    ensures out == Flat(rs)
  {
    out := [];
    var i := 0;
    assert rs[0..] == rs;
    while i < |rs|
      invariant 0 <= i <= |rs| && out + Flat(rs[i..]) == Flat(rs)
    {
      assert rs[i..][1..] == rs[i + 1..];
      Assoc(out, Record(rs[i]), Flat(rs[i + 1..]));
      out := out + Record(rs[i]);
      i := i + 1;
    }
    assert Flat(rs[i..]) == [] && out + [] == out;
  }

  /** The directories of the archive in their order. */
  method DirOrder(dirs: set<Bytes>, fs: seq<File>) returns (ds: seq<Bytes>)
    ensures OrderOf(ds, Closure(dirs, NamesIn(fs)))
  {
    var names := Elements(NamesIn(fs) + dirs);
    var all := AddParents(dirs, names);
    AboveIsClosure(dirs, fs, names);
    var xs := Elements(all);
    ds := Sort(xs, DirKey);
    SortedDirs(xs, ds);
  }

  /** `cpio_archive` */
  method ArchiveRun(dirs: set<Bytes>, fs: seq<File>) returns (out: Bytes, ds: seq<Bytes>)
    ensures OrderOf(ds, Closure(dirs, NamesIn(fs))) && out == Archive(ds, fs)
  {
    ds := DirOrder(dirs, fs);
    out := Write(Records(ds, fs));
    out := out + Record(Rec(TRAILER, [], 0, |ds| + |fs| + 2, 0, 0));
  }

  // ---- the segments

  lemma {:induction false} Appended(c: Lz4Legacy.Codec, xs: seq<Bytes>, ys: seq<Bytes>)
    ensures Lz4Legacy.EncodeAll(c, xs + ys) == Lz4Legacy.EncodeAll(c, xs) + Lz4Legacy.EncodeAll(c, ys)
    decreases |xs|
  {
    if xs == [] {
      assert xs + ys == ys;
    } else {
      Appended(c, xs[1..], ys);
      assert (xs + ys)[0] == xs[0] && (xs + ys)[1..] == xs[1..] + ys;
      Assoc(Lz4Legacy.Encode(c, xs[0]), Lz4Legacy.EncodeAll(c, xs[1..]), Lz4Legacy.EncodeAll(c, ys));
    }
  }

  lemma One(c: Lz4Legacy.Codec, x: Bytes)
    ensures Lz4Legacy.EncodeAll(c, [x]) == Lz4Legacy.Encode(c, x)
  {
    assert [x][1..] == [];
    assert Lz4Legacy.Encode(c, x) + [] == Lz4Legacy.Encode(c, x);
  }

  /** The segments behind the first. */
  method Append(c: Lz4Legacy.Codec, ram0: Bytes, main: Bytes, frames: Option<seq<Bytes>>, again: Bytes, guard: Option<Bytes>) returns (ram: Bytes)
    requires ram0 == Lz4Legacy.EncodeAll(c, [main])
    ensures ram == Lz4Legacy.EncodeAll(c, Segments(main, frames, again, guard))
  {
    ram := ram0;
    ghost var parts := [main];
    if frames.Some? {
      var segment := Lz4Legacy.EncodeRun(c, again);
      One(c, again);
      Appended(c, frames.value, [again]);
      Appended(c, parts, frames.value + [again]);
      ram := ram + (Lz4Legacy.EncodeAll(c, frames.value) + segment);
      parts := parts + (frames.value + [again]);
    }
    if guard.Some? {
      var segment := Lz4Legacy.EncodeRun(c, guard.value);
      One(c, guard.value);
      Appended(c, parts, [guard.value]);
      ram := ram + segment;
      parts := parts + [guard.value];
    }
    assert parts == Segments(main, frames, again, guard);
  }

  /** The ramdisk of `main`. What the kernel decompresses is its archives in order, and what it unpacks from them ends with
      the init built here: without an appended segment, and with one that does not end inside a record exactly when its data
      can be read. Of that only the magic number is checked. */
  method Build(c: Lz4Legacy.Codec, dirs: set<Bytes>, fs: seq<File>, init: File, frames: Option<seq<Bytes>>, guard: Option<File>)
    returns (ram: Bytes, ds: seq<Bytes>, di: seq<Bytes>, dg: seq<Bytes>)
    requires Lz4Legacy.Works(c) && Given(fs, init, guard)
    ensures OrderOf(ds, Closure(dirs, NamesIn(fs))) && OrderOf(di, Closure({}, {init.name}))
    ensures guard.Some? ==> OrderOf(dg, Closure({}, {guard.value.name}))
    ensures Lz4Legacy.Decode(c, ram, false) == Some(RamData(ds, fs, frames, init, di, guard, dg))
    ensures Fits(ds, fs) && (guard.Some? ==> FileFits(guard.value)) && (frames.Some? ==> !CutTail(Lz4Legacy.Concat(frames.value))) ==>
              (InitLeft(Lz4Legacy.Decode(c, ram, false), init, guard) <==> (frames.Some? ==> Continues(Lz4Legacy.Concat(frames.value))))
  {
    var main, again, file;
    main, ds := ArchiveRun(dirs, fs);
    again, di := ArchiveRun({}, [init]);
    OneName(init);
    file, dg := None, [];
    if guard.Some? {
      var data;
      data, dg := ArchiveRun({}, [guard.value]);
      OneName(guard.value);
      file := Some(data);
    }
    var first := Lz4Legacy.EncodeRun(c, main);
    One(c, main);
    ram := Append(c, first, main, frames, again, file);
    Lz4Legacy.SegmentsBack(c, Segments(main, frames, again, file), false);
    assert Segments(main, frames, again, file) == Segments(Archive(ds, fs), frames, Archive(di, [init]), file);
    if Fits(ds, fs) && (guard.Some? ==> FileFits(guard.value)) && (frames.Some? ==> !CutTail(Lz4Legacy.Concat(frames.value))) {
      InitIsLast(ds, fs, frames, init, di, guard, dg);
    }
  }
}
