/** The ramdisk: a cpio archive with every parent directory in front of what is in it, as the kernel unpacks it. */
module Ramdisk {
  import opened Bytes
  import opened Paths
  import opened Text
  import opened Cpio

  const DEV: Bytes := [100, 101, 118]
  const CONSOLE: Bytes := [100, 101, 118, 47, 99, 111, 110, 115, 111, 108, 101]     // dev/console
  const DIR_MODE := 16877                                                           // a directory, 755
  const CONSOLE_MODE := 8576                                                        // a character device, 600

  datatype File = File(name: Bytes, data: Bytes, mode: nat)

  // ---- the directories above a name

  function Ancestors(n: Bytes): set<Bytes> { set k | 0 < k < |n| && n[k] == SLASH :: n[..k] }

  function Depth(n: Bytes): nat {
    if n == [] then 0 else Depth(n[..|n| - 1]) + if n[|n| - 1] == SLASH then 1 else 0
  }

  lemma {:induction false} DepthPrefix(n: Bytes, k: nat)
    requires k <= |n|
    ensures Depth(n[..k]) <= Depth(n) && (k < |n| && n[k] == SLASH ==> Depth(n[..k]) < Depth(n))
    decreases |n|
  {
    if k == |n| {
      assert n[..k] == n;
    } else {
      var m := n[..|n| - 1];
      DepthPrefix(m, k);
      assert m[..k] == n[..k];
    }
  }

  lemma AncestorIsHigher(n: Bytes, a: Bytes)
    requires a in Ancestors(n)
    ensures Depth(a) < Depth(n) && Ancestors(a) <= Ancestors(n)
  {
    var k :| 0 < k < |n| && n[k] == SLASH && a == n[..k];
    DepthPrefix(n, k);
    forall b | b in Ancestors(a)
      ensures b in Ancestors(n)
    {
      var j :| 0 < j < |a| && a[j] == SLASH && b == a[..j];
      assert n[..j] == b && n[j] == SLASH;
    }
  }

  lemma {:induction false} LastSlashIs(n: Bytes)
    ensures var k := LastSlash(n); k > 0 ==> k < |n| && n[k] == SLASH
  {
    if n != [] && n[|n| - 1] != SLASH {
      LastSlashIs(n[..|n| - 1]);
    }
  }

  lemma ParentIsAncestor(n: Bytes)
    ensures Parent(n) == [] || Parent(n) in Ancestors(n)
  {
    LastSlashIs(n);
  }

  /** The given directories and every directory above a given name. */
  function Closure(dirs: set<Bytes>, names: set<Bytes>): set<Bytes> {
    dirs + set x, a | x in names + dirs && a in Ancestors(x) :: a
  }

  lemma ClosureClosed(dirs: set<Bytes>, names: set<Bytes>, x: Bytes)
    requires x in Closure(dirs, names) || x in names
    ensures Parent(x) == [] || Parent(x) in Closure(dirs, names)
  {
    ParentIsAncestor(x);
    if x !in dirs && x !in names {
      var y :| y in names + dirs && x in Ancestors(y);
      AncestorIsHigher(y, x);
    }
  }

  // ---- the records

  /** The directories in the order of their depth, those of one depth by name. */
  predicate Ordered(ds: seq<Bytes>) {
    forall i, j :: 0 <= i < j < |ds| ==> ds[i] != ds[j] && Depth(ds[i]) <= Depth(ds[j]) && (Depth(ds[i]) == Depth(ds[j]) ==> Le(ds[i], ds[j]))
  }

  ghost predicate OrderOf(ds: seq<Bytes>, s: set<Bytes>) { Ordered(ds) && forall d :: d in ds <==> d in s }

  function DirRecs(ds: seq<Bytes>): seq<Rec> { seq(|ds|, i requires 0 <= i < |ds| => Rec(ds[i], [], DIR_MODE, i + 1, 0, 0)) }

  function FileRecs(fs: seq<File>, n: nat): seq<Rec> {
    seq(|fs|, i requires 0 <= i < |fs| => Rec(fs[i].name, fs[i].data, fs[i].mode, n + i + 1, 0, 0))
  }

  function Console(ino: nat): Rec { Rec(CONSOLE, [], CONSOLE_MODE, ino, 5, 1) }

  function Records(ds: seq<Bytes>, fs: seq<File>): seq<Rec> {
    DirRecs(ds) + FileRecs(fs, |ds|) + [Console(|ds| + |fs| + 1)]
  }

  function Archive(ds: seq<Bytes>, fs: seq<File>): Bytes {
    Flat(Records(ds, fs)) + Record(Rec(TRAILER, [], 0, |ds| + |fs| + 2, 0, 0))
  }

  function NamesIn(fs: seq<File>): set<Bytes> { set i | 0 <= i < |fs| :: fs[i].name }

  predicate Fits(ds: seq<Bytes>, fs: seq<File>) {
    && |ds| + |fs| + 2 < TWO32
    && (forall i :: 0 <= i < |ds| ==> |ds[i]| + 1 < TWO32 && ds[i] != TRAILER)
    && (forall i :: 0 <= i < |fs| ==> |fs[i].name| + 1 < TWO32 && |fs[i].data| < TWO32 && fs[i].mode < TWO32 && fs[i].name != TRAILER)
  }

  /** The names read back from an archive: the closed set of directories, the files and dev/console. */
  lemma ArchiveNames(dirs: set<Bytes>, ds: seq<Bytes>, fs: seq<File>)
    requires Fits(ds, fs) && OrderOf(ds, Closure(dirs, NamesIn(fs)))
    ensures Names(Archive(ds, fs)) == Some(Closure(dirs, NamesIn(fs)) + NamesIn(fs) + {CONSOLE})
  {
    var rs := Records(ds, fs);
    assert CONSOLE != TRAILER by {
      assert |CONSOLE| == 11 && |TRAILER| == 10;
    }
    NamesBack(rs, Rec(TRAILER, [], 0, |ds| + |fs| + 2, 0, 0));
    RecordNames(ds, fs);
    assert (set d | d in ds) == Closure(dirs, NamesIn(fs));
  }

  lemma RecordNames(ds: seq<Bytes>, fs: seq<File>)
    ensures NamesOf(Records(ds, fs)) == (set d | d in ds) + NamesIn(fs) + {CONSOLE}
  {
    var rs := Records(ds, fs);
    assert forall i :: 0 <= i < |ds| ==> rs[i].name == ds[i];
    assert forall i :: 0 <= i < |fs| ==> rs[|ds| + i].name == fs[i].name;
    assert rs[|ds| + |fs|].name == CONSOLE;
    forall n
      ensures n in NamesOf(rs) <==> n in ds || n in NamesIn(fs) || n == CONSOLE
    {
      if n in ds {
        var i :| 0 <= i < |ds| && ds[i] == n;
        assert rs[i].name == n;
      }
      if n in NamesIn(fs) {
        var i :| 0 <= i < |fs| && fs[i].name == n;
        assert rs[|ds| + i].name == n;
      }
      if n in NamesOf(rs) {
        var i :| 0 <= i < |rs| && rs[i].name == n;
        if |ds| <= i < |ds| + |fs| {
          assert fs[i - |ds|].name == n;
        }
      }
    }
  }

  // ---- unpacking

  datatype Node = Node(mode: nat, data: Bytes)
  type Tree = map<Bytes, Node>

  predicate IsDir(t: Tree, n: Bytes) { n in t && t[n].mode / 4096 == 4 }

  /** A record is unpacked when the directory it is in is there. A later one of the same name takes the place of an earlier
      one. */
  function Put(t: Tree, r: Rec): Tree {
    if Parent(r.name) == [] || IsDir(t, Parent(r.name)) then t[r.name := Node(r.mode, r.data)] else t
  }

  function Unpack(t: Tree, rs: seq<Rec>): Tree {
    if rs == [] then t else Put(Unpack(t, rs[..|rs| - 1]), rs[|rs| - 1])
  }

  lemma {:induction false} UnpackMore(t: Tree, a: seq<Rec>, b: seq<Rec>)
    ensures Unpack(t, a + b) == Unpack(Unpack(t, a), b)
    decreases |b|
  {
    if b == [] {
      assert a + b == a;
    } else {
      UnpackMore(t, a, b[..|b| - 1]);
      assert (a + b)[..|a + b| - 1] == a + b[..|b| - 1];
    }
  }

  lemma {:induction false} Untouched(t: Tree, rs: seq<Rec>, n: Bytes)
    requires forall i :: 0 <= i < |rs| ==> rs[i].name != n
    ensures (n in Unpack(t, rs) <==> n in t) && (n in t ==> Unpack(t, rs)[n] == t[n])
    decreases |rs|
  {
    if rs != [] {
      Untouched(t, rs[..|rs| - 1], n);
    }
  }

  ghost predicate AllDirs(t: Tree, ds: seq<Bytes>, k: nat) { forall i :: 0 <= i < k <= |ds| ==> IsDir(t, ds[i]) }

  /** Every directory finds the one it is in. */
  lemma {:induction false} DirsUnpacked(t: Tree, ds: seq<Bytes>, s: set<Bytes>, names: set<Bytes>, k: nat)
    requires OrderOf(ds, Closure(s, names)) && k <= |ds|
    ensures AllDirs(Unpack(t, DirRecs(ds)[..k]), ds, k)
    decreases k
  {
    if k > 0 {
      DirsUnpacked(t, ds, s, names, k - 1);
      var rs := DirRecs(ds)[..k];
      assert rs[..k - 1] == DirRecs(ds)[..k - 1];
      ParentEarlier(ds, s, names, k - 1);
    }
  }

  lemma ParentEarlier(ds: seq<Bytes>, s: set<Bytes>, names: set<Bytes>, k: nat)
    requires OrderOf(ds, Closure(s, names)) && k < |ds|
    ensures Parent(ds[k]) == [] || exists j :: 0 <= j < k && ds[j] == Parent(ds[k])
  {
    var p := Parent(ds[k]);
    ClosureClosed(s, names, ds[k]);
    ParentIsAncestor(ds[k]);
    if p != [] {
      AncestorIsHigher(ds[k], p);
      assert p in ds;
      var j :| 0 <= j < |ds| && ds[j] == p;
      assert !(k < j);
    }
  }

  /** Names for one tree: no file where a directory is, no name twice, the console not among them. */
  predicate Consistent(ds: seq<Bytes>, fs: seq<File>) {
    && (forall i, j :: 0 <= i < j < |fs| ==> fs[i].name != fs[j].name)
    && (forall i :: 0 <= i < |fs| ==> fs[i].name !in ds && fs[i].name != CONSOLE)
    && CONSOLE !in ds
  }

  ghost predicate Holds(t: Tree, fs: seq<File>, k: nat) {
    forall i :: 0 <= i < k <= |fs| ==> fs[i].name in t && t[fs[i].name] == Node(fs[i].mode, fs[i].data)
  }

  lemma {:induction false} FilesUnpacked(t: Tree, ds: seq<Bytes>, s: set<Bytes>, fs: seq<File>, k: nat)
    requires OrderOf(ds, Closure(s, NamesIn(fs))) && Consistent(ds, fs) && AllDirs(t, ds, |ds|) && k <= |fs|
    ensures AllDirs(Unpack(t, FileRecs(fs, |ds|)[..k]), ds, |ds|) && Holds(Unpack(t, FileRecs(fs, |ds|)[..k]), fs, k)
    decreases k
  {
    if k > 0 {
      FilesUnpacked(t, ds, s, fs, k - 1);
      var rs := FileRecs(fs, |ds|)[..k];
      assert rs[..k - 1] == FileRecs(fs, |ds|)[..k - 1];
      FilePut(Unpack(t, rs[..k - 1]), ds, s, fs, k - 1, rs[k - 1]);
    }
  }

  lemma FilePut(t: Tree, ds: seq<Bytes>, s: set<Bytes>, fs: seq<File>, k: nat, r: Rec)
    requires OrderOf(ds, Closure(s, NamesIn(fs))) && Consistent(ds, fs) && AllDirs(t, ds, |ds|) && k < |fs| && Holds(t, fs, k)
    requires r.name == fs[k].name && r.mode == fs[k].mode && r.data == fs[k].data
    ensures AllDirs(Put(t, r), ds, |ds|) && Holds(Put(t, r), fs, k + 1)
  {
    ClosureClosed(s, NamesIn(fs), r.name);
    assert Parent(r.name) != [] ==> Parent(r.name) in ds;
  }

  /** Every directory and every file of the archive is unpacked, over whatever is there already. */
  lemma ArchiveUnpacked(t: Tree, ds: seq<Bytes>, s: set<Bytes>, fs: seq<File>)
    requires OrderOf(ds, Closure(s, NamesIn(fs))) && Consistent(ds, fs)
    ensures var u := Unpack(t, Records(ds, fs)); AllDirs(u, ds, |ds|) && Holds(u, fs, |fs|)
  {
    var a, b := DirRecs(ds), FileRecs(fs, |ds|);
    DirsUnpacked(t, ds, s, NamesIn(fs), |ds|);
    assert a[..|ds|] == a && b[..|fs|] == b;
    FilesUnpacked(Unpack(t, a), ds, s, fs, |fs|);
    UnpackMore(t, a, b);
    var rs := Records(ds, fs);
    assert rs[..|rs| - 1] == a + b;
  }

  /** The console is unpacked exactly when some entry names the directory dev or one below it. */
  lemma ConsoleUnpacked(ds: seq<Bytes>, s: set<Bytes>, fs: seq<File>)
    requires OrderOf(ds, Closure(s, NamesIn(fs))) && Consistent(ds, fs) && forall i :: 0 <= i < |fs| ==> fs[i].mode / 4096 != 4
    ensures CONSOLE in Unpack(map[], Records(ds, fs)) <==> DEV in Closure(s, NamesIn(fs))
  {
    var a, b, rs := DirRecs(ds), FileRecs(fs, |ds|), Records(ds, fs);
    assert rs[..|rs| - 1] == a + b;
    ConsoleParent();
    Untouched(map[], a + b, CONSOLE);
    DevBefore(ds, s, fs, a + b);
  }

  /** Before the console, dev is a directory exactly when it is one of the archive's. */
  lemma DevBefore(ds: seq<Bytes>, s: set<Bytes>, fs: seq<File>, rs: seq<Rec>)
    requires OrderOf(ds, Closure(s, NamesIn(fs))) && Consistent(ds, fs) && forall i :: 0 <= i < |fs| ==> fs[i].mode / 4096 != 4
    requires rs == DirRecs(ds) + FileRecs(fs, |ds|)
    ensures IsDir(Unpack(map[], rs), DEV) <==> DEV in ds
  {
    var a, b := DirRecs(ds), FileRecs(fs, |ds|);
    DirsUnpacked(map[], ds, s, NamesIn(fs), |ds|);
    assert a[..|ds|] == a && b[..|fs|] == b;
    FilesUnpacked(Unpack(map[], a), ds, s, fs, |fs|);
    UnpackMore(map[], a, b);
    if DEV !in ds {
      if DEV in NamesIn(fs) {
        var i :| 0 <= i < |fs| && fs[i].name == DEV;
        assert fs[i].name in Unpack(map[], rs);
      } else {
        Untouched(map[], rs, DEV);
      }
    }
  }

  lemma ConsoleParent()
    ensures Parent(CONSOLE) == DEV
  {
    ParentOf(CONSOLE, 3);
  }

  lemma ParentOf(n: Bytes, k: nat)
    requires 0 < k < |n| && n[k] == SLASH && forall j :: k < j < |n| ==> n[j] != SLASH
    ensures Parent(n) == n[..k]
  {
    LastSlashAt(n, k);
  }

  lemma {:induction false} LastSlashAt(n: Bytes, k: nat)
    requires k < |n| && n[k] == SLASH && forall j :: k < j < |n| ==> n[j] != SLASH
    ensures LastSlash(n) == k
    decreases |n|
  {
    if k < |n| - 1 {
      LastSlashAt(n[..|n| - 1], k);
    }
  }
}
