/** `mu300-carry copy` and `link`: the listed paths of SRC into DST. A filesystem is a table of inodes and, for each of the
    two trees, the inode every path names; a path is the list of its parts. */
module Copy {
  import opened Bytes

  type Path = seq<Bytes>
  type Ino = nat

  datatype Meta = Meta(uid: nat, gid: nat, suid: bool, sgid: bool, perm: nat, attrs: map<string, Bytes>)
  datatype Body = Regular(data: Bytes) | Directory | Symlink(target: Bytes) | Device(kind: nat, number: nat) | Socket
  datatype Inode = Inode(body: Body, meta: Meta)

  const CAPABILITY := "security.capability"
  const LABEL := "security.selinux"

  datatype IdLine = IdLine(kind: char, from: nat, to: nat)

  /** `map_id`: the first line for the number decides; a number without a line is kept. */
  function MapId(ids: seq<IdLine>, kind: char, id: nat): nat {
    if ids == [] then id
    else if ids[0].kind == kind && ids[0].from == id then ids[0].to
    else MapId(ids[1..], kind, id)
  }

  /** What the run is given. `names` and `files` are SRC. `many(t, i)` says whether inode i has more than one name when the
      t-th line is read; `canLink` whether linking a path of SRC into DST succeeds; `labels` whether the kernel takes an
      SELinux label. */
  datatype Job = Job(names: map<Path, Ino>, files: map<Ino, Inode>, start: Ino, ids: seq<IdLine>, byLink: bool,
                     many: (nat, Ino) -> bool, canLink: Path -> bool, labels: bool)

  datatype Disk = Disk(inodes: map<Ino, Inode>, dst: map<Path, Ino>, next: Ino)

  predicate Moves(c: Job, m: Meta) {
    MapId(c.ids, 'u', m.uid) != m.uid || MapId(c.ids, 'g', m.gid) != m.gid
  }

  // ---- what a copy has to be

  /** The attributes that go along. */
  predicate Goes(c: Job, s: Meta, n: string) {
    n in s.attrs && !(Moves(c, s) && n == CAPABILITY)
  }

  ghost predicate OwnerAndMode(c: Job, s: Meta, t: Meta, link: bool) {
    && t.uid == MapId(c.ids, 'u', s.uid) && t.gid == MapId(c.ids, 'g', s.gid)
    && (!link ==> t.perm == s.perm && t.suid == (s.suid && !Moves(c, s)) && t.sgid == (s.sgid && !Moves(c, s)))
  }

  ghost predicate HasAttrs(c: Job, s: Meta, t: Meta) {
    forall n :: Goes(c, s, n) && n != LABEL ==> n in t.attrs && t.attrs[n] == s.attrs[n]
  }

  ghost predicate OnlyAttrs(c: Job, s: Meta, t: Meta) {
    forall n :: n in t.attrs ==> Goes(c, s, n) && t.attrs[n] == s.attrs[n]
  }

  /** A file of DST is the copy of a file of SRC. */
  ghost predicate Copied(c: Job, s: Inode, t: Inode) {
    t.body == s.body && OwnerAndMode(c, s.meta, t.meta, s.body.Symlink?) && HasAttrs(c, s.meta, t.meta) && OnlyAttrs(c, s.meta, t.meta)
  }

  ghost predicate InSrc(c: Job, p: Path) { p in c.names && c.names[p] in c.files }

  function File(c: Job, p: Path): Inode
    requires InSrc(c, p)
  {
    c.files[c.names[p]]
  }

  ghost predicate IsRegular(c: Job, p: Path) { InSrc(c, p) && File(c, p).body.Regular? }

  /** SRC is a tree with every file below `start`, the first free inode number; a file with two names has a link count to
      show for it. */
  ghost predicate Source(c: Job) {
    && (forall p :: p in c.names ==> c.names[p] in c.files)
    && (forall i :: i in c.files ==> i < c.start)
    && (forall p, i :: p in c.names && 0 < i < |p| ==> p[..i] in c.names && c.files[c.names[p[..i]]].body.Directory?)
    && (forall p, q, t :: p in c.names && q in c.names && p != q && c.names[p] == c.names[q] && c.files[c.names[p]].body.Regular? ==> c.many(t, c.names[p]))
  }

  ghost predicate IsDir(d: Disk, p: Path) { p in d.dst && d.dst[p] in d.inodes && d.inodes[d.dst[p]].body.Directory? }

  /** No directory of DST has a second name, there or in SRC, and SRC is as it was. */
  ghost predicate Sound(c: Job, d: Disk) {
    && (forall p :: p in d.dst ==> d.dst[p] in d.inodes)
    && (forall i :: i in d.inodes ==> i < d.next)
    && c.start <= d.next
    && (forall p, q :: IsDir(d, p) && q in d.dst && d.dst[p] == d.dst[q] ==> p == q)
    && (forall p :: IsDir(d, p) ==> d.dst[p] !in c.files)
    && (forall i :: i in c.files ==> i in d.inodes && d.inodes[i] == c.files[i])
  }

  // ---- where the run is

  /** Path p of SRC, a regular file, is in DST: as SRC's own inode when it was linked, else as a new one. */
  ghost predicate Placed(c: Job, d: Disk, p: Path)
    requires InSrc(c, p)
  {
    && p in d.dst && d.dst[p] in d.inodes
    && Copied(c, File(c, p), d.inodes[d.dst[p]])
    && (d.dst[p] == c.names[p] || c.start <= d.dst[p])
  }

  ghost predicate Done(c: Job, d: Disk, dirs: seq<Path>, p: Path) {
    InSrc(c, p) ==>
      match File(c, p).body
      case Directory => p in dirs
      case Socket => true
      case _ => Placed(c, d, p)
  }

  ghost predicate SameShape(c: Job, d: Disk, p: Path, q: Path)
    requires p in d.dst && q in d.dst && p in c.names && q in c.names
  {
    d.dst[p] == d.dst[q] <==> c.names[p] == c.names[q]
  }

  ghost predicate AllDone(c: Job, d: Disk, dirs: seq<Path>, list: seq<Path>) {
    forall k :: 0 <= k < |list| ==> Done(c, d, dirs, list[k])
  }

  ghost predicate Shape(c: Job, d: Disk, list: seq<Path>) {
    forall k, l :: 0 <= k < |list| && 0 <= l < |list| && IsRegular(c, list[k]) && IsRegular(c, list[l]) ==>
      list[k] in d.dst && list[l] in d.dst && SameShape(c, d, list[k], list[l])
  }

  ghost predicate SeenHolds(c: Job, list: seq<Path>, seen: map<Ino, Path>) {
    && (forall k :: 0 <= k < |list| && IsRegular(c, list[k]) && c.many(k, c.names[list[k]]) ==> c.names[list[k]] in seen)
    && (forall i :: i in seen ==> seen[i] in list && IsRegular(c, seen[i]) && c.names[seen[i]] == i)
  }

  /** The directories whose attributes are set at the end. */
  ghost predicate DirsHold(c: Job, d: Disk, dirs: seq<Path>) {
    forall k :: 0 <= k < |dirs| ==> IsDir(d, dirs[k]) && InSrc(c, dirs[k]) && File(c, dirs[k]).body.Directory?
  }

  /** DST changes at the listed paths and at the directories made for them only. */
  ghost predicate Elsewhere(before: map<Path, Ino>, d: Disk, list: seq<Path>, dirs: seq<Path>) {
    forall p :: p !in list && p !in dirs ==> (p in before <==> p in d.dst) && (p in before ==> d.dst[p] == before[p])
  }

  ghost predicate Inv(c: Job, before: map<Path, Ino>, d: Disk, seen: map<Ino, Path>, dirs: seq<Path>, list: seq<Path>) {
    && Source(c) && Sound(c, d)
    && AllDone(c, d, dirs, list) && Shape(c, d, list)
    && SeenHolds(c, list, seen) && DirsHold(c, d, dirs)
    && Elsewhere(before, d, list, dirs)
  }
}
