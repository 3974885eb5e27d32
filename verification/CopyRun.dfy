/** The program of `mu300-carry copy` and `link`. */
module CopyRun {
  import opened Bytes
  import opened Copy
  import opened CopySteps

  const NEW_META := Meta(0, 0, false, false, 0, map[])

  /** x is p or a directory above it. */
  ghost predicate AtOrAbove(p: Path, x: Path) { x <= p }

  /** The listed paths and the directories above them. */
  ghost predicate Needed(list: seq<Path>, x: Path) {
    exists k :: 0 <= k < |list| && AtOrAbove(list[k], x)
  }

  ghost predicate DirsNeeded(list: seq<Path>, dirs: seq<Path>) {
    forall x :: x in dirs ==> Needed(list, x)
  }

  lemma DirsGrow(list: seq<Path>, had: seq<Path>, dirs: seq<Path>, t: nat)
    requires t < |list| && DirsNeeded(list, had) && forall x :: x in dirs ==> x in had || AtOrAbove(list[t], x)
    ensures DirsNeeded(list, dirs)
  {
  }

  predicate Different(list: seq<Path>) {
    forall i, j :: 0 <= i < j < |list| ==> list[i] != list[j]
  }

  ghost predicate SameName(a: map<Path, Ino>, b: map<Path, Ino>, p: Path) {
    (p in a <==> p in b) && (p in a ==> a[p] == b[p])
  }

  /** A listed path at the end of the run. */
  ghost predicate Finished(c: Job, d: Disk, p: Path) {
    InSrc(c, p) ==>
      match File(c, p).body
      case Directory => DirCopied(c, d, p)
      case Socket => true
      case _ => p in d.dst && d.dst[p] in d.inodes && Copied(c, File(c, p), d.inodes[d.dst[p]])
  }

  /** A listed file whose owner got another number: its copy has no set-id bit and no capability. */
  ghost predicate NoRights(c: Job, d: Disk, p: Path) {
    InSrc(c, p) && !File(c, p).body.Directory? && !File(c, p).body.Socket? && Moves(c, File(c, p).meta) ==>
      && p in d.dst && d.dst[p] in d.inodes && CAPABILITY !in d.inodes[d.dst[p]].meta.attrs
      && (!File(c, p).body.Symlink? ==> !d.inodes[d.dst[p]].meta.suid && !d.inodes[d.dst[p]].meta.sgid)
  }

  ghost predicate CopiedFrom(c: Job, d: Disk, dirs: seq<Path>, i: nat) {
    forall k :: i <= k < |dirs| ==> DirCopied(c, d, dirs[k])
  }

  lemma OwnCopy(c: Job, s: Inode)
    requires !Moves(c, s.meta)
    ensures Copied(c, s, s)
  {
  }

  class Copier {
    const c: Job
    var disk: Disk
    var seen: map<Ino, Path>
    var dirs: seq<Path>
    var entries: nat
    var linked: nat
    var gone: nat

    constructor (job: Job, d: Disk)
      ensures c == job && disk == d && seen == map[] && dirs == [] && entries == 0 && linked == 0 && gone == 0
    {
      c, disk, seen, dirs := job, d, map[], [];
      entries, linked, gone := 0, 0, 0;
    }

    /** `copy_meta`: owner, then mode, then attributes, in the order that keeps them: the change of owner takes the set-id
        bits and the capability away. Says whether there was something that did not go along. */
    method CopyMeta(s: Inode, i: Ino) returns (took: bool, ghost m: Meta)
      requires i in disk.inodes
      modifies this`disk
      ensures disk == old(disk).(inodes := old(disk).inodes[i := old(disk).inodes[i].(meta := m)])
      ensures OwnerAndMode(c, s.meta, m, s.body.Symlink?) && HasAttrs(c, s.meta, m)
      ensures old(disk).inodes[i].meta.attrs == map[] ==> OnlyAttrs(c, s.meta, m)
      ensures took <==> Moves(c, s.meta) && (s.meta.suid || s.meta.sgid || CAPABILITY in s.meta.attrs)
    {
      var node := disk.inodes[i];
      var moved := Moves(c, s.meta);
      took := moved && (s.meta.suid || s.meta.sgid);
      var t := node.meta.(uid := MapId(c.ids, 'u', s.meta.uid), gid := MapId(c.ids, 'g', s.meta.gid),
                          suid := false, sgid := false, attrs := node.meta.attrs - {CAPABILITY});
      if !s.body.Symlink? {
        t := t.(suid := s.meta.suid && !moved, sgid := s.meta.sgid && !moved, perm := s.meta.perm);
      }
      var t2, lost := CopyAttrs(s.meta, t);
      took := took || lost;
      m := t2;
      disk := disk.(inodes := disk.inodes[i := node.(meta := t2)]);
    }

    method CopyAttrs(s: Meta, t0: Meta) returns (t: Meta, lost: bool)
      ensures t == t0.(attrs := t.attrs)
      ensures HasAttrs(c, s, t) && (t0.attrs == map[] ==> OnlyAttrs(c, s, t))
      ensures lost <==> Moves(c, s) && CAPABILITY in s.attrs
    {
      t, lost := t0, false;
      var left := s.attrs.Keys;
      while left != {}
        invariant left <= s.attrs.Keys && t == t0.(attrs := t.attrs)
        invariant forall n :: Goes(c, s, n) && n != LABEL && n !in left ==> n in t.attrs && t.attrs[n] == s.attrs[n]
        invariant t0.attrs == map[] ==> OnlyAttrs(c, s, t)
        invariant lost <==> Moves(c, s) && CAPABILITY in s.attrs && CAPABILITY !in left
        decreases left
      {
        var n :| n in left;
        left := left - {n};
        if Moves(c, s) && n == CAPABILITY {
          lost := true;
        } else if n != LABEL || c.labels {
          t := t.(attrs := t.attrs[n := s.attrs[n]]);
        }
      }
    }

    ghost predicate State(before: map<Path, Ino>, list: seq<Path>)
      reads this
    {
      Inv(c, before, disk, seen, dirs, list)
    }

    method MakeDir(q: Path, ghost before: map<Path, Ino>, ghost list: seq<Path>)
      requires State(before, list) && InSrc(c, q) && File(c, q).body.Directory? && !IsDir(disk, q)
      modifies this`disk, this`dirs
      ensures State(before, list) && IsDir(disk, q) && dirs == old(dirs) + [q]
      ensures forall p :: p != q ==> (IsDir(disk, p) <==> IsDir(old(disk), p)) && (p in disk.dst <==> p in old(disk).dst)
    {
      NotListed(c, disk, dirs, list, q);
      ghost var d := disk;
      disk := Disk(disk.inodes[disk.next := Inode(Directory, NEW_META)], disk.dst[q := disk.next], disk.next + 1);
      Makes(c, before, d, seen, dirs, list, q, disk, Inode(Directory, NEW_META));
      dirs := dirs + [q];
    }

    /** `parent_of` in DST: the directories above p that are missing are made; one that is not a directory ends the run. */
    method MakeParents(p: Path, ghost before: map<Path, Ino>, ghost list: seq<Path>) returns (ok: bool)
      requires State(before, list) && InSrc(c, p)
      modifies this`disk, this`dirs
      ensures State(before, list)
      ensures old(dirs) <= dirs && forall x :: x in dirs ==> x in old(dirs) || AtOrAbove(p, x)
    {
      var i := 1;
      while i < |p|
        invariant 1 <= i && State(before, list)
        invariant old(dirs) <= dirs && forall x :: x in dirs ==> x in old(dirs) || AtOrAbove(p, x)
      {
        var q := p[..i];
        if q !in disk.dst {
          MakeDir(q, before, list);
        } else if !disk.inodes[disk.dst[q]].body.Directory? {
          return false;
        }
        i := i + 1;
      }
      ok := true;
    }

    /** A new inode at p with the body of SRC's file, and its attributes: `copy_data`, symlinkat or mknodat, and
        `copy_meta`. */
    method Create(p: Path, ghost before: map<Path, Ino>, ghost list: seq<Path>, ghost seen': map<Ino, Path>)
      requires State(before, list) && p !in list && !IsDir(disk, p)
      requires InSrc(c, p) && !File(c, p).body.Directory? && !File(c, p).body.Socket?
      requires IsRegular(c, p) ==> !c.many(|list|, c.names[p]) || c.names[p] !in seen
      requires SeenHolds(c, list + [p], seen')
      modifies this`disk
      ensures Inv(c, before, disk, seen', dirs, list + [p])
    {
      var s := disk.inodes[c.names[p]];
      ghost var d := disk;
      var i := disk.next;
      disk := Disk(disk.inodes[i := Inode(s.body, NEW_META)], disk.dst[p := i], i + 1);
      var took, m := CopyMeta(s, i);
      assert disk.inodes == d.inodes[i := Inode(s.body, m)];
      NewApart(c, d, seen, dirs, list, p);
      Creates(c, before, d, seen, dirs, list, p, disk, Inode(s.body, m), seen');
    }

    /** A name of an inode that is there already: `linkat`. */
    method Link(p: Path, i: Ino, ghost before: map<Path, Ino>, ghost list: seq<Path>, ghost seen': map<Ino, Path>)
      requires State(before, list) && p !in list && !IsDir(disk, p) && IsRegular(c, p)
      requires i in disk.inodes && Copied(c, File(c, p), disk.inodes[i]) && (i == c.names[p] || c.start <= i)
      requires Apart(c, disk, list, p, i) && SeenHolds(c, list + [p], seen')
      modifies this`disk
      ensures Inv(c, before, disk, seen', dirs, list + [p])
    {
      ghost var d := disk;
      disk := disk.(dst := disk.dst[p := i]);
      NameSound(c, d, p, disk, i);
      assert Names(d, disk, p, i);
      Places(c, before, d, seen, dirs, list, p, disk, i, seen');
    }

    /** A further name of a file that was placed before. */
    method PlaceAnother(p: Path, first: Path, ghost before: map<Path, Ino>, ghost list: seq<Path>)
      requires State(before, list) && p !in list && !IsDir(disk, p) && IsRegular(c, p)
      requires c.names[p] in seen && first == seen[c.names[p]]
      modifies this`disk
      ensures State(before, list + [p])
    {
      FirstPlaced(c, disk, seen, dirs, list, p, first);
      NameApart(c, disk, seen, list, p, first);
      SeenNext(c, list, seen, p, seen);
      Link(p, disk.dst[first], before, list, seen);
    }

    /** The first name of a file: a link to SRC's, or a copy. */
    method PlaceFirst(p: Path, ghost before: map<Path, Ino>, ghost list: seq<Path>, ghost seen': map<Ino, Path>)
      requires State(before, list) && p !in list && !IsDir(disk, p) && IsRegular(c, p)
      requires !c.many(|list|, c.names[p]) || c.names[p] !in seen
      requires SeenHolds(c, list + [p], seen')
      modifies this`disk, this`linked
      ensures Inv(c, before, disk, seen', dirs, list + [p])
    {
      var ino := c.names[p];
      if c.byLink && !Moves(c, disk.inodes[ino].meta) && c.canLink(p) {
        LinkApart(c, disk, seen, dirs, list, p);
        OwnCopy(c, File(c, p));
        Link(p, ino, before, list, seen');
        linked := linked + 1;
      } else {
        Create(p, before, list, seen');
      }
    }

    /** A regular file: another name of one that was copied, a link to SRC's, or a copy. */
    method PlaceRegular(p: Path, t: nat, ghost before: map<Path, Ino>, ghost list: seq<Path>)
      requires State(before, list) && t == |list| && p !in list && !IsDir(disk, p) && IsRegular(c, p)
      modifies this`disk, this`seen, this`linked
      ensures State(before, list + [p])
    {
      var ino := c.names[p];
      var several := c.many(t, ino);
      if several && ino in seen {
        PlaceAnother(p, seen[ino], before, list);
      } else {
        ghost var seen' := if several then seen[ino := p] else seen;
        SeenNext(c, list, seen, p, seen');
        PlaceFirst(p, before, list, seen');
        if several {
          seen := seen[ino := p];
        }
      }
    }

    method PlaceDir(p: Path, ghost before: map<Path, Ino>, ghost list: seq<Path>)
      requires State(before, list) && InSrc(c, p) && File(c, p).body.Directory?
      modifies this`disk, this`dirs
      ensures State(before, list + [p]) && dirs == old(dirs) + [p]
    {
      if p !in disk.dst || !disk.inodes[disk.dst[p]].body.Directory? {
        MakeDir(p, before, list);
      } else {
        Notes(c, before, disk, seen, dirs, list, p);
        dirs := dirs + [p];
      }
      Lists(c, before, disk, seen, dirs, list, p);
    }

    /** What is not in SRC any more and sockets are passed over. */
    predicate Passes(p: Path)
      reads this`disk
    {
      p !in c.names || (c.names[p] in disk.inodes && disk.inodes[c.names[p]].body.Socket?)
    }

    /** A directory that would have to give way ends the run. */
    method Place(p: Path, t: nat, ghost before: map<Path, Ino>, ghost list: seq<Path>) returns (ok: bool)
      requires State(before, list) && t == |list| && p !in list && InSrc(c, p) && !File(c, p).body.Socket?
      modifies this`disk, this`seen, this`dirs, this`linked
      ensures Sound(c, disk) && (ok ==> State(before, list + [p]))
      ensures dirs == old(dirs) || dirs == old(dirs) + [p]
    {
      var s := disk.inodes[c.names[p]];
      if p in disk.dst && disk.inodes[disk.dst[p]].body.Directory? && !s.body.Directory? {
        return false;
      }
      if s.body.Directory? {
        PlaceDir(p, before, list);
      } else if s.body.Regular? {
        PlaceRegular(p, t, before, list);
      } else {
        SeenNext(c, list, seen, p, seen);
        Create(p, before, list, seen);
      }
      ok := true;
    }

    /** A path that is in SRC and no socket: its directories and then itself. */
    method PlaceBelow(p: Path, t: nat, ghost before: map<Path, Ino>, ghost list: seq<Path>) returns (ok: bool)
      requires State(before, list) && t == |list| && p !in list && InSrc(c, p) && !File(c, p).body.Socket?
      modifies this`disk, this`seen, this`dirs, this`linked
      ensures Sound(c, disk) && (ok ==> State(before, list + [p]))
      ensures forall x :: x in dirs ==> x in old(dirs) || AtOrAbove(p, x)
    {
      ok := MakeParents(p, before, list);
      if ok {
        ok := Place(p, t, before, list);
      }
    }

    /** One line of the list. */
    method Line(p: Path, t: nat, ghost before: map<Path, Ino>, ghost list: seq<Path>) returns (ok: bool)
      requires State(before, list) && t == |list| && p !in list
      modifies this
      ensures Sound(c, disk) && (ok ==> State(before, list + [p]))
      ensures gone == old(gone) + (if p in c.names then 0 else 1)
      ensures forall x :: x in dirs ==> x in old(dirs) || AtOrAbove(p, x)
    {
      if Passes(p) {
        gone := gone + if p in c.names then 0 else 1;
        Skips(c, before, disk, seen, dirs, list, p);
        ok := true;
      } else {
        ok := PlaceBelow(p, t, before, list);
        entries := entries + 1;
      }
    }

    /** The lines of the list in order. */
    method Lines(list: seq<Path>, ghost before: map<Path, Ino>) returns (ok: bool)
      requires State(before, []) && dirs == [] && Different(list)
      modifies this
      ensures Sound(c, disk) && (ok ==> State(before, list))
      ensures DirsNeeded(list, dirs)
    {
      ok := true;
      var t := 0;
      ghost var done: seq<Path> := [];
      while t < |list| && ok
        invariant 0 <= t <= |list| && done == list[..t] && Sound(c, disk) && (ok ==> State(before, done))
        invariant DirsNeeded(list, dirs)
      {
        ghost var had := dirs;
        assert list[t] !in done;
        ok := Line(list[t], t, before, done);
        DirsGrow(list, had, dirs, t);
        done := done + [list[t]];
        t := t + 1;
      }
      assert ok ==> done == list;
    }

    /** The directories last: their owners, modes and attributes. */
    method EndDirs(ghost before: map<Path, Ino>, ghost list: seq<Path>)
      requires State(before, list)
      modifies this`disk
      ensures State(before, list) && CopiedFrom(c, disk, dirs, 0)
    {
      var i := |dirs|;
      while i > 0
        invariant 0 <= i <= |dirs| && State(before, list)
        invariant CopiedFrom(c, disk, dirs, i)
      {
        i := i - 1;
        EndDir(before, list, i);
      }
    }

    method EndDir(ghost before: map<Path, Ino>, ghost list: seq<Path>, i: nat)
      requires State(before, list) && i < |dirs| && CopiedFrom(c, disk, dirs, i + 1)
      modifies this`disk
      ensures State(before, list) && CopiedFrom(c, disk, dirs, i)
    {
      var x := dirs[i];
      ghost var d := disk;
      assert IsDir(d, x) && InSrc(c, x) && File(c, x).body.Directory?;
      var took, m := CopyMeta(disk.inodes[c.names[x]], disk.dst[x]);
      Retouches(c, before, d, seen, dirs, list, x, disk, m);
      forall k | i <= k < |dirs|
        ensures DirCopied(c, disk, dirs[k])
      {
        if k > i {
          KeepsCopied(c, d, x, disk, m, dirs[k]);
        }
      }
    }

    /** `cmd_copy`. A run that succeeds leaves every listed path as its copy, without rights when its owner got another number;
        two listed regular files share an inode in DST exactly when they do in SRC. What else has changed in DST are
        directories above a listed path, which were made with SRC's attributes. SRC is as it was after every run. */
    method Run(list: seq<Path>) returns (ok: bool)
      requires Source(c) && Sound(c, disk) && seen == map[] && dirs == [] && Different(list)
      modifies this
      ensures Sound(c, disk)
      ensures ok ==> (forall k :: 0 <= k < |list| ==> Finished(c, disk, list[k])) && Shape(c, disk, list)
      ensures ok ==> forall k :: 0 <= k < |list| ==> NoRights(c, disk, list[k])
      ensures ok ==> forall p :: p in list || SameName(old(disk).dst, disk.dst, p) || (Needed(list, p) && DirCopied(c, disk, p))
    {
      ghost var before := disk.dst;
      ok := Lines(list, before);
      if ok {
        EndDirs(before, list);
        forall k | 0 <= k < |list|
          ensures Finished(c, disk, list[k])
        {
          assert Done(c, disk, dirs, list[k]);
        }
        forall p | p !in list && !SameName(before, disk.dst, p)
          ensures Needed(list, p) && DirCopied(c, disk, p)
        {
          assert p in dirs;
        }
      }
    }
  }
}
