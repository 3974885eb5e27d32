/** One line of the list at a time: each effect of `cmd_copy` on DST keeps what the run has reached. */
module CopySteps {
  import opened Bytes
  import opened Copy

  /** d' is d with path p naming inode i, where i may be new. */
  ghost predicate Names(d: Disk, d': Disk, p: Path, i: Ino) {
    && d'.dst == d.dst[p := i] && d.next <= d'.next
    && (forall j :: j in d.inodes ==> j in d'.inodes && d'.inodes[j] == d.inodes[j])
  }

  lemma {:induction false} StillDone(c: Job, d: Disk, d': Disk, dirs: seq<Path>, list: seq<Path>, p: Path, i: Ino)
    requires AllDone(c, d, dirs, list) && Names(d, d', p, i) && p !in list
    ensures AllDone(c, d', dirs, list)
  {
    forall k | 0 <= k < |list|
      ensures Done(c, d', dirs, list[k])
    {
      assert Done(c, d, dirs, list[k]);
      assert list[k] != p;
    }
  }

  lemma StillShaped(c: Job, d: Disk, d': Disk, list: seq<Path>, p: Path, i: Ino)
    requires Shape(c, d, list) && Names(d, d', p, i) && p !in list
    ensures Shape(c, d', list)
  {
    forall k, l | 0 <= k < |list| && 0 <= l < |list| && IsRegular(c, list[k]) && IsRegular(c, list[l])
      ensures list[k] in d'.dst && list[l] in d'.dst && SameShape(c, d', list[k], list[l])
    {
      assert list[k] in d.dst && list[l] in d.dst && SameShape(c, d, list[k], list[l]);
    }
  }

  lemma StillDirs(c: Job, d: Disk, d': Disk, dirs: seq<Path>, p: Path, i: Ino)
    requires DirsHold(c, d, dirs) && Names(d, d', p, i) && !IsDir(d, p)
    ensures DirsHold(c, d', dirs)
  {
    forall k | 0 <= k < |dirs|
      ensures IsDir(d', dirs[k])
    {
      assert IsDir(d, dirs[k]);
    }
  }

  lemma DoneMoreDirs(c: Job, d: Disk, dirs: seq<Path>, list: seq<Path>, q: Path)
    requires AllDone(c, d, dirs, list)
    ensures AllDone(c, d, dirs + [q], list)
  {
    forall k | 0 <= k < |list|
      ensures Done(c, d, dirs + [q], list[k])
    {
      assert Done(c, d, dirs, list[k]);
    }
  }

  lemma DoneNext(c: Job, d: Disk, dirs: seq<Path>, list: seq<Path>, p: Path)
    requires AllDone(c, d, dirs, list) && Done(c, d, dirs, p)
    ensures AllDone(c, d, dirs, list + [p])
  {
  }

  lemma ShapeNext(c: Job, d: Disk, list: seq<Path>, p: Path)
    requires Shape(c, d, list)
    requires IsRegular(c, p) ==> p in d.dst
    requires forall k :: 0 <= k < |list| && IsRegular(c, p) && IsRegular(c, list[k]) && list[k] in d.dst ==> SameShape(c, d, list[k], p)
    ensures Shape(c, d, list + [p])
  {
    var all := list + [p];
    forall k, l | 0 <= k < |all| && 0 <= l < |all| && IsRegular(c, all[k]) && IsRegular(c, all[l])
      ensures all[k] in d.dst && all[l] in d.dst && SameShape(c, d, all[k], all[l])
    {
      assert k < |list| ==> list[k] in d.dst && SameShape(c, d, list[k], list[k]);
      assert l < |list| ==> list[l] in d.dst && SameShape(c, d, list[l], list[l]);
      if k < |list| && l < |list| {
        assert SameShape(c, d, list[k], list[l]);
      }
    }
  }

  lemma SeenNext(c: Job, list: seq<Path>, seen: map<Ino, Path>, p: Path, seen': map<Ino, Path>)
    requires SeenHolds(c, list, seen) && (forall i :: i in seen ==> i in seen' && seen'[i] == seen[i])
    requires forall i :: i in seen' && i !in seen ==> IsRegular(c, p) && i == c.names[p] && seen'[i] == p
    requires IsRegular(c, p) && c.many(|list|, c.names[p]) ==> c.names[p] in seen'
    ensures SeenHolds(c, list + [p], seen')
  {
    var all := list + [p];
    assert all[|list|] == p;
    forall i | i in seen'
      ensures seen'[i] in all && IsRegular(c, seen'[i]) && c.names[seen'[i]] == i
    {
      assert i in seen ==> seen[i] in list;
    }
    forall k | 0 <= k < |all| && IsRegular(c, all[k]) && c.many(k, c.names[all[k]])
      ensures c.names[all[k]] in seen'
    {
      assert k < |list| ==> all[k] == list[k];
    }
  }

  lemma ElsewhereNext(before: map<Path, Ino>, d: Disk, d': Disk, list: seq<Path>, dirs: seq<Path>, p: Path, list': seq<Path>, dirs': seq<Path>)
    requires Elsewhere(before, d, list, dirs) && (d'.dst == d.dst || exists i :: Names(d, d', p, i))
    requires (list' == list + [p] && dirs <= dirs') || (list' == list && dirs' == dirs + [p])
    ensures Elsewhere(before, d', list', dirs')
  {
    forall q | q !in list' && q !in dirs'
      ensures (q in before <==> q in d'.dst) && (q in before ==> d'.dst[q] == before[q])
    {
      assert p in list' + dirs' by {
        if list' == list {
          assert dirs'[|dirs|] == p;
        } else {
          assert list'[|list|] == p;
        }
      }
      assert q != p && q !in list && q !in dirs;
    }
  }

  // ---- the lines of the list

  /** A path that is not in SRC, or a socket. */
  lemma Skips(c: Job, before: map<Path, Ino>, d: Disk, seen: map<Ino, Path>, dirs: seq<Path>, list: seq<Path>, p: Path)
    requires Inv(c, before, d, seen, dirs, list) && (InSrc(c, p) ==> File(c, p).body.Socket?)
    ensures Inv(c, before, d, seen, dirs, list + [p])
  {
    DoneNext(c, d, dirs, list, p);
    ShapeNext(c, d, list, p);
    SeenNext(c, list, seen, p, seen);
    ElsewhereNext(before, d, d, list, dirs, p, list + [p], dirs);
  }

  /** A directory of SRC that DST lacks is made. */
  lemma Makes(c: Job, before: map<Path, Ino>, d: Disk, seen: map<Ino, Path>, dirs: seq<Path>, list: seq<Path>, q: Path, d': Disk, node: Inode)
    requires Inv(c, before, d, seen, dirs, list) && q !in list
    requires InSrc(c, q) && File(c, q).body.Directory? && !IsDir(d, q) && node.body.Directory?
    requires d' == Disk(d.inodes[d.next := node], d.dst[q := d.next], d.next + 1)
    ensures Inv(c, before, d', seen, dirs + [q], list) && IsDir(d', q)
  {
    assert Names(d, d', q, d.next);
    StillDone(c, d, d', dirs, list, q, d.next);
    DoneMoreDirs(c, d', dirs, list, q);
    StillShaped(c, d, d', list, q, d.next);
    StillDirs(c, d, d', dirs, q, d.next);
    ElsewhereNext(before, d, d', list, dirs, q, list, dirs + [q]);
    MakesSound(c, d, q, d', node);
  }

  lemma MakesSound(c: Job, d: Disk, q: Path, d': Disk, node: Inode)
    requires Source(c) && Sound(c, d) && !IsDir(d, q)
    requires d' == Disk(d.inodes[d.next := node], d.dst[q := d.next], d.next + 1)
    ensures Sound(c, d')
  {
    forall p, r | IsDir(d', p) && r in d'.dst && d'.dst[p] == d'.dst[r]
      ensures p == r
    {
      assert p != q ==> IsDir(d, p);
    }
    forall p | IsDir(d', p)
      ensures d'.dst[p] !in c.files
    {
      assert p != q ==> IsDir(d, p);
    }
  }

  /** A listed directory is there and will get its attributes. */
  lemma Lists(c: Job, before: map<Path, Ino>, d: Disk, seen: map<Ino, Path>, dirs: seq<Path>, list: seq<Path>, p: Path)
    requires Inv(c, before, d, seen, dirs, list) && InSrc(c, p) && File(c, p).body.Directory? && p in dirs
    ensures Inv(c, before, d, seen, dirs, list + [p])
  {
    DoneNext(c, d, dirs, list, p);
    ShapeNext(c, d, list, p);
    SeenNext(c, list, seen, p, seen);
    ElsewhereNext(before, d, d, list, dirs, p, list + [p], dirs);
  }

  lemma Notes(c: Job, before: map<Path, Ino>, d: Disk, seen: map<Ino, Path>, dirs: seq<Path>, list: seq<Path>, p: Path)
    requires Inv(c, before, d, seen, dirs, list) && InSrc(c, p) && File(c, p).body.Directory? && IsDir(d, p)
    ensures Inv(c, before, d, seen, dirs + [p], list)
  {
    DoneMoreDirs(c, d, dirs, list, p);
    ElsewhereNext(before, d, d, list, dirs, p, list, dirs + [p]);
  }

  /** What has to hold of the inode a regular file's path is given, against the regular files before it. */
  ghost predicate Apart(c: Job, d: Disk, list: seq<Path>, p: Path, i: Ino) {
    forall k :: 0 <= k < |list| && IsRegular(c, p) && IsRegular(c, list[k]) && list[k] in d.dst ==>
      (d.dst[list[k]] == i <==> c.names[list[k]] == c.names[p])
  }

  /** A path is given its inode. */
  lemma Places(c: Job, before: map<Path, Ino>, d: Disk, seen: map<Ino, Path>, dirs: seq<Path>, list: seq<Path>, p: Path, d': Disk, i: Ino, seen': map<Ino, Path>)
    requires Inv(c, before, d, seen, dirs, list) && p !in list && !IsDir(d, p)
    requires InSrc(c, p) && !File(c, p).body.Directory? && !File(c, p).body.Socket?
    requires Names(d, d', p, i) && Sound(c, d') && Placed(c, d', p) && Apart(c, d, list, p, i)
    requires SeenHolds(c, list + [p], seen')
    ensures Inv(c, before, d', seen', dirs, list + [p])
  {
    StillDone(c, d, d', dirs, list, p, i);
    DoneNext(c, d', dirs, list, p);
    StillShaped(c, d, d', list, p, i);
    StillDirs(c, d, d', dirs, p, i);
    ElsewhereNext(before, d, d', list, dirs, p, list + [p], dirs);
    forall k | 0 <= k < |list| && IsRegular(c, p) && IsRegular(c, list[k]) && list[k] in d'.dst
      ensures SameShape(c, d', list[k], p)
    {
      assert SameShape(c, d, list[k], list[k]);
      assert list[k] != p;
    }
    ShapeNext(c, d', list, p);
  }

  /** A name on an inode that is not a directory keeps DST sound. */
  lemma NameSound(c: Job, d: Disk, p: Path, d': Disk, i: Ino)
    requires Sound(c, d) && !IsDir(d, p) && i in d.inodes && !d.inodes[i].body.Directory?
    requires d' == d.(dst := d.dst[p := i])
    ensures Sound(c, d')
  {
    forall q, r | IsDir(d', q) && r in d'.dst && d'.dst[q] == d'.dst[r]
      ensures q == r
    {
      assert IsDir(d, q);
    }
    forall q | IsDir(d', q)
      ensures d'.dst[q] !in c.files
    {
      assert IsDir(d, q);
    }
  }

  lemma FileSound(c: Job, d: Disk, p: Path, d': Disk, node: Inode)
    requires Source(c) && Sound(c, d) && !IsDir(d, p) && !node.body.Directory?
    requires d' == Disk(d.inodes[d.next := node], d.dst[p := d.next], d.next + 1)
    ensures Sound(c, d')
  {
    MakesSound(c, d, p, d', node);
  }

  lemma Creates(c: Job, before: map<Path, Ino>, d: Disk, seen: map<Ino, Path>, dirs: seq<Path>, list: seq<Path>, p: Path, d': Disk, node: Inode, seen': map<Ino, Path>)
    requires Inv(c, before, d, seen, dirs, list) && p !in list && !IsDir(d, p)
    requires InSrc(c, p) && !File(c, p).body.Directory? && !File(c, p).body.Socket?
    requires d' == Disk(d.inodes[d.next := node], d.dst[p := d.next], d.next + 1)
    requires Copied(c, File(c, p), node) && Apart(c, d, list, p, d.next) && SeenHolds(c, list + [p], seen')
    ensures Inv(c, before, d', seen', dirs, list + [p])
  {
    FileSound(c, d, p, d', node);
    assert Names(d, d', p, d.next);
    Places(c, before, d, seen, dirs, list, p, d', d.next, seen');
  }

  // ---- the shape

  /** No earlier file is another name of p's inode when the table does not know it. */
  lemma NotBefore(c: Job, list: seq<Path>, seen: map<Ino, Path>, p: Path, k: nat)
    requires Source(c) && SeenHolds(c, list, seen) && p !in list && k < |list|
    requires IsRegular(c, p) && IsRegular(c, list[k])
    requires !c.many(|list|, c.names[p]) || c.names[p] !in seen
    ensures c.names[list[k]] != c.names[p]
  {
    assert list[k] != p;
  }

  lemma PlacedBefore(c: Job, d: Disk, dirs: seq<Path>, list: seq<Path>, k: nat)
    requires AllDone(c, d, dirs, list) && k < |list| && IsRegular(c, list[k])
    ensures Placed(c, d, list[k])
  {
    assert Done(c, d, dirs, list[k]);
  }

  /** A new inode for a file the table does not know. */
  lemma NewApart(c: Job, d: Disk, seen: map<Ino, Path>, dirs: seq<Path>, list: seq<Path>, p: Path)
    requires Source(c) && Sound(c, d) && AllDone(c, d, dirs, list) && SeenHolds(c, list, seen) && p !in list && InSrc(c, p)
    requires IsRegular(c, p) ==> !c.many(|list|, c.names[p]) || c.names[p] !in seen
    ensures Apart(c, d, list, p, d.next)
  {
    forall k | 0 <= k < |list| && IsRegular(c, p) && IsRegular(c, list[k]) && list[k] in d.dst
      ensures d.dst[list[k]] == d.next <==> c.names[list[k]] == c.names[p]
    {
      NotBefore(c, list, seen, p, k);
    }
  }

  /** SRC's own inode for a file the table does not know. */
  lemma LinkApart(c: Job, d: Disk, seen: map<Ino, Path>, dirs: seq<Path>, list: seq<Path>, p: Path)
    requires Source(c) && Sound(c, d) && AllDone(c, d, dirs, list) && SeenHolds(c, list, seen) && p !in list && IsRegular(c, p)
    requires !c.many(|list|, c.names[p]) || c.names[p] !in seen
    ensures Apart(c, d, list, p, c.names[p])
  {
    forall k | 0 <= k < |list| && IsRegular(c, p) && IsRegular(c, list[k]) && list[k] in d.dst
      ensures d.dst[list[k]] == c.names[p] <==> c.names[list[k]] == c.names[p]
    {
      NotBefore(c, list, seen, p, k);
      PlacedBefore(c, d, dirs, list, k);
    }
  }

  /** The inode of the first copied name for a further name. */
  lemma NameApart(c: Job, d: Disk, seen: map<Ino, Path>, list: seq<Path>, p: Path, first: Path)
    requires Shape(c, d, list) && SeenHolds(c, list, seen) && IsRegular(c, p)
    requires c.names[p] in seen && first == seen[c.names[p]] && first in d.dst
    ensures Apart(c, d, list, p, d.dst[first])
  {
    assert first in list;
    var f :| 0 <= f < |list| && list[f] == first;
    forall k | 0 <= k < |list| && IsRegular(c, p) && IsRegular(c, list[k]) && list[k] in d.dst
      ensures d.dst[list[k]] == d.dst[first] <==> c.names[list[k]] == c.names[p]
    {
      assert SameShape(c, d, list[k], list[f]);
    }
  }

  lemma FirstPlaced(c: Job, d: Disk, seen: map<Ino, Path>, dirs: seq<Path>, list: seq<Path>, p: Path, first: Path)
    requires AllDone(c, d, dirs, list) && SeenHolds(c, list, seen) && IsRegular(c, p)
    requires c.names[p] in seen && first == seen[c.names[p]]
    ensures InSrc(c, first) && Placed(c, d, first) && c.names[first] == c.names[p]
  {
    var f :| 0 <= f < |list| && list[f] == first;
    PlacedBefore(c, d, dirs, list, f);
  }

  // ---- the attributes of the directories, at the end

  ghost predicate DirCopied(c: Job, d: Disk, p: Path) {
    && IsDir(d, p) && InSrc(c, p)
    && OwnerAndMode(c, File(c, p).meta, d.inodes[d.dst[p]].meta, false)
    && HasAttrs(c, File(c, p).meta, d.inodes[d.dst[p]].meta)
  }

  /** Attributes set on a directory of DST keep everything else. */
  lemma Retouches(c: Job, before: map<Path, Ino>, d: Disk, seen: map<Ino, Path>, dirs: seq<Path>, list: seq<Path>, x: Path, d': Disk, m: Meta)
    requires Inv(c, before, d, seen, dirs, list) && IsDir(d, x)
    requires d' == d.(inodes := d.inodes[d.dst[x] := d.inodes[d.dst[x]].(meta := m)])
    ensures Inv(c, before, d', seen, dirs, list)
  {
    assert forall p :: IsDir(d', p) <==> IsDir(d, p);
    forall k | 0 <= k < |list|
      ensures Done(c, d', dirs, list[k])
    {
      assert Done(c, d, dirs, list[k]);
    }
    assert Shape(c, d', list) by {
      forall k, l | 0 <= k < |list| && 0 <= l < |list| && IsRegular(c, list[k]) && IsRegular(c, list[l])
        ensures list[k] in d'.dst && list[l] in d'.dst && SameShape(c, d', list[k], list[l])
      {
        assert SameShape(c, d, list[k], list[l]);
      }
    }
    assert DirsHold(c, d', dirs);
  }

  lemma KeepsCopied(c: Job, d: Disk, x: Path, d': Disk, m: Meta, p: Path)
    requires Sound(c, d) && IsDir(d, x) && DirCopied(c, d, p)
    requires d' == d.(inodes := d.inodes[d.dst[x] := d.inodes[d.dst[x]].(meta := m)]) && DirCopied(c, d', x)
    ensures DirCopied(c, d', p)
  {
    if p != x {
      assert d.dst[p] != d.dst[x];
    }
  }

  /** Where DST lacks a directory of SRC, that directory is not among the lines done. */
  lemma NotListed(c: Job, d: Disk, dirs: seq<Path>, list: seq<Path>, q: Path)
    requires AllDone(c, d, dirs, list) && DirsHold(c, d, dirs) && InSrc(c, q) && File(c, q).body.Directory? && !IsDir(d, q)
    ensures q !in list
  {
    forall k | 0 <= k < |list|
      ensures list[k] != q
    {
      assert Done(c, d, dirs, list[k]);
    }
  }
}
