/** tarlink after untar of the filtered stream gives what untar of the whole stream gives. */
module DeltaUnpack {
  import opened Bytes
  import opened Paths
  import opened TarFormat
  import opened TarFilter
  import opened DeltaStream
  import opened DeltaWorld
  import opened DeltaTree

  /** What tarlink made of a path left out: OLD's inode, or one copy of it shared by all its names. */
  ghost predicate RelinkedAt(c: Config, can: Linkable, floor: nat, w: World, root: Roots, p: Path)
    requires p in root
  {
    var r := root[p];
    && r in root && root[r] == r && r in c.have
    && w.Has(p) && w.Has(r) && w.names[p] == w.names[r]
    && w.At(p) == File(c.have[r].content, c.have[r].meta)
    && (if can(r) then w.names[p] == c.have[r].ino else w.names[p] >= floor)
  }

  /** Copies of different files of OLD are different inodes. */
  ghost predicate CopiesApart(can: Linkable, w: World, root: Roots) {
    forall p, q :: p in root && q in root && w.Has(p) && w.Has(q) && w.names[p] == w.names[q] && !can(root[p]) && !can(root[q])
      ==> root[p] == root[q]
  }

  /** `w` is `w2` with the paths of `root` relinked; inodes from `|w2.nodes|` on are tarlink's own. */
  ghost predicate Relinked(c: Config, can: Linkable, w2: World, w: World, root: Roots) {
    && w.Valid() && w2.nodes <= w.nodes
    && (forall q :: q !in root ==> (w.Has(q) <==> w2.Has(q)) && (w.Has(q) ==> w.names[q] == w2.names[q]))
    && (forall p {:trigger RelinkedAt(c, can, |w2.nodes|, w, root, p)} ::
          p in root ==> RelinkedAt(c, can, |w2.nodes|, w, root, p))
    && CopiesApart(can, w, root)
  }

  /** A path of the log that tarlink can make: its directory was unpacked, and nothing left out is a directory. */
  ghost predicate Ready(c: Config, w2: World, all: Roots, p: Path) {
    && p in all && all[p] in c.have && p != []
    && !w2.IsDir(p) && w2.IsDir(Parent(p)) && Parent(p) !in all
  }

  lemma CopiesStayApart(can: Linkable, w: World, w': World, root: Roots, root': Roots, p: Path, r: Path)
    requires CopiesApart(can, w, root) && Only(w, w', p) && p !in root && root' == root[p := r]
    requires forall q :: q in root && w.Has(q) && w.names[q] == w'.names[p] && !can(root[q]) && !can(r) ==> root[q] == r
    ensures CopiesApart(can, w', root')
  {
  }

  lemma OthersStay(c: Config, can: Linkable, floor: nat, w: World, w': World, root: Roots, root': Roots, p: Path, r: Path, q: Path)
    requires p !in root && q in root && RelinkedAt(c, can, floor, w, root, q) && Only(w, w', p) && root' == root[p := r]
    ensures RelinkedAt(c, can, floor, w', root', q)
  {
  }

  lemma RelinkStays(c: Config, can: Linkable, w2: World, w: World, w': World, root: Roots, root': Roots, p: Path, r: Path)
    requires w2.Valid() && Relinked(c, can, w2, w, root) && p !in root && root' == root[p := r]
    requires Only(w, w', p) && w.nodes <= w'.nodes
    requires RelinkedAt(c, can, |w2.nodes|, w', root', p)
    requires forall q :: q in root && w.Has(q) && w.names[q] == w'.names[p] && !can(root[q]) && !can(r) ==> root[q] == r
    ensures Relinked(c, can, w2, w', root')
  {
    CopiesStayApart(can, w, w', root, root', p, r);
    forall q | q in root'
      ensures RelinkedAt(c, can, |w2.nodes|, w', root', q)
    {
      if q != p {
        OthersStay(c, can, |w2.nodes|, w, w', root, root', p, r, q);
      }
    }
  }

  /** One D line. */
  lemma RelinkFile(c: Config, can: Linkable, w2: World, w: World, root: Roots, p: Path)
    requires w2.Valid() && Installed(c, w2.nodes) && Relinked(c, can, w2, w, root)
    requires p !in root && p in c.have && Free(w, p)
    ensures LinkOld(c, can, w, p).Some? && Relinked(c, can, w2, LinkOld(c, can, w, p).value, root[p := p])
  {
    var w' := LinkOld(c, can, w, p).value;
    if can(p) {
      BindFacts(w, p, c.have[p].ino);
    } else {
      CreateFacts(w, p, File(c.have[p].content, c.have[p].meta));
    }
    RelinkStays(c, can, w2, w, w', root, root[p := p], p, p);
  }

  /** One pair of H and T lines: the target was made by an earlier D line. */
  lemma RelinkLink(c: Config, can: Linkable, w2: World, w: World, root: Roots, h: Path, t: Path)
    requires w2.Valid() && Relinked(c, can, w2, w, root)
    requires h !in root && t in root && root[t] == t && Free(w, h) && w.IsDir(Parent(t))
    ensures LinkNew(w, h, t).Some? && Relinked(c, can, w2, LinkNew(w, h, t).value, root[h := t])
  {
    assert RelinkedAt(c, can, |w2.nodes|, w, root, t);
    BindFacts(w, h, w.names[t]);
    forall q | q in root && w.Has(q) && w.names[q] == w.names[t] && !can(root[q]) && !can(t)
      ensures root[q] == t
    {
    }
    RelinkStays(c, can, w2, w, w.Bind(h, w.names[t]), root, root[h := t], h, t);
  }

  /** What was left out stays left out. */
  lemma {:induction false} RootsGrow(c: Config, listed: Listed, root: Roots, es: seq<Entry>, p: Path)
    requires Settled(c, listed, root, es) && p in root
    ensures var all := RootsOf(c, listed, root, es); p in all && all[p] == root[p]
    decreases |es|
  {
    if es != [] {
        RootsGrow(c, Mark(c, listed, es[0]), AddRoot(c, listed, root, es[0]), es[1..], p);
    }
  }

  lemma FileLine(c: Config, can: Linkable, w: World, p: Path, rest: seq<Line>)
    requires LinkOld(c, can, w, p).Some?
    ensures TarLink(c, can, w, None, [D(p)] + rest) == TarLink(c, can, LinkOld(c, can, w, p).value, None, rest)
  {
    assert ([D(p)] + rest)[1..] == rest;
  }

  lemma LinkLines(c: Config, can: Linkable, w: World, h: Path, t: Path, rest: seq<Line>)
    requires LinkNew(w, h, t).Some?
    ensures TarLink(c, can, w, None, [H(h), T(t)] + rest) == TarLink(c, can, LinkNew(w, h, t).value, None, rest)
  {
    assert ([H(h), T(t)] + rest)[1..] == [T(t)] + rest;
    assert ([T(t)] + rest)[1..] == rest;
  }

  /** The lines of one member. */
  lemma RelinkMember(c: Config, can: Linkable, w2: World, w: World, listed: Listed, root: Roots, all: Roots,
                     es: seq<Entry>, rest: seq<Line>)
    returns (next: World)
    requires w2.Valid() && Installed(c, w2.nodes) && Relinked(c, can, w2, w, root) && Flags(listed, root)
    requires es != [] && Settled(c, listed, root, es)
    requires all == RootsOf(c, listed, root, es) && forall p :: p in all ==> Ready(c, w2, all, p)
    ensures Relinked(c, can, w2, next, AddRoot(c, listed, root, es[0]))
    ensures TarLink(c, can, w, None, LinesOf(Judge(c, listed, es[0]), es[0].info) + rest) == TarLink(c, can, next, None, rest)
  {
    var x := es[0];
    var p, t := x.info.name, x.info.Link();
    var v := Judge(c, listed, x);
    var listed', root' := Mark(c, listed, x), AddRoot(c, listed, root, x);
    if v.Keep? {
      assert [] + rest == rest;
      next := w;
    } else {
      RootsGrow(c, listed', root', es[1..], p);
      ParentStays(c, can, w2, w, listed, root, es, p);
      if v.DropFile? {
        RelinkFile(c, can, w2, w, root, p);
        FileLine(c, can, w, p, rest);
        next := LinkOld(c, can, w, p).value;
      } else {
        RootsGrow(c, listed, root, es, t);
        ParentStays(c, can, w2, w, listed, root, es, t);
        RelinkLink(c, can, w2, w, root, p, t);
        LinkLines(c, can, w, p, t, rest);
        next := LinkNew(w, p, t).value;
      }
    }
  }

  /** All lines of the log: `done` is the tree tarlink leaves. */
  lemma {:induction false} RelinkAll(c: Config, can: Linkable, w2: World, w: World,
                                     listed: Listed, root: Roots, all: Roots, es: seq<Entry>, end: Line)
    returns (done: World)
    requires w2.Valid() && Installed(c, w2.nodes) && Relinked(c, can, w2, w, root)
    requires Flags(listed, root) && end.E?
    requires Settled(c, listed, root, es)
    requires all == RootsOf(c, listed, root, es) && forall p :: p in all ==> Ready(c, w2, all, p)
    ensures TarLink(c, can, w, None, LogOf(c, listed, es) + [end]) == Some(done)
    ensures Relinked(c, can, w2, done, all)
    decreases |es|
  {
    if es == [] {
      assert LogOf(c, listed, es) + [end] == [end];
      return w;
    }
    var x := es[0];
    var listed', root' := Mark(c, listed, x), AddRoot(c, listed, root, x);
    var rest := LogOf(c, listed', es[1..]) + [end];
    assert LogOf(c, listed, es) + [end] == LinesOf(Judge(c, listed, x), x.info) + rest;
    FlagsNext(c, listed, root, x);
    var next := RelinkMember(c, can, w2, w, listed, root, all, es, rest);
    done := RelinkAll(c, can, w2, next, listed', root', all, es[1..], end);
  }

  /** The directory of a path of the log is as it was unpacked. */
  lemma ParentStays(c: Config, can: Linkable, w2: World, w: World, listed: Listed, root: Roots, es: seq<Entry>, p: Path)
    requires w2.Valid() && Relinked(c, can, w2, w, root)
    requires Settled(c, listed, root, es)
    requires Ready(c, w2, RootsOf(c, listed, root, es), p)
    ensures w.IsDir(Parent(p)) && (p !in root ==> Free(w, p))
  {
    if Parent(p) in root {
      RootsGrow(c, listed, root, es, Parent(p));
    }
  }

  // ---- the filesystem while an archive is unpacked

  /** No name of NEW is one of OLD's inodes. */
  ghost predicate Separate(c: Config, w: World) {
    forall q, r :: w.Has(q) && r in c.have ==> w.names[q] != c.have[r].ino
  }

  /** Unpacking only adds inodes, none of them OLD's. */
  lemma {:induction false} UntarAdds(c: Config, w: World, es: seq<Entry>)
    requires w.Valid() && Installed(c, w.nodes) && Untar(w, es).Some?
    ensures var w' := Untar(w, es).value;
            w'.Valid() && Installed(c, w'.nodes) && (Separate(c, w) ==> Separate(c, w'))
    decreases |es|
  {
    if es != [] {
      ExtractAdds(c, w, es[0]);
      UntarAdds(c, Extract(w, es[0]).value, es[1..]);
    }
  }

  lemma ExtractAdds(c: Config, w: World, x: Entry)
    requires w.Valid() && Installed(c, w.nodes) && Extract(w, x).Some?
    ensures var w' := Extract(w, x).value;
            w'.Valid() && Installed(c, w'.nodes) && (Separate(c, w) ==> Separate(c, w'))
  {
    var p := x.info.name;
    if !(x.info.typ == TYPE_DIR && w.IsDir(p)) {
      MakesDirs(w, Parent(p));
      var v := MakeDirs(w, Parent(p)).value;
      DirsAdd(c, w, v, Parent(p));
      StillFree(w, v, p);
      PutAdds(c, v, x);
    }
  }

  lemma DirsAdd(c: Config, w: World, v: World, d: Path)
    requires w.Valid() && Installed(c, w.nodes) && Grown(w, v, d)
    ensures Installed(c, v.nodes) && (Separate(c, w) ==> Separate(c, v))
  {
  }

  lemma PutAdds(c: Config, w: World, x: Entry)
    requires w.Valid() && Installed(c, w.nodes) && Free(w, x.info.name) && Put(w, x).Some?
    ensures var w' := Put(w, x).value;
            w'.Valid() && Installed(c, w'.nodes) && (Separate(c, w) ==> Separate(c, w'))
  {
    PutOnly(w, x);
  }

  // ---- the main theorem

  /** `w3` is the tree `w1`: the same paths, the same nodes (a file left out has OLD's owner and mode), and the names
      of one file are names of one file again. */
  ghost predicate SameTree(c: Config, root: Roots, w1: World, w3: World) {
    && (forall p :: SameAt(c, root, w1, w3, p))
    && (forall p, q :: Shared(w1, p, q) ==> Shared(w3, p, q))
  }

  /** `p` and `q` are names of one inode. */
  ghost predicate Shared(w: World, p: Path, q: Path) {
    w.Has(p) && w.Has(q) && w.names[p] == w.names[q]
  }

  /** Both were left out, and are one file of OLD that got two more names. */
  ghost predicate OneInOld(c: Config, can: Linkable, root: Roots, p: Path, q: Path) {
    && p in root && q in root && root[p] in c.have && root[q] in c.have && can(root[p]) && can(root[q])
    && c.have[root[p]].ino == c.have[root[q]].ino
  }

  /** Names share an inode that did not in the archive only where OLD had them as one file and both were linked. */
  ghost predicate NoMoreSharing(c: Config, can: Linkable, root: Roots, w1: World, w3: World) {
    forall p, q :: Shared(w3, p, q) ==> Shared(w1, p, q) || OneInOld(c, can, root, p, q)
  }

  /** The directory of every path left out is there. */
  ghost predicate Homes(w: World, root: Roots) { forall p :: p in root ==> w.IsDir(Parent(p)) }

  lemma ReadyAll(c: Config, w1: World, w2: World, listed: Listed, root: Roots)
    requires Sim(c, w1, w2, listed, root) && Homes(w2, root)
    ensures forall p :: p in root ==> Ready(c, w2, root, p)
  {
    forall p | p in root
      ensures Ready(c, w2, root, p)
    {
      assert LeftOutAt(c, w1, root, p);
      LeftOutIsFile(c, w1, root, Parent(p));
    }
  }

  /** With their directories there, nothing is missing from the filtered tree but the paths left out. */
  lemma NothingLacks(c: Config, w1: World, w2: World, listed: Listed, root: Roots, p: Path)
    requires Sim(c, w1, w2, listed, root) && Homes(w2, root) && p !in root && w1.Has(p)
    ensures w2.Has(p)
  {
    if !w2.Has(p) {
      assert OnTheWay(p, root.Keys);
      var u :| u in root.Keys && Above(p, u);
      NewIsDir(w2, Parent(u), p);
    }
  }

  ghost predicate SameAt(c: Config, root: Roots, w1: World, w3: World, p: Path) {
    && (w1.Has(p) <==> w3.Has(p))
    && (w1.Has(p) && p !in root ==> w3.At(p) == w1.At(p))
    && (w1.Has(p) && p in root ==>
          w1.At(p).File? && root[p] in c.have && w3.At(p) == File(w1.At(p).content, c.have[root[p]].meta))
  }

  lemma SamePath(c: Config, can: Linkable, listed: Listed, root: Roots, w1: World, w2: World, w3: World, p: Path)
    requires Sim(c, w1, w2, listed, root) && Homes(w2, root) && Relinked(c, can, w2, w3, root)
    ensures SameAt(c, root, w1, w3, p)
  {
    if p in root {
      assert LeftOutAt(c, w1, root, p) && RelinkedAt(c, can, |w2.nodes|, w3, root, p);
    } else if w1.Has(p) {
      NothingLacks(c, w1, w2, listed, root, p);
    }
  }

  lemma SharedStays(c: Config, can: Linkable, listed: Listed, root: Roots, w1: World, w2: World, w3: World, p: Path, q: Path)
    requires Sim(c, w1, w2, listed, root) && Homes(w2, root) && Relinked(c, can, w2, w3, root) && Shared(w1, p, q)
    ensures Shared(w3, p, q)
  {
    if p in root {
      assert q in root && root[p] == root[q];
      assert RelinkedAt(c, can, |w2.nodes|, w3, root, p) && RelinkedAt(c, can, |w2.nodes|, w3, root, q);
    } else {
      assert q !in root;
      NothingLacks(c, w1, w2, listed, root, p);
      NothingLacks(c, w1, w2, listed, root, q);
    }
  }

  lemma SharedFrom(c: Config, can: Linkable, listed: Listed, root: Roots, w1: World, w2: World, w3: World, p: Path, q: Path)
    requires Sim(c, w1, w2, listed, root) && Relinked(c, can, w2, w3, root)
    requires Installed(c, w2.nodes) && Separate(c, w2) && Shared(w3, p, q)
    ensures Shared(w1, p, q) || OneInOld(c, can, root, p, q)
  {
    if p in root {
      assert LeftOutAt(c, w1, root, p) && RelinkedAt(c, can, |w2.nodes|, w3, root, p);
    }
    if q in root {
      assert LeftOutAt(c, w1, root, q) && RelinkedAt(c, can, |w2.nodes|, w3, root, q);
    }
  }

  /** Two names share an inode after tarlink exactly when they do in the archive, or OLD had them as one file. */
  lemma SameSharing(c: Config, can: Linkable, listed: Listed, root: Roots, w1: World, w2: World, w3: World, p: Path, q: Path)
    requires Sim(c, w1, w2, listed, root) && Homes(w2, root) && Relinked(c, can, w2, w3, root)
    ensures Shared(w1, p, q) ==> Shared(w3, p, q)
    ensures Installed(c, w2.nodes) && Separate(c, w2) && Shared(w3, p, q) ==>
              Shared(w1, p, q) || OneInOld(c, can, root, p, q)
  {
    if Shared(w1, p, q) {
      SharedStays(c, can, listed, root, w1, w2, w3, p, q);
    } else if Installed(c, w2.nodes) && Separate(c, w2) && Shared(w3, p, q) {
      SharedFrom(c, can, listed, root, w1, w2, w3, p, q);
    }
  }

  lemma SameTreeFrom(c: Config, can: Linkable, listed: Listed, root: Roots, w1: World, w2: World, w3: World)
    requires Sim(c, w1, w2, listed, root) && Homes(w2, root) && Relinked(c, can, w2, w3, root) && Installed(c, w2.nodes)
    ensures SameTree(c, root, w1, w3)
    ensures Separate(c, w2) ==> NoMoreSharing(c, can, root, w1, w3)
  {
    forall p
      ensures SameAt(c, root, w1, w3, p)
    {
      SamePath(c, can, listed, root, w1, w2, w3, p);
    }
    forall p, q
      ensures Shared(w1, p, q) ==> Shared(w3, p, q)
      ensures Separate(c, w2) && Shared(w3, p, q) ==> Shared(w1, p, q) || OneInOld(c, can, root, p, q)
    {
      SameSharing(c, can, listed, root, w1, w2, w3, p, q);
    }
  }

  /** The members kept unpack, to a tree that tarlink can complete. */
  lemma KeptUnpacks(c: Config, w0: World, es: seq<Entry>, list: Listed) returns (listed: Listed, root: Roots, w1: World, w2: World)
    requires w0.Valid() && Installed(c, w0.nodes) && forall p :: p in list ==> !list[p]
    requires Settled(c, list, map[], es) && Unbroken(c, list, map[], es) && Untar(w0, es).Some?
    ensures root == RootsOf(c, list, map[], es)
    ensures Untar(w0, es) == Some(w1) && Untar(w0, Kept(c, list, es)) == Some(w2)
    ensures Sim(c, w1, w2, listed, root) && Installed(c, w2.nodes) && (Separate(c, w0) ==> Separate(c, w2))
  {
    SimAll(c, w0, w0, list, map[], es);
    listed, root := ListedAfter(c, list, es), RootsOf(c, list, map[], es);
    w1, w2 := Untar(w0, es).value, Untar(w0, Kept(c, list, es)).value;
    UntarAdds(c, w0, Kept(c, list, es));
  }

  // ---- when tarlink finishes

  /** The directory `d` is in NEW already, is a directory member of `es`, or lies above a member. */
  ghost predicate Provided(w: World, es: seq<Entry>, d: Path) {
    w.IsDir(d) || exists i :: 0 <= i < |es| && Provides(es[i], d)
  }

  predicate Provides(x: Entry, d: Path) {
    (x.info.typ == TYPE_DIR && x.info.name == d) || Above(d, x.info.name)
  }

  lemma PutDirs(w: World, x: Entry, d: Path)
    requires w.Valid() && Free(w, x.info.name) && Put(w, x).Some?
    ensures Put(w, x).value.Valid()
    ensures Put(w, x).value.IsDir(d) <==> w.IsDir(d) || (x.info.typ == TYPE_DIR && d == x.info.name)
  {
    if IsLink(x) {
      BindFacts(w, x.info.name, w.names[x.info.Link()]);
    } else {
      CreateFacts(w, x.info.name, NewNode(x));
    }
  }

  lemma GrownDirs(w: World, v: World, p: Path, d: Path)
    requires w.Valid() && p != [] && Grown(w, v, Parent(p))
    ensures v.IsDir(d) <==> w.IsDir(d) || Above(d, p)
  {
    if Above(d, p) {
      NewIsDir(v, Parent(p), d);
    }
  }

  lemma ExtractDirs(w: World, x: Entry, d: Path)
    requires w.Valid() && Extract(w, x).Some?
    ensures Extract(w, x).value.Valid()
    ensures Extract(w, x).value.IsDir(d) <==> w.IsDir(d) || Provides(x, d)
  {
    var p := x.info.name;
    if x.info.typ == TYPE_DIR && w.IsDir(p) {
      if Above(d, p) {
        AboveIsDir(w, d, p);
      }
    } else {
      MakesDirs(w, Parent(p));
      var v := MakeDirs(w, Parent(p)).value;
      StillFree(w, v, p);
      GrownDirs(w, v, p, d);
      PutDirs(v, x, d);
    }
  }

  /** The directories of an unpacked tree are exactly those its members provide. */
  lemma {:induction false} UntarDirs(w: World, es: seq<Entry>, d: Path)
    requires w.Valid() && Untar(w, es).Some?
    ensures Untar(w, es).value.IsDir(d) <==> Provided(w, es, d)
    decreases |es|
  {
    if es != [] {
      var w' := Extract(w, es[0]).value;
      ExtractDirs(w, es[0], d);
      UntarDirs(w', es[1..], d);
      ProvidedNext(w, w', es, d);
    }
  }

  lemma ProvidedNext(w: World, w': World, es: seq<Entry>, d: Path)
    requires es != [] && (w'.IsDir(d) <==> w.IsDir(d) || Provides(es[0], d))
    ensures Provided(w, es, d) <==> Provided(w', es[1..], d)
  {
    var rest := es[1..];
    if i :| 0 <= i < |rest| && Provides(rest[i], d) {
      assert Provides(es[i + 1], d);
    }
    if i :| 0 <= i < |es| && Provides(es[i], d) {
      if i > 0 {
        assert Provides(rest[i - 1], d);
      }
    }
  }

  /** Every path left out has its directory from NEW or from the members that stay. */
  ghost predicate Housed(c: Config, w0: World, es: seq<Entry>, list: Listed) {
    forall p :: p in RootsOf(c, list, map[], es) ==> Provided(w0, Kept(c, list, es), Parent(p))
  }

  predicate IsDirMember(x: Entry, d: Path) { x.info.typ == TYPE_DIR && x.info.name == d }

  ghost predicate HasDir(es: seq<Entry>, d: Path) { exists i :: 0 <= i < |es| && IsDirMember(es[i], d) }

  /** The directory of every member is in NEW or a member. */
  ghost predicate DirsListed(w: World, es: seq<Entry>) {
    forall i :: 0 <= i < |es| ==> w.IsDir(Parent(es[i].info.name)) || HasDir(es, Parent(es[i].info.name))
  }

  lemma {:induction false} DirsStay(c: Config, listed: Listed, es: seq<Entry>, d: Path)
    requires HasDir(es, d)
    ensures HasDir(Kept(c, listed, es), d)
    decreases |es|
  {
    var i :| 0 <= i < |es| && IsDirMember(es[i], d);
    var front := if Judge(c, listed, es[0]).Keep? then [es[0]] else [];
    var rest := Kept(c, Mark(c, listed, es[0]), es[1..]);
    if i > 0 {
      assert IsDirMember(es[1..][i - 1], d);
      DirsStay(c, Mark(c, listed, es[0]), es[1..], d);
      var j :| 0 <= j < |rest| && IsDirMember(rest[j], d);
      assert IsDirMember((front + rest)[|front| + j], d);
    } else {
      assert IsDirMember((front + rest)[0], d);
    }
  }

  lemma {:induction false} RootsAreNames(c: Config, listed: Listed, root: Roots, es: seq<Entry>, p: Path) returns (i: int)
    requires p in RootsOf(c, listed, root, es) && p !in root
    ensures 0 <= i < |es| && es[i].info.name == p
    decreases |es|
  {
    if p in AddRoot(c, listed, root, es[0]) {
      i := 0;
    } else {
      i := RootsAreNames(c, Mark(c, listed, es[0]), AddRoot(c, listed, root, es[0]), es[1..], p);
      i := i + 1;
    }
  }

  /** An archive that lists its directories always meets it: a directory is never left out. */
  lemma ListedIsHoused(c: Config, w0: World, es: seq<Entry>, list: Listed)
    requires DirsListed(w0, es)
    ensures Housed(c, w0, es, list)
  {
    var kept := Kept(c, list, es);
    forall p | p in RootsOf(c, list, map[], es)
      ensures Provided(w0, kept, Parent(p))
    {
      var i := RootsAreNames(c, list, map[], es, p);
      if HasDir(es, Parent(p)) {
        DirsStay(c, list, es, Parent(p));
        var j :| 0 <= j < |kept| && IsDirMember(kept[j], Parent(p));
        assert Provides(kept[j], Parent(p));
      }
    }
  }

  lemma HousedIsHomes(c: Config, w0: World, es: seq<Entry>, list: Listed, w2: World, root: Roots)
    requires w0.Valid() && Untar(w0, Kept(c, list, es)) == Some(w2) && root == RootsOf(c, list, map[], es)
    ensures Housed(c, w0, es, list) <==> Homes(w2, root)
  {
    forall p | p in root
      ensures w2.IsDir(Parent(p)) <==> Provided(w0, Kept(c, list, es), Parent(p))
    {
      UntarDirs(w0, Kept(c, list, es), Parent(p));
    }
  }

  /** tarlink makes no directory. */
  lemma NoNewDirs(c: Config, can: Linkable, w2: World, w: World, root: Roots, d: Path)
    requires w2.Valid() && Relinked(c, can, w2, w, root) && !w2.IsDir(d)
    ensures !w.IsDir(d)
  {
    if d in root {
      assert RelinkedAt(c, can, |w2.nodes|, w, root, d);
    }
  }

  lemma FileStops(c: Config, can: Linkable, w: World, p: Path, rest: seq<Line>)
    requires LinkOld(c, can, w, p).None?
    ensures TarLink(c, can, w, None, [D(p)] + rest).None?
  {
  }

  lemma LinkStops(c: Config, can: Linkable, w: World, h: Path, t: Path, rest: seq<Line>)
    requires LinkNew(w, h, t).None?
    ensures TarLink(c, can, w, None, [H(h), T(t)] + rest).None?
  {
    assert ([H(h), T(t)] + rest)[1..] == [T(t)] + rest;
  }

  /** A path of the log without its directory: tarlink stops there, or before. */
  lemma {:induction false} RelinkStops(c: Config, can: Linkable, w2: World, w: World,
                                       listed: Listed, root: Roots, es: seq<Entry>, end: Line, lost: Path)
    requires w2.Valid() && Installed(c, w2.nodes) && Relinked(c, can, w2, w, root)
    requires Flags(listed, root) && Settled(c, listed, root, es)
    requires lost in RootsOf(c, listed, root, es) && lost !in root && !w2.IsDir(Parent(lost))
    ensures TarLink(c, can, w, None, LogOf(c, listed, es) + [end]).None?
    decreases |es|
  {
    var x := es[0];
    var p, t := x.info.name, x.info.Link();
    var v := Judge(c, listed, x);
    var listed', root' := Mark(c, listed, x), AddRoot(c, listed, root, x);
    var rest := LogOf(c, listed', es[1..]) + [end];
    assert LogOf(c, listed, es) + [end] == LinesOf(v, x.info) + rest;
    FlagsNext(c, listed, root, x);
    NoNewDirs(c, can, w2, w, root, Parent(lost));
    if v.DropFile? {
      if p in c.have && Free(w, p) {
        RelinkFile(c, can, w2, w, root, p);
        FileLine(c, can, w, p, rest);
        RelinkStops(c, can, w2, LinkOld(c, can, w, p).value, listed', root', es[1..], end, lost);
      } else {
        FileStops(c, can, w, p, rest);
      }
    } else if v.DropLink? {
      if Free(w, p) && w.IsDir(Parent(t)) {
        RelinkLink(c, can, w2, w, root, p, t);
        LinkLines(c, can, w, p, t, rest);
        RelinkStops(c, can, w2, LinkNew(w, p, t).value, listed', root', es[1..], end, lost);
      } else {
        LinkStops(c, can, w, p, t, rest);
      }
    } else {
      assert [] + rest == rest;
      RelinkStops(c, can, w2, w, listed, root, es[1..], end, lost);
    }
  }

  /** Over members. The kept ones unpack. tarlink runs through the log if and only if every path left out has its directory
      from NEW or from the kept members, and then the tree is that of all members. */
  lemma RelinkedIsUntar(c: Config, can: Linkable, w0: World, es: seq<Entry>, list: Listed, end: Line)
    returns (root: Roots, w1: World, w2: World, r: Option<World>)
    requires w0.Valid() && Installed(c, w0.nodes) && forall p :: p in list ==> !list[p]
    requires Settled(c, list, map[], es) && Unbroken(c, list, map[], es) && Untar(w0, es).Some? && end.E?
    ensures Untar(w0, es) == Some(w1) && Untar(w0, Kept(c, list, es)) == Some(w2)
    ensures r == TarLink(c, can, w2, None, LogOf(c, list, es) + [end]) && (r.Some? <==> Housed(c, w0, es, list))
    ensures root == RootsOf(c, list, map[], es)
    ensures r.Some? ==> SameTree(c, root, w1, r.value) && (Separate(c, w0) ==> NoMoreSharing(c, can, root, w1, r.value))
  {
    var listed;
    listed, root, w1, w2 := KeptUnpacks(c, w0, es, list);
    HousedIsHomes(c, w0, es, list, w2, root);
    r := TarLink(c, can, w2, None, LogOf(c, list, es) + [end]);
    if Homes(w2, root) {
      ReadyAll(c, w1, w2, listed, root);
      var w3 := RelinkAll(c, can, w2, w2, list, map[], root, es, end);
      SameTreeFrom(c, can, listed, root, w1, w2, w3);
    } else {
      var lost :| lost in root && !w2.IsDir(Parent(lost));
      RelinkStops(c, can, w2, w2, list, map[], es, end, lost);
    }
  }

  /** Into a fresh NEW, the filtered archive unpacks if and only if no hard link names a hard link that was left out. */
  lemma UnpacksExactlyWhenUnbroken(c: Config, w0: World, es: seq<Entry>, list: Listed)
    requires w0.Valid() && Installed(c, w0.nodes) && forall p :: p in list ==> !list[p]
    requires DistinctNames(es) && Untar(w0, es).Some? && Fresh(w0, map[], es)
    ensures Untar(w0, Kept(c, list, es)).Some? <==> Unbroken(c, list, map[], es)
  {
    if Unbroken(c, list, map[], es) {
      DistinctIsSettled(c, list, map[], es);
      SimAll(c, w0, w0, list, map[], es);
    } else {
      BrokenIsRefused(c, w0, w0, list, map[], es);
    }
  }

  lemma OneLetter(x: byte)
    requires x != SLASH && x != DOT
    ensures Norm([x]) == [x] && Parent([x]) == []
  {
    assert StripFront([x]) == [x] && StripBack([x]) == [x];
  }

  /** Three names of one file, the third linked to the second. */
  ghost predicate ThreeNames(es: seq<Entry>, meta: Meta) {
    es == [Entry(Info(48, [97], [], 0, false), meta, []),
           Entry(Info(TYPE_LINK, [98], [97], 0, false), meta, []),
           Entry(Info(TYPE_LINK, [99], [98], 0, false), meta, [])]
  }

  lemma ThreeNamesUnpack(w0: World, meta: Meta, es: seq<Entry>)
    requires w0 == World([Dir, File([], meta)], map[[] := 0]) && ThreeNames(es, meta)
    ensures Untar(w0, es).Some? && Extract(w0, es[2]).None?
  {
    OneLetter(97);
    OneLetter(98);
    OneLetter(99);
    var w := Extract(w0, es[0]).value;
    var w' := Extract(w, es[1]).value;
    assert Extract(w', es[2]).Some? && Untar(w', [es[2]]).Some?;
    assert es[1..][1..] == [es[2]];
    assert Untar(w, es[1..]).Some?;
  }

  /** Such an archive unpacks; filtered against an OLD that has the file, it does not. */
  lemma LinkToALinkIsLost(c: Config, w0: World, meta: Meta, es: seq<Entry>, list: Listed)
    requires !c.every && c.have == map[[97] := OldFile([], true, 1, meta)] && list == map[[97] := false]
    requires w0 == World([Dir, File([], meta)], map[[] := 0]) && ThreeNames(es, meta)
    ensures Untar(w0, es).Some? && Untar(w0, Kept(c, list, es)).None?
  {
    ThreeNamesUnpack(w0, meta, es);
    OneLetter(97);
    OneLetter(98);
    var listed := list[[97] := true];
    assert Judge(c, list, es[0]).DropFile? && Judge(c, listed, es[1]).DropLink? && Judge(c, listed, es[2]).Keep?;
    assert es[1..][1..] == [es[2]] && [es[2]][1..] == [];
    assert Kept(c, listed, [es[2]]) == [es[2]];
    assert Kept(c, list, es) == Kept(c, listed, es[1..]) == Kept(c, listed, [es[2]]);
  }

  /** Into a NEW that has an old file in the place of the link that is left out, it does; but the third name then is that
      old file, which no relinking mends. */
  lemma StaleFileIsLinked(c: Config, can: Linkable, w0: World, meta: Meta, stale: Bytes, es: seq<Entry>, list: Listed, end: Line)
    returns (w1: World, w2: World, w3: World)
    requires !c.every && c.have == map[[97] := OldFile([], true, 1, meta)] && list == map[[97] := false] && end.E?
    requires w0 == World([Dir, File([], meta), File(stale, meta)], map[[] := 0, [98] := 2]) && stale != []
    requires ThreeNames(es, meta)
    ensures w0.Valid() && Installed(c, w0.nodes) && Housed(c, w0, es, list)
    ensures Untar(w0, es) == Some(w1) && w1.Has([99]) && w1.At([99]) == File([], meta)
    ensures Untar(w0, Kept(c, list, es)) == Some(w2)
    ensures TarLink(c, can, w2, None, LogOf(c, list, es) + [end]) == Some(w3) && w3.Has([99]) && w3.At([99]) == File(stale, meta)
  {
    OneLetter(97);
    OneLetter(98);
    OneLetter(99);
    w1 := StaleWhole(w0, meta, stale, es);
    w2 := w0.Bind([99], 2);
    StaleFiltered(c, list, meta, es);
    assert Kept(c, list, es)[1..] == [];
    assert Extract(w0, es[2]) == Some(w2);
    w3 := StaleRelinked(c, can, w2, meta, stale, LogOf(c, list, es), end);
    forall p | p in RootsOf(c, list, map[], es)
      ensures Provided(w0, Kept(c, list, es), Parent(p))
    {
      var i := RootsAreNames(c, list, map[], es, p);
    }
  }

  lemma StaleWhole(w0: World, meta: Meta, stale: Bytes, es: seq<Entry>) returns (w1: World)
    requires w0 == World([Dir, File([], meta), File(stale, meta)], map[[] := 0, [98] := 2]) && ThreeNames(es, meta)
    ensures w0.Valid() && Untar(w0, es) == Some(w1) && w1.Has([99]) && w1.At([99]) == File([], meta)
  {
    OneLetter(97);
    OneLetter(98);
    OneLetter(99);
    var a := Extract(w0, es[0]).value;
    assert a == w0.Create([97], File([], meta));
    var b := Extract(a, es[1]).value;
    assert b == a.Bind([98], 3);
    w1 := Extract(b, es[2]).value;
    assert w1 == b.Bind([99], 3);
    assert es[1..][1..] == [es[2]] && [es[2]][1..] == [];
    assert Untar(b, [es[2]]) == Some(w1);
    assert Untar(a, es[1..]) == Some(w1);
  }

  lemma StaleFiltered(c: Config, list: Listed, meta: Meta, es: seq<Entry>)
    requires !c.every && c.have == map[[97] := OldFile([], true, 1, meta)] && list == map[[97] := false] && ThreeNames(es, meta)
    ensures Kept(c, list, es) == [es[2]] && LogOf(c, list, es) == [D([97]), H([98]), T([97])]
  {
    OneLetter(97);
    OneLetter(98);
    var listed := list[[97] := true];
    assert Judge(c, list, es[0]).DropFile? && Judge(c, listed, es[1]).DropLink? && Judge(c, listed, es[2]).Keep?;
    assert es[1..][1..] == [es[2]] && [es[2]][1..] == [];
    assert Kept(c, listed, [es[2]]) == [es[2]] && LogOf(c, listed, [es[2]]) == [];
    assert Kept(c, list, es) == Kept(c, listed, es[1..]) == Kept(c, listed, [es[2]]);
    assert LogOf(c, listed, es[1..]) == [H([98]), T([97])] + LogOf(c, listed, [es[2]]);
  }

  lemma StaleRelinked(c: Config, can: Linkable, w2: World, meta: Meta, stale: Bytes, log: seq<Line>, end: Line) returns (w3: World)
    requires c.have == map[[97] := OldFile([], true, 1, meta)] && end.E? && log == [D([97]), H([98]), T([97])]
    requires w2 == World([Dir, File([], meta), File(stale, meta)], map[[] := 0, [98] := 2, [99] := 2])
    ensures TarLink(c, can, w2, None, log + [end]) == Some(w3) && w3.Has([99]) && w3.At([99]) == File(stale, meta)
  {
    OneLetter(97);
    OneLetter(98);
    var a := LinkOld(c, can, w2, [97]).value;
    w3 := LinkNew(a, [98], [97]).value;
    assert log + [end] == [D([97])] + ([H([98]), T([97])] + [end]);
    FileLine(c, can, w2, [97], [H([98]), T([97])] + [end]);
    LinkLines(c, can, a, [98], [97], [end]);
    assert [end][1..] == [];
    assert TarLink(c, can, w3, None, [end]) == Some(w3);
  }

  /** Two members of one name. */
  ghost predicate NamedTwice(es: seq<Entry>, meta: Meta) {
    es == [Entry(Info(48, [97], [], 0, false), meta, []), Entry(Info(48, [97], [], 1, false), meta, [1])]
  }

  /** The first is OLD's and left out, the second stays; tarlink puts OLD's file in its place. */
  lemma NamedAgainIsLost(c: Config, can: Linkable, w0: World, meta: Meta, es: seq<Entry>, list: Listed, end: Line)
    returns (w1: World, w2: World, w3: World)
    requires !c.every && c.have == map[[97] := OldFile([], true, 1, meta)] && list == map[[97] := false] && end.E?
    requires w0 == World([Dir, File([], meta)], map[[] := 0]) && NamedTwice(es, meta)
    ensures Untar(w0, es) == Some(w1) && w1.Has([97]) && w1.At([97]) == File([1], meta)
    ensures Untar(w0, Kept(c, list, es)) == Some(w2)
    ensures TarLink(c, can, w2, None, LogOf(c, list, es) + [end]) == Some(w3) && w3.Has([97]) && w3.At([97]) == File([], meta)
  {
    OneLetter(97);
    var listed := list[[97] := true];
    var a := Extract(w0, es[0]).value;
    w1 := Extract(a, es[1]).value;
    w2 := Extract(w0, es[1]).value;
    assert es[1..] == [es[1]] && [es[1]][1..] == [];
    assert Untar(a, es[1..]) == Some(w1) && Untar(w0, [es[1]]) == Some(w2);
    assert Judge(c, list, es[0]).DropFile? && Judge(c, listed, es[1]).Keep?;
    assert Kept(c, listed, [es[1]]) == [es[1]] && LogOf(c, listed, [es[1]]) == [];
    assert Kept(c, list, es) == [es[1]] && LogOf(c, list, es) == [D([97])];
    w3 := LinkOld(c, can, w2, [97]).value;
    FileLine(c, can, w2, [97], [end]);
    assert [end][1..] == [];
    assert TarLink(c, can, w3, None, [end]) == Some(w3);
  }

  lemma TwoParts()
    ensures Parent([97, SLASH, 98]) == [97] && Parent([97]) == []
  {
    var p: Path := [97, SLASH, 98];
    assert LastSlash(p) == LastSlash(p[..2]) == 1;
    assert p[..1] == [97];
    assert LastSlash([97]) == 0;
  }

  /** One member, a file in a directory that is no member. */
  ghost predicate LoneFile(es: seq<Entry>, meta: Meta) { es == [Entry(Info(48, [97, SLASH, 98], [], 0, false), meta, [])] }

  /** Such an archive unpacks; filtered against an OLD that has the file nothing is left, and tarlink has no directory to put
      it in. */
  lemma LoneFileIsLost(c: Config, can: Linkable, w0: World, meta: Meta, es: seq<Entry>, list: Listed, end: Line)
    requires !c.every && c.have == map[[97, SLASH, 98] := OldFile([], true, 1, meta)] && list == map[[97, SLASH, 98] := false]
    requires w0 == World([Dir, File([], meta)], map[[] := 0]) && LoneFile(es, meta)
    ensures w0.Valid() && Untar(w0, es).Some? && Untar(w0, Kept(c, list, es)) == Some(w0)
    ensures TarLink(c, can, w0, None, LogOf(c, list, es) + [end]).None?
  {
    var p: Path := [97, SLASH, 98];
    TwoParts();
    assert MakeDirs(w0, [97]) == Some(w0.Create([97], Dir));
    assert Extract(w0, es[0]).Some? && es[1..] == [];
    assert Judge(c, list, es[0]).DropFile?;
    var listed := Mark(c, list, es[0]);
    assert Kept(c, listed, es[1..]) == [] && LogOf(c, listed, es[1..]) == [];
    assert Kept(c, list, es) == [];
    assert LogOf(c, list, es) == [D(p)] + LogOf(c, listed, es[1..]) == [D(p)];
    assert ([D(p)] + [end])[0] == D(p);
    assert !Free(w0, p);
  }

  /** tarfilter as a whole. */
  function Filter(c: Config, inp: Bytes, list: Listed): Filtered {
    FilterSpec(c, inp, State([], NO_EXT, list, 0, 0))
  }

  lemma FilterReads(c: Config, inp: Bytes, list: Listed, es: seq<Entry>)
    requires Decode(inp, NO_EXT) == Some(es) && Tidy(inp, NO_EXT, false)
    ensures Reads(c, list, es, Filter(c, inp, list))
  {
    FilterDecodes(c, inp, State([], NO_EXT, list, 0, 0));
  }

  lemma ReadsParts(c: Config, list: Listed, es: seq<Entry>, f: Filtered) returns (end: Line)
    requires Reads(c, list, es, f)
    ensures f.log == LogOf(c, list, es) + [end] && end.E?
  {
    end := f.log[|f.log| - 1];
    assert f.log == f.log[..|f.log| - 1] + [end];
  }

  /** What the delta unpack asks of an archive with the members `es`: extended headers directly before their member, no
      member with the name of one left out before it, and that it unpacks into NEW at all. */
  ghost predicate Suitable(c: Config, w0: World, inp: Bytes, es: seq<Entry>, list: Listed) {
    && w0.Valid() && Installed(c, w0.nodes)
    && Decode(inp, NO_EXT) == Some(es) && Tidy(inp, NO_EXT, false)
    && Settled(c, list, map[], es) && Untar(w0, es).Some?
    && forall p :: p in list ==> !list[p]
  }

  /** Filter, untar, tarlink of an archive in which no hard link names a hard link that is left out: the filtered stream
      unpacks; tarlink finishes if and only if every path left out has its directory from NEW or from the members that
      stay; and then the tree is the one of untar alone. */
  lemma DeltaUnpackIsUntar(c: Config, can: Linkable, w0: World, inp: Bytes, es: seq<Entry>, list: Listed)
    returns (root: Roots, w1: World, f: Filtered, w2: World, r: Option<World>)
    requires Suitable(c, w0, inp, es, list) && Unbroken(c, list, map[], es)
    ensures Untar(w0, es) == Some(w1)
    ensures f == Filter(c, inp, list) && f.Filtered? && Decode(f.out, NO_EXT).Some?
    ensures Untar(w0, Decode(f.out, NO_EXT).value) == Some(w2)
    ensures r == TarLink(c, can, w2, None, f.log) && (r.Some? <==> Housed(c, w0, es, list))
    ensures root == RootsOf(c, list, map[], es)
    ensures r.Some? ==> SameTree(c, root, w1, r.value) && (Separate(c, w0) ==> NoMoreSharing(c, can, root, w1, r.value))
  {
    f := Filter(c, inp, list);
    FilterReads(c, inp, list, es);
    root, w1, w2, r := ReadsIsUntar(c, can, w0, es, list, f);
  }

  lemma ReadsIsUntar(c: Config, can: Linkable, w0: World, es: seq<Entry>, list: Listed, f: Filtered)
    returns (root: Roots, w1: World, w2: World, r: Option<World>)
    requires w0.Valid() && Installed(c, w0.nodes) && Settled(c, list, map[], es) && Untar(w0, es).Some? && forall p :: p in list ==> !list[p]
    requires Unbroken(c, list, map[], es) && Reads(c, list, es, f)
    ensures Untar(w0, es) == Some(w1)
    ensures f.Filtered? && Decode(f.out, NO_EXT).Some? && Untar(w0, Decode(f.out, NO_EXT).value) == Some(w2)
    ensures r == TarLink(c, can, w2, None, f.log) && (r.Some? <==> Housed(c, w0, es, list))
    ensures root == RootsOf(c, list, map[], es)
    ensures r.Some? ==> SameTree(c, root, w1, r.value) && (Separate(c, w0) ==> NoMoreSharing(c, can, root, w1, r.value))
  {
    var end := ReadsParts(c, list, es, f);
    root, w1, w2, r := RelinkedIsUntar(c, can, w0, es, list, end);
  }
}
