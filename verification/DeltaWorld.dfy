/** A tree of names on the inodes of a filesystem, and the directories tar makes on the way to a member. */
module DeltaWorld {
  import opened Bytes
  import opened Paths
  import opened TarFilter

  /** An inode. */
  datatype Node = File(content: Bytes, meta: Meta) | Dir | Symlink(target: Bytes) | Special(typ: byte, content: Bytes)

  /** NEW: its names, and the inodes of the filesystem it shares with OLD. */
  datatype World = World(nodes: seq<Node>, names: map<Path, nat>) {
    /** Every name is in a directory, and a directory has one name. */
    ghost predicate Valid() {
      (forall p :: p in names ==> names[p] < |nodes|) && IsDir([]) && InDirs() && OneName()
    }

    ghost predicate InDirs() { forall p {:trigger Parent(p)} :: Has(p) && p != [] ==> IsDir(Parent(p)) }

    ghost predicate OneName() { forall p, q {:trigger IsDir(p), names[q]} :: IsDir(p) && Has(q) && names[p] == names[q] ==> p == q }

    predicate Has(p: Path) { p in names && names[p] < |nodes| }

    function At(p: Path): Node
      requires Has(p)
    {
      nodes[names[p]]
    }

    predicate IsDir(p: Path) { Has(p) && At(p).Dir? }

    /** `p` becomes the only name of a new inode. */
    function Create(p: Path, n: Node): World { World(nodes + [n], names[p := |nodes|]) }

    function Bind(p: Path, ino: nat): World { World(nodes, names[p := ino]) }
  }

  /** A path that a file can be put at: its directory is there and no directory is in the way. */
  predicate Free(w: World, p: Path) {
    p != [] && w.IsDir(Parent(p)) && !w.IsDir(p)
  }

  /** `w'` has the names of `w`, on the same nodes, but for `p`. */
  ghost predicate Others(w: World, w': World, p: Path) {
    forall q :: q != p ==>
      (w'.Has(q) <==> w.Has(q)) && (w.Has(q) ==> w'.names[q] == w.names[q] && w'.At(q) == w.At(q))
  }

  /** `w'` is `w` but for the name `p`. */
  ghost predicate Only(w: World, w': World, p: Path) {
    w'.Valid() && w'.Has(p) && Others(w, w', p)
  }

  lemma StillInDirs(w: World, w': World, p: Path)
    requires w.InDirs() && Free(w, p) && Others(w, w', p)
    ensures w'.InDirs()
  {
    forall q | w'.Has(q) && q != []
      ensures w'.IsDir(Parent(q))
    {
      assert Parent(q) != p;
    }
  }

  lemma StillOneName(w: World, w': World, p: Path)
    requires w.OneName() && Others(w, w', p) && w'.Has(p)
    requires w'.At(p).Dir? ==> forall q :: w.Has(q) ==> w.names[q] != w'.names[p]
    ensures w'.OneName()
  {
    forall q, r | w'.IsDir(q) && w'.Has(r) && w'.names[q] == w'.names[r]
      ensures q == r
    {
      assert q != p ==> w.IsDir(q);
      assert r != p ==> w.Has(r) && w'.names[r] == w.names[r];
    }
  }

  lemma CreateFacts(w: World, p: Path, n: Node)
    requires w.Valid() && Free(w, p)
    ensures var w' := w.Create(p, n); Only(w, w', p) && w'.At(p) == n && w'.names[p] == |w.nodes|
  {
    var w' := w.Create(p, n);
    StillInDirs(w, w', p);
    StillOneName(w, w', p);
  }

  lemma BindFacts(w: World, p: Path, ino: nat)
    requires w.Valid() && Free(w, p) && ino < |w.nodes| && !w.nodes[ino].Dir?
    ensures var w' := w.Bind(p, ino); Only(w, w', p) && w'.At(p) == w.nodes[ino] && w'.names[p] == ino
  {
    var w' := w.Bind(p, ino);
    StillInDirs(w, w', p);
    StillOneName(w, w', p);
  }

  lemma {:induction false} AboveIsDir(w: World, a: Path, p: Path)
    requires w.Valid() && w.Has(p) && Above(a, p)
    ensures w.IsDir(a)
    decreases |p|
  {
    if Parent(p) != a {
      AboveIsDir(w, a, Parent(p));
    }
  }

  // ---- the directories tar makes

  /** `d` and every missing directory above it are made; None where something else has one of the names. */
  function MakeDirs(w: World, d: Path): Option<World>
    decreases |d|
  {
    if w.IsDir(d) then Some(w)
    else if w.Has(d) || d == [] then None
    else match MakeDirs(w, Parent(d))
         case None => None
         case Some(v) => Some(v.Create(d, Dir))
  }

  /** `v` is `w` with some directories more, each of them `d` or above it. */
  ghost predicate Grown(w: World, v: World, d: Path) {
    && v.Valid() && v.IsDir(d) && w.nodes <= v.nodes
    && (forall q :: w.Has(q) ==> v.Has(q) && v.names[q] == w.names[q] && v.At(q) == w.At(q))
    && (forall q :: v.Has(q) && !w.Has(q) ==> v.At(q).Dir? && v.names[q] >= |w.nodes| && (q == d || Above(q, d)))
  }

  lemma {:induction false} MakesDirs(w: World, d: Path)
    requires w.Valid() && MakeDirs(w, d).Some?
    ensures Grown(w, MakeDirs(w, d).value, d)
    decreases |d|
  {
    if !w.IsDir(d) {
      MakesDirs(w, Parent(d));
      var v := MakeDirs(w, Parent(d)).value;
      NotAboveItself(d, Parent(d));
      CreateFacts(v, d, Dir);
    }
  }

  lemma {:induction false} AboveIsShorter(a: Path, p: Path)
    requires Above(a, p)
    ensures |a| < |p|
    decreases |p|
  {
    if Parent(p) != a {
      AboveIsShorter(a, Parent(p));
    }
  }

  /** A path is not made on the way to its own directory. */
  lemma NotAboveItself(d: Path, up: Path)
    requires d != [] && up == Parent(d)
    ensures d != up && !Above(d, up)
  {
    if Above(d, up) {
      AboveIsShorter(d, up);
    }
  }

  /** Nothing but directories in the way: the directories are made. */
  lemma {:induction false} WayIsFree(w: World, d: Path)
    requires w.Valid() && (w.Has(d) ==> w.IsDir(d)) && forall a :: Above(a, d) && w.Has(a) ==> w.IsDir(a)
    ensures MakeDirs(w, d).Some?
    decreases |d|
  {
    if !w.IsDir(d) {
      WayIsFree(w, Parent(d));
    }
  }
}
