/** The trees an archive and tarlink make, and the claim of the delta unpack: filter, untar and relink is untar
    (tools/carry/mu300-carry.c:1039-1045, 1284-1431). */
module DeltaTree {
  import opened Bytes
  import opened Paths
  import opened TarFormat
  import opened TarFilter
  import opened DeltaStream
  import opened DeltaWorld

  // ---- untar

  function NewNode(x: Entry): Node {
    if IsRegular(x.info.typ) then File(x.content, x.meta)
    else if x.info.typ == TYPE_DIR then Dir
    else if x.info.typ == TYPE_SYMLINK then Symlink(x.info.target)
    else Special(x.info.typ, x.content)
  }

  /** A member put where its directory is; None where a hard link's target is missing. What is there already goes. */
  function Put(w: World, x: Entry): Option<World> {
    var p := x.info.name;
    if x.info.typ != TYPE_LINK then Some(w.Create(p, NewNode(x)))
    else if w.Has(x.info.Link()) && w.At(x.info.Link()).File? then Some(w.Bind(p, w.names[x.info.Link()]))
    else None
  }

  /** One member unpacked, the missing directories above it made first; None when it cannot be: a directory is in its way,
      or something else in the way of its directories, or a hard link's target is missing. */
  function Extract(w: World, x: Entry): Option<World> {
    var p := x.info.name;
    if x.info.typ == TYPE_DIR && w.IsDir(p) then Some(w)
    else if p == [] || w.IsDir(p) then None
    else match MakeDirs(w, Parent(p))
         case None => None
         case Some(v) => Put(v, x)
  }

  function Untar(w: World, es: seq<Entry>): Option<World>
    decreases |es|
  {
    if es == [] then Some(w)
    else
      var w' := Extract(w, es[0]);
      if w'.None? then None else Untar(w'.value, es[1..])
  }

  // ---- tarlink

  /** Which of OLD's files can get a second name (the others are copied: another filesystem, too many names). */
  type Linkable = Path -> bool

  /** "D p": NEW's p a second name of OLD's, or a copy of it. */
  function LinkOld(c: Config, can: Linkable, w: World, p: Path): Option<World> {
    if p !in c.have || !Free(w, p) then None
    else if can(p) then Some(w.Bind(p, c.have[p].ino))
    else Some(w.Create(p, File(c.have[p].content, c.have[p].meta)))
  }

  /** "H h" "T t": NEW's h a second name of NEW's t. What was at h is removed before t is looked up. */
  function LinkNew(w: World, h: Path, t: Path): Option<World> {
    if !Free(w, h) || t == h || !w.IsDir(Parent(t)) || !w.Has(t) || w.IsDir(t) then None
    else Some(w.Bind(h, w.names[t]))
  }

  /** cmd_tarlink over the lines of a log; `h` is the path of an H line whose T line comes next. */
  function TarLink(c: Config, can: Linkable, w: World, h: Option<Path>, lines: seq<Line>): Option<World>
    decreases |lines|
  {
    if lines == [] then Some(w)
    else match lines[0]
      case D(p) =>
        var w' := LinkOld(c, can, w, p);
        if w'.None? then None else TarLink(c, can, w'.value, h, lines[1..])
      case H(p) => TarLink(c, can, w, Some(p), lines[1..])
      case T(t) =>
        if h.None? then None
        else
          var w' := LinkNew(w, h.value, t);
          if w'.None? then None else TarLink(c, can, w'.value, None, lines[1..])
      case E(_, _) => TarLink(c, can, w, h, lines[1..])
  }

  // ---- well-formed archives

  predicate DistinctNames(es: seq<Entry>) {
    forall i, j :: 0 <= i < j < |es| ==> es[i].info.name != es[j].info.name
  }

  predicate IsLink(x: Entry) { x.info.typ == TYPE_LINK }

  /** A hard link never names an earlier hard link. */
  predicate DirectLinks(es: seq<Entry>) {
    forall i, j :: 0 <= i < j < |es| && IsLink(es[i]) && IsLink(es[j]) ==> es[j].info.Link() != es[i].info.name
  }

  /** OLD's files are inodes of the filesystem. */
  ghost predicate Installed(c: Config, nodes: seq<Node>) {
    forall p :: p in c.have ==> c.have[p].ino < |nodes|
                                && nodes[c.have[p].ino] == File(c.have[p].content, c.have[p].meta)
  }

  // ---- what is left out

  /** From each path left out so far to the file of OLD it comes from. */
  type Roots = map<Path, Path>

  function AddRoot(c: Config, listed: Listed, root: Roots, x: Entry): Roots {
    match Judge(c, listed, x)
    case DropFile => root[x.info.name := x.info.name]
    case DropLink => root[x.info.name := x.info.Link()]
    case Keep => root
  }

  function RootsOf(c: Config, listed: Listed, root: Roots, es: seq<Entry>): Roots
    decreases |es|
  {
    if es == [] then root
    else RootsOf(c, Mark(c, listed, es[0]), AddRoot(c, listed, root, es[0]), es[1..])
  }

  function ListedAfter(c: Config, listed: Listed, es: seq<Entry>): Listed
    decreases |es|
  {
    if es == [] then listed else ListedAfter(c, Mark(c, listed, es[0]), es[1..])
  }

  /** The flags of tarfilter's list are exactly the files left out. */
  ghost predicate Flags(listed: Listed, root: Roots) {
    forall p :: (p in listed && listed[p]) <==> (p in root && root[p] == p)
  }

  /** What a path left out is in the tree of the whole archive. */
  ghost predicate LeftOutAt(c: Config, w: World, root: Roots, p: Path)
    requires p in root
  {
    var r := root[p];
    && r in root && root[r] == r && r in c.have
    && w.Has(p) && w.Has(r) && w.names[p] == w.names[r]
    && w.At(p).File? && w.At(p).content == c.have[r].content
    && p != [] && w.IsDir(Parent(p))
  }

  ghost predicate LeftOutIn(c: Config, w: World, root: Roots) {
    forall p {:trigger LeftOutAt(c, w, root, p)} :: p in root ==> LeftOutAt(c, w, root, p)
  }

  /** Two names left out share an inode only when they have one root; none shares with a name that stays. */
  ghost predicate Apart(w: World, root: Roots) {
    && (forall p, q :: p in root && q in root && w.Has(p) && w.Has(q) && w.names[p] == w.names[q] ==> root[p] == root[q])
    && (forall p, q :: p in root && q !in root && w.Has(p) && w.Has(q) ==> w.names[p] != w.names[q])
  }

  /** A directory made on the way to one of `up`. */
  ghost predicate OnTheWay(p: Path, up: set<Path>) { exists u :: u in up && Above(p, u) }

  /** Aside from the paths left out, the filtered archive's tree is in the whole one's, on the same nodes. */
  ghost predicate Within(w1: World, w2: World, root: Roots) {
    forall p :: p !in root && w2.Has(p) ==> w1.Has(p) && w1.At(p) == w2.At(p)
  }

  /** The names of one file are the names of one file. */
  ghost predicate Alike(w1: World, w2: World, root: Roots) {
    forall p, q :: p !in root && q !in root && w2.Has(p) && w2.Has(q) && w1.Has(p) && w1.Has(q) ==>
      (w1.names[p] == w1.names[q] <==> w2.names[p] == w2.names[q])
  }

  ghost predicate NoDirs(w2: World, root: Roots) { forall p :: p in root ==> !w2.IsDir(p) }

  ghost predicate Agree(w1: World, w2: World, root: Roots) {
    Within(w1, w2, root) && Alike(w1, w2, root) && NoDirs(w2, root)
  }

  /** What it lacks besides are directories made on the way to those of `up`. */
  ghost predicate Lacks(w1: World, w2: World, root: Roots, up: set<Path>) {
    forall p {:trigger OnTheWay(p, up)} {:trigger w1.Has(p)} :: p !in root && w1.Has(p) && !w2.Has(p) ==> w1.IsDir(p) && OnTheWay(p, up)
  }

  /** The simulation between unpacking the whole archive (w1) and the filtered one (w2). */
  ghost predicate Sim(c: Config, w1: World, w2: World, listed: Listed, root: Roots) {
    && w1.Valid() && w2.Valid() && Flags(listed, root) && LeftOutIn(c, w1, root) && Apart(w1, root)
    && Agree(w1, w2, root) && Lacks(w1, w2, root, root.Keys)
  }

  lemma LeftOutIsFile(c: Config, w: World, root: Roots, p: Path)
    requires LeftOutIn(c, w, root)
    ensures p in root ==> !w.IsDir(p)
  {
    if p in root {
      assert LeftOutAt(c, w, root, p);
    }
  }

  lemma LeftOutStays(c: Config, w: World, w': World, root: Roots, p: Path)
    requires LeftOutIn(c, w, root) && Only(w, w', p) && p !in root && !w.IsDir(p)
    ensures LeftOutIn(c, w', root)
  {
    forall q | q in root
      ensures LeftOutAt(c, w', root, q)
    {
      assert LeftOutAt(c, w, root, q);
      assert root[q] != p && q != p && Parent(q) != p;
    }
  }

  lemma ApartStays(w: World, w': World, root: Roots, p: Path)
    requires Apart(w, root) && Only(w, w', p) && p !in root
    requires forall q :: q in root && w.Has(q) ==> w.names[q] != w'.names[p]
    ensures Apart(w', root)
  {
  }

  lemma AgreeStays(w1: World, w2: World, w1': World, w2': World, root: Roots, p: Path)
    requires Agree(w1, w2, root) && Only(w1, w1', p) && Only(w2, w2', p) && p !in root
    requires w1'.At(p) == w2'.At(p)
    requires forall q :: q !in root && w1.Has(q) && w2.Has(q) && q != p ==>
               (w1.names[q] == w1'.names[p] <==> w2.names[q] == w2'.names[p])
    ensures Agree(w1', w2', root)
  {
    assert Within(w1', w2', root) && NoDirs(w2', root);
    AlikeStays(w1, w2, w1', w2', root, p);
  }

  lemma AlikeStays(w1: World, w2: World, w1': World, w2': World, root: Roots, p: Path)
    requires Within(w1, w2, root) && Alike(w1, w2, root) && Others(w1, w1', p) && Others(w2, w2', p)
    requires w1'.Has(p) && w2'.Has(p)
    requires forall q :: q !in root && w1.Has(q) && w2.Has(q) && q != p ==>
               (w1.names[q] == w1'.names[p] <==> w2.names[q] == w2'.names[p])
    ensures Alike(w1', w2', root)
  {
  }

  lemma LacksStays(w1: World, w2: World, w1': World, w2': World, root: Roots, up: set<Path>, p: Path)
    requires Lacks(w1, w2, root, up) && Only(w1, w1', p) && Only(w2, w2', p)
    ensures Lacks(w1', w2', root, up)
  {
  }

  // ---- the directories made on the way

  lemma LeftOutDirs(c: Config, w: World, v: World, root: Roots, d: Path)
    requires LeftOutIn(c, w, root) && Grown(w, v, d)
    ensures LeftOutIn(c, v, root)
  {
    forall q | q in root
      ensures LeftOutAt(c, v, root, q)
    {
      assert LeftOutAt(c, w, root, q);
    }
  }

  lemma ApartDirs(c: Config, w: World, v: World, root: Roots, d: Path)
    requires Apart(w, root) && LeftOutIn(c, w, root) && Grown(w, v, d)
    ensures Apart(v, root)
  {
    forall q | q in root
      ensures w.Has(q)
    {
      assert LeftOutAt(c, w, root, q);
    }
  }

  /** The way that is free in the whole tree is free in the filtered one. */
  lemma WayToo(c: Config, w1: World, w2: World, v1: World, listed: Listed, root: Roots, d: Path)
    requires Sim(c, w1, w2, listed, root) && Grown(w1, v1, d)
    ensures MakeDirs(w2, d).Some?
  {
    forall a | (a == d || Above(a, d)) && w2.Has(a)
      ensures w2.IsDir(a)
    {
      NewIsDir(v1, d, a);
      DirStays(c, w1, v1, root, d, a);
    }
    WayIsFree(w2, d);
  }

  /** What is a directory once more are made was no file left out. */
  lemma DirStays(c: Config, w: World, v: World, root: Roots, d: Path, a: Path)
    requires LeftOutIn(c, w, root) && Grown(w, v, d) && v.IsDir(a)
    ensures a !in root && (w.Has(a) ==> w.IsDir(a))
  {
    LeftOutDirs(c, w, v, root, d);
    LeftOutIsFile(c, v, root, a);
  }

  lemma NewIsDir(v: World, d: Path, q: Path)
    requires v.Valid() && v.IsDir(d) && (q == d || Above(q, d))
    ensures v.IsDir(q)
  {
    if q != d {
      AboveIsDir(v, q, d);
    }
  }

  lemma AgreeDirs(c: Config, w1: World, w2: World, v1: World, v2: World, root: Roots, d: Path)
    requires Agree(w1, w2, root) && LeftOutIn(c, w1, root) && Grown(w1, v1, d) && Grown(w2, v2, d)
    ensures Agree(v1, v2, root)
  {
    forall q | v2.Has(q)
      ensures q !in root ==> v1.Has(q) && v1.At(q) == v2.At(q)
      ensures q in root ==> !v2.IsDir(q)
    {
      if !w2.Has(q) {
        NewIsDir(v1, d, q);
        DirStays(c, w1, v1, root, d, q);
      }
    }
    SharedDirs(w1, w2, v1, v2, root, d);
  }

  lemma SharedDirs(w1: World, w2: World, v1: World, v2: World, root: Roots, d: Path)
    requires Within(w1, w2, root) && Alike(w1, w2, root) && Grown(w1, v1, d) && Grown(w2, v2, d) && Within(v1, v2, root)
    ensures Alike(v1, v2, root)
  {
    forall p, q | p !in root && q !in root && v2.Has(p) && v2.Has(q)
      ensures v1.names[p] == v1.names[q] <==> v2.names[p] == v2.names[q]
    {
      if v2.IsDir(p) {
        DirAlone(v1, p, q);
        DirAlone(v2, p, q);
      } else if v2.IsDir(q) {
        DirAlone(v1, q, p);
        DirAlone(v2, q, p);
      }
    }
  }

  lemma DirAlone(w: World, p: Path, q: Path)
    requires w.Valid() && w.IsDir(p) && w.Has(q)
    ensures w.names[p] == w.names[q] <==> p == q
  {
  }

  lemma LacksDirs(w1: World, w2: World, v1: World, v2: World, root: Roots, up: set<Path>, d: Path)
    requires Lacks(w1, w2, root, up) && Grown(w1, v1, d) && Grown(w2, v2, d)
    ensures Lacks(v1, v2, root, up)
  {
    forall p | p !in root && v1.Has(p) && !v2.Has(p)
      ensures v1.IsDir(p) && OnTheWay(p, up)
    {
      if !w1.Has(p) {
        NewIsDir(v2, d, p);
      }
    }
  }

  /** The directories on the way to a member, made in both trees. */
  lemma SimDirs(c: Config, w1: World, w2: World, listed: Listed, root: Roots, d: Path) returns (v1: World, v2: World)
    requires Sim(c, w1, w2, listed, root) && MakeDirs(w1, d).Some?
    ensures MakeDirs(w1, d) == Some(v1) && MakeDirs(w2, d) == Some(v2)
    ensures Grown(w1, v1, d) && Grown(w2, v2, d) && Sim(c, v1, v2, listed, root)
  {
    MakesDirs(w1, d);
    v1 := MakeDirs(w1, d).value;
    WayToo(c, w1, w2, v1, listed, root, d);
    MakesDirs(w2, d);
    v2 := MakeDirs(w2, d).value;
    LeftOutDirs(c, w1, v1, root, d);
    ApartDirs(c, w1, v1, root, d);
    AgreeDirs(c, w1, w2, v1, v2, root, d);
    LacksDirs(w1, w2, v1, v2, root, root.Keys, d);
  }

  /** The name of a member is not made on the way to it. */
  lemma StillFree(w: World, v: World, p: Path)
    requires p != [] && !w.IsDir(p) && Grown(w, v, Parent(p))
    ensures Free(v, p)
  {
    NotAboveItself(p, Parent(p));
  }

  /** A member that stays is unpacked alike in both. */
  lemma SimKeep(c: Config, w1: World, w2: World, listed: Listed, root: Roots, x: Entry)
    requires Sim(c, w1, w2, listed, root)
    requires x.info.name !in root && Judge(c, listed, x).Keep?
    requires IsLink(x) && x.info.Link() in root ==> root[x.info.Link()] == x.info.Link()
    requires Extract(w1, x).Some?
    ensures Extract(w2, x).Some? && Sim(c, Extract(w1, x).value, Extract(w2, x).value, listed, root)
  {
    var p := x.info.name;
    if x.info.typ == TYPE_DIR && w1.IsDir(p) {
      SimDirMember(c, w1, w2, listed, root, x);
    } else {
      var v1, v2 := SimDirs(c, w1, w2, listed, root, Parent(p));
      StillFree(w1, v1, p);
      StillFree(w2, v2, p);
      SimPut(c, v1, v2, listed, root, x);
    }
  }

  lemma DirByMember(w: World, x: Entry, v: World)
    requires w.Valid() && x.info.typ == TYPE_DIR && !w.IsDir(x.info.name) && MakeDirs(w, x.info.name) == Some(v)
    ensures Extract(w, x) == Some(v)
  {
  }

  /** A directory that is there in the whole tree: it is in the filtered one too, or is made now. */
  lemma SimDirMember(c: Config, w1: World, w2: World, listed: Listed, root: Roots, x: Entry)
    requires Sim(c, w1, w2, listed, root)
    requires x.info.typ == TYPE_DIR && w1.IsDir(x.info.name) && x.info.name !in root
    ensures Extract(w2, x).Some? && Sim(c, w1, Extract(w2, x).value, listed, root)
  {
    var p := x.info.name;
    if !w2.IsDir(p) {
      var v1, v2 := SimDirs(c, w1, w2, listed, root, p);
      DirByMember(w2, x, v2);
    }
  }

  /** A member put into both trees. */
  lemma SimPut(c: Config, w1: World, w2: World, listed: Listed, root: Roots, x: Entry)
    requires Sim(c, w1, w2, listed, root) && Free(w1, x.info.name) && Free(w2, x.info.name)
    requires x.info.name !in root && Judge(c, listed, x).Keep?
    requires IsLink(x) && x.info.Link() in root ==> root[x.info.Link()] == x.info.Link()
    requires Put(w1, x).Some?
    ensures Put(w2, x).Some? && Sim(c, Put(w1, x).value, Put(w2, x).value, listed, root)
  {
    var p := x.info.name;
    var w1', w2' := Put(w1, x).value, w2;
    if IsLink(x) {
      var t := x.info.Link();
      assert t !in root;
      BindFacts(w1, p, w1.names[t]);
      assert w2.Has(t);
      BindFacts(w2, p, w2.names[t]);
      w2' := w2.Bind(p, w2.names[t]);
    } else {
      CreateFacts(w1, p, NewNode(x));
      CreateFacts(w2, p, NewNode(x));
      w2' := w2.Create(p, NewNode(x));
    }
    LeftOutStays(c, w1, w1', root, p);
    ApartStays(w1, w1', root, p);
    AgreeStays(w1, w2, w1', w2', root, p);
    LacksStays(w1, w2, w1', w2', root, root.Keys, p);
  }

  lemma LeftOutGrows(c: Config, w: World, root: Roots, p: Path, r: Path)
    requires LeftOutIn(c, w, root) && p !in root
    requires LeftOutAt(c, w, root[p := r], p)
    ensures LeftOutIn(c, w, root[p := r])
  {
    var root' := root[p := r];
    forall q | q in root'
      ensures LeftOutAt(c, w, root', q)
    {
      if q != p { assert LeftOutAt(c, w, root, q); }
    }
  }

  lemma ApartGrows(w: World, w': World, root: Roots, p: Path, r: Path)
    requires Apart(w, root) && Only(w, w', p) && p !in root
    requires forall q :: q in root && w.Has(q) && w.names[q] == w'.names[p] ==> root[q] == r
    requires forall q :: q !in root && q != p && w.Has(q) ==> w.names[q] != w'.names[p]
    ensures Apart(w', root[p := r])
  {
  }

  lemma AgreeGrows(w1: World, w2: World, w1': World, root: Roots, p: Path, r: Path)
    requires Agree(w1, w2, root) && Only(w1, w1', p) && p !in root && !w2.IsDir(p)
    ensures Agree(w1', w2, root[p := r])
  {
  }

  lemma LacksGrows(w1: World, w2: World, w1': World, root: Roots, root': Roots, p: Path, r: Path)
    requires Lacks(w1, w2, root, root.Keys + {p}) && Only(w1, w1', p) && root' == root[p := r]
    ensures Lacks(w1', w2, root', root'.Keys)
  {
    assert root'.Keys == root.Keys + {p};
  }

  /** The directories on the way to a member left out, made in the whole tree only. */
  lemma AgreeBehind(w1: World, w2: World, v1: World, root: Roots, d: Path)
    requires Agree(w1, w2, root) && Grown(w1, v1, d)
    ensures Agree(v1, w2, root)
  {
  }

  lemma LacksBehind(w1: World, w2: World, v1: World, root: Roots, p: Path)
    requires p != [] && Lacks(w1, w2, root, root.Keys) && Grown(w1, v1, Parent(p))
    ensures Lacks(v1, w2, root, root.Keys + {p})
  {
    forall q | q !in root && v1.Has(q) && !w2.Has(q)
      ensures v1.IsDir(q) && OnTheWay(q, root.Keys + {p})
    {
      if w1.Has(q) {
        assert OnTheWay(q, root.Keys);
        var u :| u in root.Keys && Above(q, u);
        assert u in root.Keys + {p};
      } else {
        assert Above(q, p);
      }
    }
  }

  lemma FlagsNext(c: Config, listed: Listed, root: Roots, x: Entry)
    requires Flags(listed, root) && x.info.name !in root
    ensures Flags(Mark(c, listed, x), AddRoot(c, listed, root, x))
  {
  }

  /** A member left out is missing from the filtered tree, and from nothing else. */
  lemma SimDrop(c: Config, w1: World, w2: World, listed: Listed, root: Roots, x: Entry)
    requires Sim(c, w1, w2, listed, root)
    requires x.info.name !in root && !Judge(c, listed, x).Keep?
    requires Extract(w1, x).Some?
    ensures Sim(c, Extract(w1, x).value, w2, Mark(c, listed, x), AddRoot(c, listed, root, x))
  {
    var p := x.info.name;
    var v1 := DropDirs(c, w1, w2, listed, root, p);
    FlagsNext(c, listed, root, x);
    DropPut(c, v1, w2, listed, root, x, AddRoot(c, listed, root, x));
  }

  /** The directories on the way to a member left out. */
  lemma DropDirs(c: Config, w1: World, w2: World, listed: Listed, root: Roots, p: Path) returns (v1: World)
    requires Sim(c, w1, w2, listed, root) && p !in root && p != [] && !w1.IsDir(p) && MakeDirs(w1, Parent(p)).Some?
    ensures MakeDirs(w1, Parent(p)) == Some(v1) && v1.Valid() && LeftOutIn(c, v1, root) && Apart(v1, root)
    ensures Agree(v1, w2, root) && Lacks(v1, w2, root, root.Keys + {p}) && Free(v1, p) && !w2.IsDir(p)
  {
    MakesDirs(w1, Parent(p));
    v1 := MakeDirs(w1, Parent(p)).value;
    LeftOutDirs(c, w1, v1, root, Parent(p));
    ApartDirs(c, w1, v1, root, Parent(p));
    AgreeBehind(w1, w2, v1, root, Parent(p));
    LacksBehind(w1, w2, v1, root, p);
    StillFree(w1, v1, p);
  }

  /** The member itself, put into the whole tree only. */
  lemma DropPut(c: Config, w1: World, w2: World, listed: Listed, root: Roots, x: Entry, root': Roots)
    requires w1.Valid() && w2.Valid() && Flags(listed, root) && LeftOutIn(c, w1, root) && Apart(w1, root)
    requires Agree(w1, w2, root) && Lacks(w1, w2, root, root.Keys + {x.info.name})
    requires Free(w1, x.info.name) && !w2.IsDir(x.info.name) && x.info.name !in root
    requires !Judge(c, listed, x).Keep? && root' == AddRoot(c, listed, root, x) && Put(w1, x).Some?
    ensures var w1' := Put(w1, x).value;
            w1'.Valid() && LeftOutIn(c, w1', root') && Apart(w1', root') && Agree(w1', w2, root') && Lacks(w1', w2, root', root'.Keys)
  {
    var p, w1' := x.info.name, Put(w1, x).value;
    var r := if IsLink(x) then x.info.Link() else p;
    assert root' == root[p := r];
    if IsLink(x) {
      assert LeftOutAt(c, w1, root, r);
      BindFacts(w1, p, w1.names[r]);
    } else {
      CreateFacts(w1, p, NewNode(x));
    }
    LeftOutStays(c, w1, w1', root, p);
    assert LeftOutAt(c, w1', root[p := r], p);
    LeftOutGrows(c, w1', root, p, r);
    ApartGrows(w1, w1', root, p, r);
    AgreeGrows(w1, w2, w1', root, p, r);
    LacksGrows(w1, w2, w1', root, root', p, r);
  }

  /** `es` names nothing that was left out before it. */
  ghost predicate Unnamed(es: seq<Entry>, root: Roots) {
    forall i :: 0 <= i < |es| ==> es[i].info.name !in root
  }

  /** No member has the name of one that was left out before it. */
  ghost predicate Settled(c: Config, listed: Listed, root: Roots, es: seq<Entry>)
    decreases |es|
  {
    es == [] ||
    (es[0].info.name !in root && Settled(c, Mark(c, listed, es[0]), AddRoot(c, listed, root, es[0]), es[1..]))
  }

  /** So it is when no two members have one name. */
  lemma {:induction false} DistinctIsSettled(c: Config, listed: Listed, root: Roots, es: seq<Entry>)
    requires DistinctNames(es) && Unnamed(es, root)
    ensures Settled(c, listed, root, es)
    decreases |es|
  {
    if es != [] {
      NextNames(c, listed, root, es);
      DistinctIsSettled(c, Mark(c, listed, es[0]), AddRoot(c, listed, root, es[0]), es[1..]);
    }
  }

  /** No hard link names a hard link that was left out before it. */
  ghost predicate Unbroken(c: Config, listed: Listed, root: Roots, es: seq<Entry>)
    decreases |es|
  {
    es == [] ||
    (&& (IsLink(es[0]) && es[0].info.Link() in root ==> root[es[0].info.Link()] == es[0].info.Link())
     && Unbroken(c, Mark(c, listed, es[0]), AddRoot(c, listed, root, es[0]), es[1..]))
  }

  lemma NextNames(c: Config, listed: Listed, root: Roots, es: seq<Entry>)
    requires es != [] && DistinctNames(es) && Unnamed(es, root)
    ensures DistinctNames(es[1..]) && Unnamed(es[1..], AddRoot(c, listed, root, es[0]))
  {
  }

  /** Hard links that name no earlier hard link are never broken. */
  lemma {:induction false} DirectIsUnbroken(c: Config, listed: Listed, root: Roots, es: seq<Entry>)
    requires DirectLinks(es)
    requires forall i :: 0 <= i < |es| && IsLink(es[i]) && es[i].info.Link() in root ==>
               root[es[i].info.Link()] == es[i].info.Link()
    ensures Unbroken(c, listed, root, es)
    decreases |es|
  {
    if es != [] {
      DirectIsUnbroken(c, Mark(c, listed, es[0]), AddRoot(c, listed, root, es[0]), es[1..]);
    }
  }

  /** The whole simulation: the filtered archive unpacks, to the same tree but for the paths left out. */
  lemma {:induction false} SimAll(c: Config, w1: World, w2: World, listed: Listed, root: Roots, es: seq<Entry>)
    requires Sim(c, w1, w2, listed, root)
    requires Settled(c, listed, root, es) && Unbroken(c, listed, root, es)
    requires Untar(w1, es).Some?
    ensures Untar(w2, Kept(c, listed, es)).Some?
    ensures Sim(c, Untar(w1, es).value, Untar(w2, Kept(c, listed, es)).value,
                ListedAfter(c, listed, es), RootsOf(c, listed, root, es))
    decreases |es|
  {
    if es != [] {
      var x := es[0];
      var w1' := Extract(w1, x).value;
      if Judge(c, listed, x).Keep? {
        SimKeep(c, w1, w2, listed, root, x);
        SimAll(c, w1', Extract(w2, x).value, listed, root, es[1..]);
        assert Kept(c, listed, es)[1..] == Kept(c, listed, es[1..]);
      } else {
        SimDrop(c, w1, w2, listed, root, x);
        SimAll(c, w1', w2, Mark(c, listed, x), AddRoot(c, listed, root, x), es[1..]);
        assert Kept(c, listed, es) == Kept(c, Mark(c, listed, x), es[1..]);
      }
    }
  }

  /** NEW has nothing yet, or a directory, where the members of `es` go, and nothing that was left out. */
  ghost predicate Fresh(w: World, root: Roots, es: seq<Entry>) {
    && (forall p :: p in root ==> !w.Has(p))
    && (forall i :: 0 <= i < |es| ==> !w.Has(es[i].info.name) || w.IsDir(es[i].info.name))
  }

  lemma FreshAfterDrop(c: Config, w1: World, w2: World, listed: Listed, root: Roots, es: seq<Entry>)
    requires Sim(c, w1, w2, listed, root) && Fresh(w2, root, es) && es != [] && Unnamed(es, root)
    requires !Judge(c, listed, es[0]).Keep? && Extract(w1, es[0]).Some?
    ensures Fresh(w2, AddRoot(c, listed, root, es[0]), es[1..])
  {
    assert !w2.Has(es[0].info.name);
  }

  lemma FreshAfterKeep(c: Config, w1: World, w2: World, listed: Listed, root: Roots, es: seq<Entry>)
    requires Sim(c, w1, w2, listed, root) && Fresh(w2, root, es) && es != [] && Unnamed(es, root) && DistinctNames(es)
    requires Extract(w2, es[0]).Some?
    requires forall p :: p in root ==> !Extract(w2, es[0]).value.IsDir(p)
    ensures Fresh(Extract(w2, es[0]).value, root, es[1..])
  {
    var p := es[0].info.name;
    if !(es[0].info.typ == TYPE_DIR && w2.IsDir(p)) {
      MakesDirs(w2, Parent(p));
      var v := MakeDirs(w2, Parent(p)).value;
      StillFree(w2, v, p);
      PutOnly(v, es[0]);
    }
  }

  lemma PutOnly(w: World, x: Entry)
    requires w.Valid() && Free(w, x.info.name) && Put(w, x).Some?
    ensures Only(w, Put(w, x).value, x.info.name)
  {
    if IsLink(x) {
      BindFacts(w, x.info.name, w.names[x.info.Link()]);
    } else {
      CreateFacts(w, x.info.name, NewNode(x));
    }
  }

  /** A hard link to something left out that is not in the filtered tree. */
  lemma LostTarget(c: Config, w1: World, w2: World, listed: Listed, root: Roots, x: Entry)
    requires Sim(c, w1, w2, listed, root) && IsLink(x) && x.info.Link() in root && !w2.Has(x.info.Link())
    requires Extract(w1, x).Some? && x.info.name !in root && root[x.info.Link()] != x.info.Link()
    ensures Judge(c, listed, x).Keep? && Extract(w2, x).None?
  {
    var p, t := x.info.name, x.info.Link();
    var v1, v2 := SimDirs(c, w1, w2, listed, root, Parent(p));
    assert t in root ==> !v2.IsDir(t);
    assert !v2.Has(t);
    assert !w2.IsDir(p) by {
      assert !w1.IsDir(p);
    }
  }

  /** A hard link to a hard link that was left out cannot be unpacked from the filtered archive. */
  lemma {:induction false} BrokenIsRefused(c: Config, w1: World, w2: World, listed: Listed, root: Roots, es: seq<Entry>)
    requires Sim(c, w1, w2, listed, root) && Fresh(w2, root, es)
    requires DistinctNames(es) && Unnamed(es, root) && !Unbroken(c, listed, root, es)
    requires Untar(w1, es).Some?
    ensures Untar(w2, Kept(c, listed, es)).None?
    decreases |es|
  {
    var x := es[0];
    var w1' := Extract(w1, x).value;
    NextNames(c, listed, root, es);
    if IsLink(x) && x.info.Link() in root && root[x.info.Link()] != x.info.Link() {
      LostTarget(c, w1, w2, listed, root, x);
      assert Kept(c, listed, es)[0] == x;
    } else if Judge(c, listed, x).Keep? {
      SimKeep(c, w1, w2, listed, root, x);
      FreshAfterKeep(c, w1, w2, listed, root, es);
      BrokenIsRefused(c, w1', Extract(w2, x).value, listed, root, es[1..]);
      assert Kept(c, listed, es)[1..] == Kept(c, listed, es[1..]);
    } else {
      SimDrop(c, w1, w2, listed, root, x);
      FreshAfterDrop(c, w1, w2, listed, root, es);
      BrokenIsRefused(c, w1', w2, Mark(c, listed, x), AddRoot(c, listed, root, x), es[1..]);
      assert Kept(c, listed, es) == Kept(c, Mark(c, listed, x), es[1..]);
    }
  }
}
