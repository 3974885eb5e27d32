/** The delta unpack from end to end: the programs tarfilter and tarlink on bytes, tar in between. */
module DeltaRun {
  import opened Bytes
  import opened Paths
  import opened TarFormat
  import opened TarFilter
  import opened DeltaStream
  import opened DeltaWorld
  import opened DeltaTree
  import opened DeltaUnpack
  import opened TarLog
  import TarFilterRun

  // ---- the names of members are C strings

  lemma {:induction false} CStringClean(s: Bytes)
    ensures NUL !in CString(s)
  {
    if s != [] && s[0] != NUL {
      CStringClean(s[1..]);
    }
  }

  lemma {:induction false} FrontClean(p: Path)
    requires NUL !in p
    ensures NUL !in StripFront(p)
    decreases |p|
  {
    if |p| >= 2 && p[0] == DOT && p[1] == SLASH {
      FrontClean(p[2..]);
    } else if p != [] && p[0] == SLASH {
      FrontClean(p[1..]);
    }
  }

  lemma {:induction false} BackClean(p: Path)
    requires NUL !in p
    ensures NUL !in StripBack(p)
    decreases |p|
  {
    if p != [] && p[|p| - 1] == SLASH {
      BackClean(p[..|p| - 1]);
    }
  }

  predicate Clean(x: Entry) { NUL !in x.info.name && NUL !in x.info.Link() }

  lemma HeaderClean(hdr: Bytes, e: Ext)
    requires |hdr| == 512
    ensures NUL !in NameOf(hdr, e) && NUL !in Norm(TargetOf(hdr, e))
  {
    var raw := if e.paxPath.Some? then CString(e.paxPath.value)
               else if e.gnuName.Some? then CString(e.gnuName.value)
               else if hdr[257..263] == USTAR && hdr[345] != 0
               then CString(hdr[345..500]) + [SLASH] + CString(hdr[..100])
               else CString(hdr[..100]);
    assert NUL !in raw by {
      if e.paxPath.Some? { CStringClean(e.paxPath.value); }
      if e.gnuName.Some? { CStringClean(e.gnuName.value); }
      CStringClean(hdr[345..500]);
      CStringClean(hdr[..100]);
    }
    FrontClean(raw);
    BackClean(StripFront(raw));
    var target := TargetOf(hdr, e);
    assert NUL !in target by {
      if e.paxLink.Some? { CStringClean(e.paxLink.value); }
      if e.gnuLink.Some? { CStringClean(e.gnuLink.value); }
      CStringClean(hdr[157..257]);
    }
    FrontClean(target);
    BackClean(StripFront(target));
  }

  lemma {:induction false} DecodeClean(s: Bytes, e: Ext)
    requires Decode(s, e).Some?
    ensures forall i :: 0 <= i < |Decode(s, e).value| ==> Clean(Decode(s, e).value[i])
    decreases |s|
  {
    match Step(s, e) {
      case End =>
      case ExtHeader(len, e') =>
        DecodeClean(s[len..], e');
      case Global(len) =>
        DecodeClean(s[len..], e);
      case Member(len, info) =>
        HeaderClean(s[..512], e);
        DecodeClean(s[len..], NO_EXT);
    }
  }

  // ---- the log

  /** Every path left out is plain: it has no empty, "." or ".." part. */
  ghost predicate PlainNames(c: Config, es: seq<Entry>, list: Listed) {
    forall p :: p in RootsOf(c, list, map[], es) ==> Plain(p)
  }

  ghost predicate AllPlain(root: Roots) { forall p :: p in root ==> Plain(p) }

  ghost predicate AllWritable(log: seq<Line>) { forall i :: 0 <= i < |log| ==> Writable(log[i]) }

  lemma WritableJoin(a: seq<Line>, b: seq<Line>)
    ensures AllWritable(a + b) <==> AllWritable(a) && AllWritable(b)
  {
    var ab := a + b;
    assert forall i :: 0 <= i < |a| ==> a[i] == ab[i];
    if AllWritable(ab) {
      forall i | 0 <= i < |b|
        ensures Writable(b[i])
      {
        assert Writable(ab[|a| + i]);
      }
    }
  }

  /** The lines of one member are read back exactly when its name is plain. */
  lemma LinesWritable(c: Config, listed: Listed, root: Roots, x: Entry)
    requires Flags(listed, root) && AllPlain(root) && Clean(x)
    ensures AllWritable(LinesOf(Judge(c, listed, x), x.info)) <==> AllPlain(AddRoot(c, listed, root, x))
  {
    var lines, root' := LinesOf(Judge(c, listed, x), x.info), AddRoot(c, listed, root, x);
    if !Judge(c, listed, x).Keep? {
      assert x.info.name in root';
      assert Writable(lines[0]) <==> Plain(x.info.name);
    }
  }

  /** Every line of the log is one tarlink reads back exactly when every path left out is plain. */
  lemma {:induction false} LogWritable(c: Config, listed: Listed, root: Roots, es: seq<Entry>)
    requires Flags(listed, root) && AllPlain(root) && Settled(c, listed, root, es)
    requires forall i :: 0 <= i < |es| ==> Clean(es[i])
    ensures AllWritable(LogOf(c, listed, es)) <==> AllPlain(RootsOf(c, listed, root, es))
    decreases |es|
  {
    if es != [] {
      var x := es[0];
      var listed', root' := Mark(c, listed, x), AddRoot(c, listed, root, x);
      LinesWritable(c, listed, root, x);
      WritableJoin(LinesOf(Judge(c, listed, x), x.info), LogOf(c, listed', es[1..]));
      FlagsNext(c, listed, root, x);
      if AllPlain(root') {
        LogWritable(c, listed', root', es[1..]);
      } else {
        var p :| p in root' && !Plain(p);
        RootsGrow(c, listed', root', es[1..], p);
      }
    }
  }

  /** The paths of a list are plain, as `unescape` leaves them. */
  ghost predicate PlainKeys(listed: Listed) { forall p :: p in listed ==> Plain(p) }

  /** The names of hard links are plain paths. */
  ghost predicate PlainLinks(es: seq<Entry>) {
    forall i :: 0 <= i < |es| && IsLink(es[i]) ==> Plain(es[i].info.name)
  }

  /** A file that is left out always has a plain name, so only the names of hard links matter. */
  lemma {:induction false} LinksDecide(c: Config, listed: Listed, root: Roots, es: seq<Entry>)
    requires PlainKeys(listed) && PlainLinks(es) && AllPlain(root)
    ensures AllPlain(RootsOf(c, listed, root, es))
    decreases |es|
  {
    if es != [] {
      LinksDecide(c, Mark(c, listed, es[0]), AddRoot(c, listed, root, es[0]), es[1..]);
    }
  }

  /** Every T line follows its H line, and its target was left out by an earlier D line. */
  ghost predicate TargetsMade(listed: Listed, log: seq<Line>) {
    forall i :: 0 <= i < |log| && log[i].T? ==>
      && i > 0 && log[i - 1].H?
      && ((log[i].target in listed && listed[log[i].target]) || D(log[i].target) in log[..i])
  }

  lemma {:induction false} LogTargets(c: Config, listed: Listed, es: seq<Entry>)
    ensures TargetsMade(listed, LogOf(c, listed, es))
    decreases |es|
  {
    if es != [] {
      var lines, rest := LinesOf(Judge(c, listed, es[0]), es[0].info), LogOf(c, Mark(c, listed, es[0]), es[1..]);
      var log := lines + rest;
      LogTargets(c, Mark(c, listed, es[0]), es[1..]);
      forall i | 0 <= i < |log| && log[i].T?
        ensures i > 0 && log[i - 1].H?
        ensures (log[i].target in listed && listed[log[i].target]) || D(log[i].target) in log[..i]
      {
        if i >= |lines| {
          var j := i - |lines|;
          assert log[i] == rest[j];
          assert log[..i] == lines + rest[..j];
        }
      }
    }
  }

  // ---- the counts of the E line

  /** The KiB of all regular members. */
  function TotalKib(es: seq<Entry>): nat {
    if es == [] then 0 else (if IsRegular(es[0].info.typ) then Kib(es[0].info.size) else 0) + TotalKib(es[1..])
  }

  /** The E line's two numbers add up to `n`. */
  ghost predicate AddsUp(f: Filtered, n: nat) {
    && f.Filtered? && |f.log| > 0 && f.log[|f.log| - 1].E?
    && f.log[|f.log| - 1].leftOut + f.log[|f.log| - 1].written == n
  }

  lemma AddsUpBefore(bytes: Bytes, lines: seq<Line>, f: Filtered, n: nat)
    requires AddsUp(f, n)
    ensures AddsUp(Before(bytes, lines, f), n)
  {
  }

  lemma NextCount(c: Config, st: State, x: Entry, es: seq<Entry>)
    ensures var next := AfterMember(c, st, x);
            next.leftOut + next.written + TotalKib(es) == st.leftOut + st.written + TotalKib([x] + es)
  {
    assert ([x] + es)[1..] == es;
  }

  /** What was left out and what was written together are the archive. */
  lemma {:induction false} CountsAddUp(c: Config, s: Bytes, st: State, f: Filtered, es: seq<Entry>)
    requires f == FilterSpec(c, s, st) && f.Filtered? && Decode(s, st.ext) == Some(es)
    ensures AddsUp(f, st.leftOut + st.written + TotalKib(es))
    decreases |s|
  {
    match Step(s, st.ext) {
      case End =>
      case ExtHeader(len, e) =>
        CountsAddUp(c, s[len..], st.(pend := st.pend + s[..len], ext := e), f, es);
      case Global(len) =>
        var f' := FilterSpec(c, s[len..], st.(pend := []));
        CountsAddUp(c, s[len..], st.(pend := []), f', es);
        AddsUpBefore(st.pend + s[..len], [], f', st.leftOut + st.written + TotalKib(es));
      case Member(len, info) =>
        var x := EntryAt(s, st.ext);
        var next, es' := AfterMember(c, st, x), Decode(s[len..], NO_EXT).value;
        var f' := FilterSpec(c, s[len..], next);
        CountsAddUp(c, s[len..], next, f', es');
        NextCount(c, st, x, es');
        AddsUpBefore(MemberOut(c, st, x, s[..len]), LinesOf(Judge(c, st.listed, x), info), f',
                     next.leftOut + next.written + TotalKib(es'));
    }
  }

  // ---- end to end

  /** The programs as they run: tarfilter over the stream, tar over what it writes, tarlink over its log's text. They finish
      if and only if every path left out has its directory and is plain. */
  lemma DeltaUnpackEndToEnd(c: Config, can: Linkable, w0: World, inp: Bytes, es: seq<Entry>, list: Listed)
    returns (root: Roots, w1: World, f: Filtered, r: Option<World>)
    requires Suitable(c, w0, inp, es, list) && Unbroken(c, list, map[], es)
    ensures Untar(w0, es) == Some(w1)
    ensures f == Filter(c, inp, list) && f.Filtered? && Decode(f.out, NO_EXT).Some?
    ensures Untar(w0, Decode(f.out, NO_EXT).value).Some?
    ensures r == LinkText(c, can, Untar(w0, Decode(f.out, NO_EXT).value).value, None, false, LogText(f.log))
    ensures r.Some? <==> Housed(c, w0, es, list) && PlainNames(c, es, list)
    ensures root == RootsOf(c, list, map[], es)
    ensures r.Some? ==> SameTree(c, root, w1, r.value) && (Separate(c, w0) ==> NoMoreSharing(c, can, root, w1, r.value))
  {
    var w2;
    root, w1, f, w2, r := DeltaUnpackIsUntar(c, can, w0, inp, es, list);
    FilterReads(c, inp, list, es);
    var end := ReadsParts(c, list, es, f);
    DecodeClean(inp, NO_EXT);
    LogWritable(c, list, map[], es);
    LogClean(c, list, es);
    LogReadable(c, can, w2, LogOf(c, list, es), end);
    r := LinkText(c, can, w2, None, false, LogText(f.log));
  }

  lemma LogReadable(c: Config, can: Linkable, w: World, lines: seq<Line>, end: Line)
    requires end.E? && forall i :: 0 <= i < |lines| ==> CleanLine(lines[i])
    ensures LinkText(c, can, w, None, false, LogText(lines + [end])) ==
            if AllWritable(lines) then TarLink(c, can, w, None, lines + [end]) else None
  {
    WritableJoin(lines, [end]);
    assert (lines + [end])[|lines|].E?;
    if AllWritable(lines) {
      LinkTextOf(c, can, w, None, false, lines + [end]);
    } else {
      LinkTextStops(c, can, w, None, false, lines + [end]);
    }
  }

  lemma {:induction false} LogClean(c: Config, listed: Listed, es: seq<Entry>)
    requires forall i :: 0 <= i < |es| ==> Clean(es[i])
    ensures forall i :: 0 <= i < |LogOf(c, listed, es)| ==> CleanLine(LogOf(c, listed, es)[i])
    decreases |es|
  {
    if es != [] {
      LogClean(c, Mark(c, listed, es[0]), es[1..]);
    }
  }

  /** A file, and a hard link to it whose name has a "." part. */
  ghost predicate DottedLink(es: seq<Entry>, meta: Meta) {
    es == [Entry(Info(48, [120], [], 0, false), meta, []),
           Entry(Info(TYPE_LINK, [97, SLASH, DOT, SLASH, 98], [120], 0, false), meta, [])]
  }

  lemma DottedParents()
    ensures Parent([97, SLASH, DOT, SLASH, 98]) == [97, SLASH, DOT] && Parent([97, SLASH, DOT]) == [97] && Parent([97]) == []
    ensures !Plain([97, SLASH, DOT, SLASH, 98])
  {
    var p: Path := [97, SLASH, DOT, SLASH, 98];
    assert LastSlash(p) == LastSlash(p[..4]) == 3 && p[..3] == [97, SLASH, DOT];
    var q: Path := [97, SLASH, DOT];
    assert LastSlash(q) == LastSlash(q[..2]) == 1 && q[..1] == [97];
    assert LastSlash([97]) == 0;
    assert FirstPart(p) == [97] + FirstPart(p[1..]) == [97];
    assert p[2..] == [DOT, SLASH, 98] && FirstPart(p[2..]) == [DOT] + FirstPart(p[2..][1..]) == [DOT];
  }

  /** Such an archive unpacks; filtered against an OLD that has the file, it leaves a log that tarlink refuses, whatever was
      unpacked. */
  lemma DottedLinkIsLost(c: Config, can: Linkable, w0: World, meta: Meta, es: seq<Entry>, list: Listed, end: Line, w: World)
    requires !c.every && c.have == map[[120] := OldFile([], true, 1, meta)] && list == map[[120] := false] && end.E?
    requires w0 == World([Dir, File([], meta)], map[[] := 0]) && DottedLink(es, meta)
    ensures Untar(w0, es).Some? && Kept(c, list, es) == []
    ensures LinkText(c, can, w, None, false, LogText(LogOf(c, list, es) + [end])).None?
  {
    var x, p: Path := [120], [97, SLASH, DOT, SLASH, 98];
    OneLetter(120);
    DottedParents();
    DottedUnpacks(w0, meta, es);
    var listed := list[x := true];
    assert Judge(c, list, es[0]).DropFile? && Judge(c, listed, es[1]).DropLink?;
    assert es[1..] == [es[1]] && es[1..][1..] == [];
    assert LogOf(c, listed, es[1..]) == [H(p), T(x)] + LogOf(c, listed, []);
    assert LogOf(c, list, es) == [D(x)] + [H(p), T(x)];
    assert Kept(c, listed, es[1..]) == [];
    assert !Writable(LogOf(c, list, es)[1]);
    LogReadable(c, can, w, LogOf(c, list, es), end);
  }

  lemma DottedUnpacks(w0: World, meta: Meta, es: seq<Entry>)
    requires w0 == World([Dir, File([], meta)], map[[] := 0]) && DottedLink(es, meta)
    ensures Untar(w0, es).Some?
  {
    OneLetter(120);
    DottedParents();
    var w := Extract(w0, es[0]).value;
    var a := w.Create([97], Dir);
    assert MakeDirs(w, [97]) == Some(a);
    assert MakeDirs(w, [97, SLASH, DOT]) == Some(a.Create([97, SLASH, DOT], Dir));
    assert Extract(w, es[1]).Some?;
    assert es[1..] == [es[1]] && es[1..][1..] == [];
    assert Untar(w, es[1..]).Some?;
  }

  /** What the three commands come to. `r` is None where one of them fails. */
  ghost predicate Outcome(c: Config, can: Linkable, w0: World, es: seq<Entry>, list: Listed, r: Option<World>) {
    && (Unbroken(c, list, map[], es) ==> (r.Some? <==> Housed(c, w0, es, list) && PlainNames(c, es, list)))
    && (Fresh(w0, map[], es) && DistinctNames(es) ==>
          (r.Some? <==> Unbroken(c, list, map[], es) && Housed(c, w0, es, list) && PlainNames(c, es, list)))
    && (Unbroken(c, list, map[], es) && r.Some? ==>
          && Untar(w0, es).Some? && SameTree(c, RootsOf(c, list, map[], es), Untar(w0, es).value, r.value)
          && (Separate(c, w0) ==> NoMoreSharing(c, can, RootsOf(c, list, map[], es), Untar(w0, es).value, r.value)))
  }

  lemma UnbrokenOutcome(c: Config, can: Linkable, w0: World, inp: Bytes, es: seq<Entry>, list: Listed, f: Filtered, w2: World, r: Option<World>)
    requires Suitable(c, w0, inp, es, list) && Unbroken(c, list, map[], es)
    requires f == Filter(c, inp, list) && f.Filtered? && Decode(f.out, NO_EXT).Some?
    requires Untar(w0, Decode(f.out, NO_EXT).value) == Some(w2) && r == LinkText(c, can, w2, None, false, LogText(f.log))
    ensures Outcome(c, can, w0, es, list, r)
  {
    var root, w1, f', r' := DeltaUnpackEndToEnd(c, can, w0, inp, es, list);
  }

  lemma BrokenOutcome(c: Config, can: Linkable, w0: World, inp: Bytes, es: seq<Entry>, list: Listed, f: Filtered, r: Option<World>)
    requires Suitable(c, w0, inp, es, list) && !Unbroken(c, list, map[], es) && Reads(c, list, es, f)
    requires Untar(w0, Decode(f.out, NO_EXT).value).None? ==> r.None?
    ensures Outcome(c, can, w0, es, list, r)
  {
    if Fresh(w0, map[], es) && DistinctNames(es) {
      UnpacksExactlyWhenUnbroken(c, w0, es, list);
    }
  }

  /** The three commands run one after the other. */
  method DeltaUnpackProgram(c: Config, can: Linkable, w0: World, inp: Bytes, ghost es: seq<Entry>, list: Listed)
    returns (r: Option<World>)
    requires Suitable(c, w0, inp, es, list)
    ensures Outcome(c, can, w0, es, list, r)
  {
    FilterReads(c, inp, list, es);
    var f := TarFilterRun.Run(c, inp, list);
    var unpacked := Untar(w0, Decode(f.out, NO_EXT).value);
    r := None;
    if unpacked.Some? {
      r := RunTarLink(c, can, unpacked.value, LogText(f.log));
    }
    if Unbroken(c, list, map[], es) {
      ghost var root, w1, f', r' := DeltaUnpackEndToEnd(c, can, w0, inp, es, list);
      UnbrokenOutcome(c, can, w0, inp, es, list, f, unpacked.value, r);
    } else {
      BrokenOutcome(c, can, w0, inp, es, list, f, r);
    }
  }
}
