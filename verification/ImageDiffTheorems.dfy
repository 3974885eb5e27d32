/** `make` and `check` agree. */
module ImageDiffTheorems {
  import opened Bytes
  import opened Paths
  import opened Text
  import opened Manifest
  import ManifestRun
  import opened ImageEntries
  import opened ImageDiff
  import opened ImageDiffProof

  /** The manifest the image carries is the one of its own files. */
  ghost predicate Own(hash: Hash, ms: seq<Member>, n: Info) {
    Digests(hash) && DistinctPaths(ms) && Entries(hash, ms).Some? && Entries(hash, ms).value.out == n.lines && Keyed(n.lines)
  }

  // ---- the manifest goes along

  predicate HasSelf(ms: seq<Member>) { exists i :: 0 <= i < |ms| && ms[i].path == SELF }

  lemma HasSelfNext(ms: seq<Member>, m: Member)
    ensures HasSelf(ms + [m]) <==> HasSelf(ms) || m.path == SELF
  {
    assert (ms + [m])[|ms|] == m;
    assert forall i :: 0 <= i < |ms| ==> (ms + [m])[i] == ms[i];
  }

  lemma HasSelfCons(ms: seq<Member>)
    requires ms != []
    ensures HasSelf(ms) <==> ms[0].path == SELF || HasSelf(ms[1..])
  {
    assert forall i :: 0 <= i < |ms| - 1 ==> ms[1..][i] == ms[i + 1];
    assert forall i :: 0 < i < |ms| ==> ms[i] == ms[1..][i - 1];
  }

  function CarriedBy(c: Tools, m: Member): Option<Bytes> {
    if m.path == SELF && m.kind.Regular? then c.gunzip(m.data) else None
  }

  lemma {:induction false} CarriedNext(c: Tools, ms: seq<Member>, m: Member)
    ensures Carried(c, ms + [m]) == if HasSelf(ms) then Carried(c, ms) else CarriedBy(c, m)
    decreases |ms|
  {
    var all := ms + [m];
    if ms == [] {
      assert all == [m] && all[1..] == [];
    } else {
      CarriedNext(c, ms[1..], m);
      HasSelfCons(ms);
      assert all[1..] == ms[1..] + [m];
    }
  }

  lemma {:induction false} NoneCarried(c: Tools, ms: seq<Member>)
    requires !HasSelf(ms)
    ensures Carried(c, ms) == None
    decreases |ms|
  {
    if ms != [] {
      HasSelfCons(ms);
      NoneCarried(c, ms[1..]);
    }
  }

  lemma {:induction false} CarriedAlong(c: Tools, ms: seq<Member>, head: Member, skip: set<Bytes>)
    requires head.path != SELF && forall i :: 0 <= i < |ms| && ms[i].path == SELF ==> Name(ms[i]) !in skip
    ensures HasSelf([head] + Without(ms, skip)) <==> HasSelf(ms)
    ensures Carried(c, [head] + Without(ms, skip)) == Carried(c, ms)
    decreases |ms|
  {
    var diff := [head] + Without(ms, skip);
    if ms == [] {
      assert diff == [head] && diff[1..] == [];
    } else {
      var k := |ms| - 1;
      var m, before := ms[k], [head] + Without(ms[..k], skip);
      CarriedAlong(c, ms[..k], head, skip);
      assert ms == ms[..k] + [m];
      if Name(m) in skip {
        assert diff == before;
      } else {
        assert diff == before + [m];
      }
      SameCarried(c, ms[..k], before, m, Name(m) in skip, diff);
    }
  }

  lemma SameCarried(c: Tools, ms: seq<Member>, before: seq<Member>, m: Member, gone: bool, diff: seq<Member>)
    requires HasSelf(before) <==> HasSelf(ms)
    requires Carried(c, before) == Carried(c, ms) && (gone ==> m.path != SELF)
    requires diff == if gone then before else before + [m]
    ensures HasSelf(diff) <==> HasSelf(ms + [m])
    ensures Carried(c, diff) == Carried(c, ms + [m])
  {
    CarriedNext(c, ms, m);
    HasSelfNext(ms, m);
    if gone {
      if !HasSelf(ms) {
        NoneCarried(c, ms);
      }
    } else {
      CarriedNext(c, before, m);
      HasSelfNext(before, m);
    }
  }

  // ---- the head reads back

  lemma HeadLineClean(image: Bytes, base: Bytes, tag: Bytes)
    requires Clean(image) && Clean(base) && Clean(tag)
    ensures NEWLINE !in HeadLine(image, base, tag)
  {
    var parts := [DIFF, ONE, image, base, tag];
    assert NEWLINE !in parts[0] && NEWLINE !in parts[1] && NEWLINE !in parts[2] && NEWLINE !in parts[3] && NEWLINE !in parts[4];
    JoinClean(parts, SPACE, NEWLINE);
  }

  lemma PathNonEmpty(line: Bytes)
    requires HasPath(line)
    ensures line != []
  {
    assert line == [] ==> !Cut(line, SPACE).found;
  }

  lemma HeadBack(head: Bytes, left: seq<Bytes>, text: Bytes)
    requires NEWLINE !in head && forall i :: 0 <= i < |left| ==> left[i] != [] && NEWLINE !in left[i]
    requires text == Join([head] + left + [[]], NEWLINE)
    ensures Split(text, NEWLINE)[0] == head && NonEmpty(Split(text, NEWLINE)[1..]) == left
  {
    LinesSplit(head, left, text);
    assert ([head] + (left + [[]]))[1..] == left + [[]];
    NonEmptyAll(left);
  }

  lemma LinesSplit(head: Bytes, lines: seq<Bytes>, text: Bytes)
    requires NEWLINE !in head && (forall i :: 0 <= i < |lines| ==> NEWLINE !in lines[i]) && text == Join([head] + lines + [[]], NEWLINE)
    ensures Split(text, NEWLINE) == [head] + (lines + [[]])
  {
    var ls := [head] + lines + [[]];
    CleanParts(head, lines, ls);
    SplitJoin(ls, NEWLINE);
    assert ls == [head] + (lines + [[]]);
  }

  lemma CleanParts(head: Bytes, left: seq<Bytes>, ls: seq<Bytes>)
    requires NEWLINE !in head && (forall i :: 0 <= i < |left| ==> NEWLINE !in left[i]) && ls == [head] + left + [[]]
    ensures forall i :: 0 <= i < |ls| ==> NEWLINE !in ls[i]
  {
  }

  // ---- the diff of an image whose manifest is its own

  /** The image has no member of the head's name, or only one that is left out. */
  predicate HeadFree(ms: seq<Member>, b: Info, n: Info) {
    FreeAt(ms, n.lines, b.lines, Linked(ms), HEAD)
  }

  predicate FreeAt(ms: seq<Member>, lines: map<Bytes, Bytes>, base: map<Bytes, Bytes>, linked: set<Bytes>, head: Path) {
    forall i :: 0 <= i < |ms| && ms[i].path == head ==> Goes(ms[i], lines, base, linked)
  }

  lemma PathsAre(left: seq<Bytes>, p: Bytes)
    requires forall i :: 0 <= i < |left| ==> HasPath(left[i])
    ensures p in PathsOf(left) <==> HasLine(left, p)
  {
  }

  lemma SkipsAre(ms: seq<Member>, b: Info, n: Info, left: seq<Bytes>)
    requires Keyed(n.lines) && LeftOut(ms, n.lines, b.lines, Linked(ms)) == Some(left)
    requires forall i :: 0 <= i < |left| ==> HasPath(left[i])
    ensures Skippable(PathsOf(left), Linked(ms))
  {
    forall p | p in PathsOf(left)
      ensures p !in Linked(ms) && p != SELF && p != []
    {
      PathsAre(left, p);
      LeftPaths(ms, n.lines, b.lines, Linked(ms), left, p);
    }
  }

  lemma LeftFits(hash: Hash, ms: seq<Member>, b: Info, n: Info, left: seq<Bytes>, i: nat)
    requires Own(hash, ms, n) && LeftOut(ms, n.lines, b.lines, Linked(ms)) == Some(left) && i < |left|
    ensures Fit(left[i], n.lines, b.lines, Linked(ms))
  {
    var j := LeftFrom(ms, n.lines, b.lines, Linked(ms), left, i);
    var m := ms[j];
    assert !Passed(m) by {
      SelfName();
    }
    EntryOf(hash, ms, j);
    LineSays(m, Sum(|m.data|, hash(m.data)));
  }

  lemma SelfName()
    ensures Escape(SELF) == SELF
  {
    SelfIs(SELF);
  }

  lemma SelfIs(p: Path)
    requires p == SELF
    ensures Escape(p) == p
  {
    assert BACKSLASH !in p && NEWLINE !in p;
    EscapeSame(p);
  }

  /** What the diff and the lines put back come to. */
  lemma Restored(hash: Hash, ms: seq<Member>, b: Info, n: Info, left: seq<Bytes>, got: map<Bytes, Bytes>)
    requires Own(hash, ms, n) && LeftOut(ms, n.lines, b.lines, Linked(ms)) == Some(left)
    requires forall p :: p in got <==> p != HEAD && p in n.lines && !HasLine(left, p)
    requires forall p :: p in got ==> got[p] == n.lines[p]
    ensures AllFit(got, left, n.lines, b.lines, Linked(ms))
    ensures AddAll(got, left) == n.lines <==> (HEAD in n.lines ==> HasLine(left, HEAD))
  {
    forall i | 0 <= i < |left|
      ensures Fit(left[i], n.lines, b.lines, Linked(ms)) && PathOf(left[i]) !in got
    {
      LeftFits(hash, ms, b, n, left, i);
      assert HasLine(left, PathOf(left[i]));
    }
    LeftDistinct(ms, n.lines, b.lines, Linked(ms), left);
    RestoredIs(n.lines, left, got);
  }

  lemma RestoredIs(lines: map<Bytes, Bytes>, left: seq<Bytes>, got: map<Bytes, Bytes>)
    requires forall i :: 0 <= i < |left| ==> HasPath(left[i]) && Get(lines, PathOf(left[i])) == Some(left[i])
    requires forall p :: p in got <==> p != HEAD && p in lines && !HasLine(left, p)
    requires forall p :: p in got ==> got[p] == lines[p]
    ensures AddAll(got, left) == lines <==> (HEAD in lines ==> HasLine(left, HEAD))
  {
    var r := AddAll(got, left);
    forall p
      ensures Agrees(r, lines, left, p)
    {
      AddAllHas(got, left, lines, p);
    }
    Agreed(r, lines, left);
  }

  predicate Agrees(r: map<Bytes, Bytes>, lines: map<Bytes, Bytes>, left: seq<Bytes>, p: Bytes) {
    && (p in r <==> p in lines && (p == HEAD ==> HasLine(left, HEAD)))
    && (p in r ==> r[p] == lines[p])
  }

  lemma Agreed(r: map<Bytes, Bytes>, lines: map<Bytes, Bytes>, left: seq<Bytes>)
    requires forall p :: Agrees(r, lines, left, p)
    ensures r == lines <==> (HEAD in lines ==> HasLine(left, HEAD))
  {
    assert Agrees(r, lines, left, HEAD);
    if HEAD in lines ==> HasLine(left, HEAD) {
      forall p
        ensures (p in r <==> p in lines) && (p in r ==> r[p] == lines[p])
      {
        assert Agrees(r, lines, left, p);
      }
      assert r == lines;
    }
  }

  lemma HeadFreeIs(hash: Hash, ms: seq<Member>, b: Info, n: Info, left: seq<Bytes>)
    requires Own(hash, ms, n) && LeftOut(ms, n.lines, b.lines, Linked(ms)) == Some(left)
    ensures HeadFree(ms, b, n) <==> (HEAD in n.lines ==> HasLine(left, HEAD))
  {
    EntriesHave(hash, ms, HEAD);
    LeftPaths(ms, n.lines, b.lines, Linked(ms), left, HEAD);
    HeadPlain(HEAD);
    FreeAtIs(ms, n.lines, b.lines, Linked(ms), HEAD);
  }

  lemma FreeAtIs(ms: seq<Member>, lines: map<Bytes, Bytes>, base: map<Bytes, Bytes>, linked: set<Bytes>, head: Path)
    requires Escape(head) == head && head != [] && head != SELF && DistinctPaths(ms)
    ensures FreeAt(ms, lines, base, linked, head) <==> (Present(ms, head) ==> SomeGoes(ms, lines, base, linked, head))
  {
    forall i | 0 <= i < |ms|
      ensures Name(ms[i]) == head <==> ms[i].path == head
    {
      NamesHead(ms[i], head);
    }
    if FreeAt(ms, lines, base, linked, head) && Present(ms, head) {
      var i :| 0 <= i < |ms| && !Passed(ms[i]) && Name(ms[i]) == head;
      assert Goes(ms[i], lines, base, linked);
    }
    if SomeGoes(ms, lines, base, linked, head) {
      var j :| 0 <= j < |ms| && Goes(ms[j], lines, base, linked) && Name(ms[j]) == head;
      forall i | 0 <= i < |ms| && ms[i].path == head
        ensures Goes(ms[i], lines, base, linked)
      {
        assert i == j;
      }
    }
  }

  lemma NamesHead(m: Member, head: Path)
    requires Escape(head) == head
    ensures Name(m) == head <==> m.path == head
  {
    if Name(m) == head {
      EscapeTells(m.path, head);
    }
  }

  /** `make` on an image whose manifest is its own: `check` accepts the diff exactly when the image has no member of the
      head's name that stays in. */
  lemma MakePassesCheck(c: Tools, b: Info, n: Info, ms: seq<Member>, diff: seq<Member>)
    requires Own(c.hash, ms, n) && Clean(n.image) && Clean(b.tag) && Clean(n.tag) && DiffOf(b, n, ms) == Some(diff)
    ensures CheckWith(c, b, n, ms, diff) <==> HeadFree(ms, b, n)
  {
    var left := LeftOut(ms, n.lines, b.lines, Linked(ms)).value;
    LeftOutKeyed(ms, n.lines, b.lines, Linked(ms));
    var text := HeadText(n.image, b.tag, n.tag, left);
    var skip, head := PathsOf(left), HeadMember(text);
    SkipsAre(ms, b, n, left);
    DiffHolds(c, ms, left, head, n, diff);
    var got := Held(c, diff).value;
    Restored(c.hash, ms, b, n, left, got);
    PutBackIs(got, left, n.lines, b.lines, Linked(ms));
    HeadFreeIs(c.hash, ms, b, n, left);
    HeadLineClean(n.image, b.tag, n.tag);
    LinesNonEmpty(left);
    HeadBack(HeadLine(n.image, b.tag, n.tag), left, text);
    SelfStays(ms, skip);
    HeadPlain(HEAD);
    CarriedAlong(c, ms, head, skip);
  }

  lemma LinesNonEmpty(left: seq<Bytes>)
    requires forall i :: 0 <= i < |left| ==> GoodLine(left[i])
    ensures forall i :: 0 <= i < |left| ==> left[i] != [] && NEWLINE !in left[i]
  {
    forall i | 0 <= i < |left|
      ensures left[i] != []
    {
      PathNonEmpty(left[i]);
    }
  }

  lemma SelfStays(ms: seq<Member>, skip: set<Bytes>)
    requires SELF !in skip
    ensures forall i :: 0 <= i < |ms| && ms[i].path == SELF ==> Name(ms[i]) !in skip
  {
    SelfName();
  }

  /** The entries of the diff, without its head: those of the image without the files left out. */
  lemma DiffHolds(c: Tools, ms: seq<Member>, left: seq<Bytes>, head: Member, n: Info, diff: seq<Member>)
    requires Own(c.hash, ms, n) && head.path == HEAD && head.kind.Regular?
    requires forall i :: 0 <= i < |left| ==> HasPath(left[i])
    requires Skippable(PathsOf(left), Linked(ms)) && diff == [head] + Without(ms, PathsOf(left))
    ensures Held(c, diff).Some?
    ensures forall p :: p in Held(c, diff).value <==> p != HEAD && p in n.lines && !HasLine(left, p)
    ensures forall p :: p in Held(c, diff).value ==> Held(c, diff).value[p] == n.lines[p]
  {
    DiffScan(c.hash, ms, head, PathsOf(left), Linked(ms));
    forall p
      ensures p in PathsOf(left) <==> HasLine(left, p)
    {
      PathsAre(left, p);
    }
  }

  /** The same from the texts on: `make` succeeded, so `check` of its diff passes exactly when the head's name is free. */
  lemma MakeThenCheck(c: Tools, base: Bytes, ms: seq<Member>, diff: seq<Member>)
    requires Make(c, base, ms) == Some(diff) && Own(c.hash, ms, CarriedInfo(c, ms).value)
    ensures Check(c, base, ms, diff) <==> HeadFree(ms, ReadManifest(base).value, CarriedInfo(c, ms).value)
  {
    ReadKeyed(base);
    ReadKeyed(Carried(c, ms).value);
    MakePassesCheck(c, ReadManifest(base).value, CarriedInfo(c, ms).value, ms, diff);
  }

  /** A hard link and the file it names stay in every diff. */
  lemma LinksStay(b: Info, n: Info, ms: seq<Member>, left: seq<Bytes>, i: nat)
    requires Keyed(n.lines) && LeftOut(ms, n.lines, b.lines, Linked(ms)) == Some(left)
    requires i < |ms| && ms[i].kind.HardLink?
    ensures !HasLine(left, Name(ms[i])) && !HasLine(left, Escape(ms[i].kind.target))
  {
    LinkedOf(ms, i);
    LeftPaths(ms, n.lines, b.lines, Linked(ms), left, Name(ms[i]));
    LeftPaths(ms, n.lines, b.lines, Linked(ms), left, Escape(ms[i].kind.target));
  }

  /** An accepted diff: every line of the new manifest is that of an entry of the diff or of a file of the base that is left
      out, not of both; there is nothing else in it; and no hard link or file it names is left out. */
  lemma CheckSound(c: Tools, b: Info, n: Info, ms: seq<Member>, diff: seq<Member>, left: seq<Bytes>, p: Bytes)
    requires CheckWith(c, b, n, ms, diff) && left == NonEmpty(Split(diff[0].data, NEWLINE)[1..])
    ensures var held := Held(c, diff).value;
            && (p in n.lines <==> p in held || HasLine(left, p))
            && !(p in held && HasLine(left, p))
            && (p in held ==> held[p] == n.lines[p])
            && (HasLine(left, p) ==> Get(b.lines, p) == Get(n.lines, p) && p !in Linked(ms))
  {
    var held := Held(c, diff).value;
    PutBackIs(held, left, n.lines, b.lines, Linked(ms));
    AddAllHas(held, left, n.lines, p);
  }

  // ---- an image with a file of the head's name

  lemma ReadOne(line: Bytes)
    requires GoodLine(line)
    ensures ReadLines([line, []]) == Some(map[PathOf(line) := line])
  {
    PathNonEmpty(line);
    var ls: seq<Bytes> := [line, []];
    assert ls[..1] == [line] && [line][..0] == [];
    assert ReadLines([line][..0]) == Some(map[]);
    assert ReadLines([line]) == Some(map[PathOf(line) := line]);
  }

  lemma ReadNone()
    ensures ReadLines([[]]) == Some(map[])
  {
    var ls: seq<Bytes> := [[]];
    assert ls[..0] == [];
    assert ReadLines(ls[..0]) == Some(map[]);
  }

  /** A manifest's text is read as its head and the lines that follow. */
  lemma ReadText(image: Bytes, tag: Bytes, lines: seq<Bytes>, m: map<Bytes, Bytes>)
    requires Clean(image) && Clean(tag) && (forall i :: 0 <= i < |lines| ==> NEWLINE !in lines[i])
    requires ReadLines(lines + [[]]) == Some(m)
    ensures ReadManifest(TextOf(image, tag, lines)) == Some(Info(image, tag, m))
  {
    TextLines(image, tag, lines);
    ManifestRun.HeaderBack(image, tag);
    ReadSplit(TextOf(image, tag, lines), Header(image, tag), lines + [[]], image, tag, m);
  }

  lemma TextLines(image: Bytes, tag: Bytes, lines: seq<Bytes>)
    requires Clean(image) && Clean(tag) && (forall i :: 0 <= i < |lines| ==> NEWLINE !in lines[i])
    ensures Split(TextOf(image, tag, lines), NEWLINE) == [Header(image, tag)] + (lines + [[]])
  {
    ManifestRun.HeaderBack(image, tag);
    LinesSplit(Header(image, tag), lines, TextOf(image, tag, lines));
  }

  lemma ReadSplit(text: Bytes, h: Bytes, rest: seq<Bytes>, image: Bytes, tag: Bytes, m: map<Bytes, Bytes>)
    requires Split(text, NEWLINE) == [h] + rest && Split(h, SPACE) == [MAGIC, ONE, image, tag] && ReadLines(rest) == Some(m)
    ensures ReadManifest(text) == Some(Info(image, tag, m))
  {
    assert ([h] + rest)[1..] == rest;
    assert [MAGIC, ONE, image, tag][..2] == [MAGIC, ONE];
  }

  /** An image of a file with the head's name and its own manifest. */
  ghost predicate HeadImage(c: Tools, m: Member, self: Member, image: Bytes, tag: Bytes) {
    && m.path == HEAD && m.kind.Regular? && self.path == SELF && self.kind.Regular?
    && c.gunzip(self.data) == Some(TextOf(image, tag, [LineText(m, Sum(|m.data|, c.hash(m.data)))]))
  }

  lemma HeadImageOwn(c: Tools, m: Member, self: Member, image: Bytes, tag: Bytes, n: Info)
    requires Digests(c.hash) && Clean(image) && Clean(tag) && HeadImage(c, m, self, image, tag)
    requires n == Info(image, tag, map[Name(m) := LineText(m, Sum(|m.data|, c.hash(m.data)))])
    ensures CarriedInfo(c, [m, self]) == Some(n) && Own(c.hash, [m, self], n)
  {
    HeadPlain(m.path);
    LineSays(m, Sum(|m.data|, c.hash(m.data)));
    HeadCarried(c, m, self, image, tag, n, LineText(m, Sum(|m.data|, c.hash(m.data))));
    TwoEntries(c.hash, m, self);
    KeyedOne(LineText(m, Sum(|m.data|, c.hash(m.data))));
    TwoDistinct([m, self]);
  }

  lemma KeyedOne(line: Bytes)
    requires GoodLine(line)
    ensures Keyed(map[PathOf(line) := line])
  {
  }

  lemma TwoDistinct(ms: seq<Member>)
    requires |ms| == 2 && ms[0].path != ms[1].path
    ensures DistinctPaths(ms)
  {
  }

  lemma HeadCarried(c: Tools, m: Member, self: Member, image: Bytes, tag: Bytes, n: Info, line: Bytes)
    requires Clean(image) && Clean(tag) && GoodLine(line) && m.path != SELF && self.path == SELF && self.kind.Regular?
    requires c.gunzip(self.data) == Some(TextOf(image, tag, [line])) && n == Info(image, tag, map[PathOf(line) := line])
    ensures CarriedInfo(c, [m, self]) == Some(n)
  {
    var ms := [m, self];
    ReadOne(line);
    assert [line] + [[]] == [line, []];
    ReadText(image, tag, [line], n.lines);
    assert ms[1..] == [self];
    assert Carried(c, ms) == Carried(c, [self]) == c.gunzip(self.data);
  }

  lemma TwoEntries(hash: Hash, m: Member, self: Member)
    requires m.kind.Regular? && !Passed(m) && !Outside(m.path) && self.path == SELF
    ensures Entries(hash, [m, self]).Some?
    ensures Entries(hash, [m, self]).value.out == map[Escape(m.path) := LineText(m, Sum(|m.data|, hash(m.data)))]
  {
    OneEntry(hash, m);
    EntriesNext(hash, [m], self, Entries(hash, [m]).value);
    assert [m] + [self] == [m, self];
  }

  lemma OneEntry(hash: Hash, m: Member)
    requires m.kind.Regular? && !Passed(m) && !Outside(m.path)
    ensures Entries(hash, [m]).Some? && Entries(hash, [m]).value.out == map[Escape(m.path) := LineText(m, Sum(|m.data|, hash(m.data)))]
  {
    assert [m][..0] == [];
    EntriesNext(hash, [], m, Scan(map[], map[]));
    assert [] + [m] == [m];
  }

  lemma NothingGoes(ms: seq<Member>, lines: map<Bytes, Bytes>, linked: set<Bytes>)
    requires |ms| == 2 && ms[1].path == SELF && Name(ms[0]) in lines && !Goes(ms[1], lines, map[], linked)
    ensures LeftOut(ms, lines, map[], linked) == Some([]) && !Goes(ms[0], lines, map[], linked)
  {
    var one: seq<Member> := ms[..1];
    assert one[..0] == [] && one[0] == ms[0];
    assert LeftOut(one[..0], lines, map[], linked) == Some([]);
    assert LeftOut(one, lines, map[], linked) == Some([]);
  }

  /** Such an image, against a release that had nothing: `make` writes a diff, and `check` refuses it. */
  lemma OwnHeadIsRefused(c: Tools, m: Member, self: Member, image: Bytes, tag: Bytes, was: Bytes, base: Bytes)
    requires Digests(c.hash) && Clean(image) && Clean(tag) && Clean(was) && tag != was
    requires HeadImage(c, m, self, image, tag) && base == TextOf(image, was, [])
    ensures Make(c, base, [m, self]).Some? && !Check(c, base, [m, self], Make(c, base, [m, self]).value)
  {
    var ms, n := [m, self], Info(image, tag, map[Name(m) := LineText(m, Sum(|m.data|, c.hash(m.data)))]);
    HeadImageOwn(c, m, self, image, tag, n);
    ReadNone();
    var none: seq<Bytes> := [];
    assert none + [[]] == [[]];
    ReadText(image, was, none, map[]);
    SelfName();
    NothingGoes(ms, n.lines, Linked(ms));
    MakeThenCheck(c, base, ms, Make(c, base, ms).value);
    assert ms[0].path == HEAD;
  }
}
