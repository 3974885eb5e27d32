/** `image-diff.py`: the diff of an image against an older release's manifest, and its check. */
module ImageDiff {
  import opened Bytes
  import opened Paths
  import opened Text
  import opened Manifest
  import opened ImageEntries

  const HEAD: Path := [46, 109, 117, 51, 48, 48, 45, 100, 105, 102, 102]      // .mu300-diff
  const DIFF: Bytes := [109, 117, 51, 48, 48, 45, 100, 105, 102, 102]         // mu300-diff

  function Ascii(s: string): Bytes { seq(|s|, i requires 0 <= i < |s| => (s[i] as int) % 256) }

  const OMIT_NOT := ["etc/", "var/", "root/", "home/", "srv/", "tmp/", "run/", "usr/local/", "lib/apk/", "usr/lib/opkg/"]
  const TOOLS := ["opt/mu300/bin/mu300-carry", "opt/mu300/bin/mu300-update", "usr/bin/busybox", "opt/mu300/bin/busybox"]
  const FIXED_UP := ["usr/bin/ping", "usr/bin/mtr-packet", "usr/bin/arping"]

  predicate StartsWithOne(path: Bytes, starts: seq<string>) {
    exists i :: 0 <= i < |starts| && Ascii(starts[i]) <= path
  }

  predicate IsOne(path: Bytes, names: seq<string>) {
    exists i :: 0 <= i < |names| && Ascii(names[i]) == path
  }

  // ---- manifests

  datatype Info = Info(image: Bytes, tag: Bytes, lines: map<Bytes, Bytes>)

  function ReadLines(ls: seq<Bytes>): Option<map<Bytes, Bytes>> {
    if ls == [] then Some(map[])
    else match ReadLines(ls[..|ls| - 1])
         case None => None
         case Some(m) =>
           var line := ls[|ls| - 1];
           if line == [] then Some(m) else if HasPath(line) then Some(m[PathOf(line) := line]) else None
  }

  /** `read_manifest` */
  function ReadManifest(text: Bytes): Option<Info> {
    var ls := Split(text, NEWLINE);
    var h := Split(ls[0], SPACE);
    if |h| != 4 || h[..2] != [MAGIC, ONE] then None
    else match ReadLines(ls[1..])
         case None => None
         case Some(m) => Some(Info(h[2], h[3], m))
  }

  /** What is read of every manifest: each line under its own path. */
  predicate Keyed(m: map<Bytes, Bytes>) {
    forall p :: p in m ==> GoodLine(m[p]) && PathOf(m[p]) == p
  }

  lemma {:induction false} ReadLinesKeyed(ls: seq<Bytes>)
    requires forall i :: 0 <= i < |ls| ==> NEWLINE !in ls[i]
    ensures ReadLines(ls).Some? ==> Keyed(ReadLines(ls).value)
  {
    if ls != [] {
      ReadLinesKeyed(ls[..|ls| - 1]);
    }
  }

  lemma ReadKeyed(text: Bytes)
    requires ReadManifest(text).Some?
    ensures var i := ReadManifest(text).value; Clean(i.image) && Clean(i.tag) && Keyed(i.lines)
  {
    var ls := Split(text, NEWLINE);
    SplitFree(text, NEWLINE, SPACE);
    SplitFree(ls[0], SPACE, NEWLINE);
    ReadLinesKeyed(ls[1..]);
  }

  datatype Tools = Tools(hash: Hash, gunzip: Bytes -> Option<Bytes>)

  /** The manifest the image carries, unpacked: that of its first member of the manifest's name. */
  function Carried(c: Tools, ms: seq<Member>): Option<Bytes> {
    if ms == [] then None
    else if ms[0].path == SELF then (if ms[0].kind.Regular? then c.gunzip(ms[0].data) else None)
    else Carried(c, ms[1..])
  }

  function CarriedInfo(c: Tools, ms: seq<Member>): Option<Info> {
    match Carried(c, ms)
    case None => None
    case Some(text) => ReadManifest(text)
  }

  // ---- make

  function Name(m: Member): Bytes { Escape(m.path) }

  /** The hard links and the files they name. */
  function Linked(ms: seq<Member>): set<Bytes> {
    if ms == [] then {}
    else Linked(ms[..|ms| - 1]) +
         if ms[|ms| - 1].kind.HardLink? then {Escape(ms[|ms| - 1].kind.target), Name(ms[|ms| - 1])} else {}
  }

  function Get(m: map<Bytes, Bytes>, p: Bytes): Option<Bytes> { if p in m then Some(m[p]) else None }

  /** What `make` asks of a path besides its line. */
  predicate MayGo(path: Bytes, linked: set<Bytes>) {
    path !in linked && !StartsWithOne(path, OMIT_NOT) && !IsOne(path, TOOLS) && !IsOne(path, FIXED_UP) && path != SELF
  }

  predicate Omissible(m: Member, lines: map<Bytes, Bytes>, base: map<Bytes, Bytes>, linked: set<Bytes>) {
    m.kind.Regular? && !m.attrs && MayGo(Name(m), linked) && Get(base, Name(m)) == Get(lines, Name(m))
  }

  predicate Goes(m: Member, lines: map<Bytes, Bytes>, base: map<Bytes, Bytes>, linked: set<Bytes>) {
    Name(m) != [] && Omissible(m, lines, base, linked)
  }

  /** The lines of the files left out; nothing when one of them has none. */
  function LeftOut(ms: seq<Member>, lines: map<Bytes, Bytes>, base: map<Bytes, Bytes>, linked: set<Bytes>): Option<seq<Bytes>> {
    if ms == [] then Some([])
    else match LeftOut(ms[..|ms| - 1], lines, base, linked)
         case None => None
         case Some(left) =>
           var m := ms[|ms| - 1];
           if !Goes(m, lines, base, linked) then Some(left)
           else if Name(m) in lines then Some(left + [lines[Name(m)]]) else None
  }

  function PathsOf(left: seq<Bytes>): set<Bytes>
    requires forall i :: 0 <= i < |left| ==> HasPath(left[i])
  {
    set i | 0 <= i < |left| :: PathOf(left[i])
  }

  function Without(ms: seq<Member>, skip: set<Bytes>): seq<Member> {
    if ms == [] then []
    else Without(ms[..|ms| - 1], skip) + if Name(ms[|ms| - 1]) in skip then [] else [ms[|ms| - 1]]
  }

  function HeadLine(image: Bytes, base: Bytes, tag: Bytes): Bytes { Join([DIFF, ONE, image, base, tag], SPACE) }

  function HeadMember(text: Bytes): Member { Member(HEAD, Regular, 384, 0, 0, text, false) }

  function HeadText(image: Bytes, base: Bytes, tag: Bytes, left: seq<Bytes>): Bytes {
    Join([HeadLine(image, base, tag)] + left + [[]], NEWLINE)
  }

  /** The diff, given the two manifests. */
  function DiffOf(b: Info, n: Info, ms: seq<Member>): Option<seq<Member>>
    requires Keyed(n.lines)
  {
    match LeftOut(ms, n.lines, b.lines, Linked(ms))
    case None => None
    case Some(left) =>
      LeftOutKeyed(ms, n.lines, b.lines, Linked(ms));
      Some([HeadMember(HeadText(n.image, b.tag, n.tag, left))] + Without(ms, PathsOf(left)))
  }

  /** `make`: the members of the diff of an image against a base manifest; nothing where it ends with an error. */
  function Make(c: Tools, base: Bytes, ms: seq<Member>): Option<seq<Member>> {
    match ReadManifest(base)
    case None => None
    case Some(b) =>
      match Carried(c, ms)
      case None => None
      case Some(text) =>
        match ReadManifest(text)
        case None => None
        case Some(n) =>
          if b.image != n.image || b.tag == n.tag then None
          else ReadKeyed(text); DiffOf(b, n, ms)
  }

  /** Each line left out is the new manifest's line of a member that may go. */
  lemma {:induction false} LeftOutKeyed(ms: seq<Member>, lines: map<Bytes, Bytes>, base: map<Bytes, Bytes>, linked: set<Bytes>)
    requires Keyed(lines) && LeftOut(ms, lines, base, linked).Some?
    ensures var left := LeftOut(ms, lines, base, linked).value;
            forall i :: 0 <= i < |left| ==> GoodLine(left[i]) && Get(lines, PathOf(left[i])) == Some(left[i])
  {
    if ms != [] {
      LeftOutKeyed(ms[..|ms| - 1], lines, base, linked);
    }
  }

  // ---- check

  /** The lines left out, put beside the entries of the diff one by one; nothing when one of them must not be. */
  function PutBack(got: map<Bytes, Bytes>, left: seq<Bytes>, lines: map<Bytes, Bytes>, base: map<Bytes, Bytes>, linked: set<Bytes>): Option<map<Bytes, Bytes>>
    decreases |left|
  {
    if left == [] then Some(got)
    else if MayPut(got, left[0], lines, base, linked) then PutBack(got[PathOf(left[0]) := left[0]], left[1..], lines, base, linked)
    else None
  }

  predicate MayPut(got: map<Bytes, Bytes>, line: Bytes, lines: map<Bytes, Bytes>, base: map<Bytes, Bytes>, linked: set<Bytes>) {
    && HasPath(line) && Get(lines, PathOf(line)) == Some(line) && Get(base, PathOf(line)) == Some(line) && PathOf(line) !in got
    && !StartsWithOne(PathOf(line), OMIT_NOT) && !IsOne(PathOf(line), TOOLS) && PathOf(line) !in linked
    && [LETTER_F, SPACE] <= line
  }

  /** What the diff holds, by path, without its head. */
  function Held(c: Tools, diff: seq<Member>): Option<map<Bytes, Bytes>> {
    match Entries(c.hash, diff)
    case None => None
    case Some(s) => Some(s.out - {HEAD})
  }

  predicate CheckWith(c: Tools, b: Info, n: Info, ms: seq<Member>, diff: seq<Member>) {
    && diff != [] && diff[0].path == HEAD && diff[0].kind.Regular?
    && var ls := Split(diff[0].data, NEWLINE);
    && ls[0] == HeadLine(n.image, b.tag, n.tag)
    && Held(c, diff).Some?
    && PutBack(Held(c, diff).value, NonEmpty(ls[1..]), n.lines, b.lines, Linked(ms)) == Some(n.lines)
    && Carried(c, diff) == Carried(c, ms)
  }

  /** `check` */
  predicate Check(c: Tools, base: Bytes, ms: seq<Member>, diff: seq<Member>) {
    && ReadManifest(base).Some? && CarriedInfo(c, ms).Some?
    && CheckWith(c, ReadManifest(base).value, CarriedInfo(c, ms).value, ms, diff)
  }
}
