/** tarfilter: the tar stream without the members OLD already has (tools/carry/mu300-carry.c:1039-1282).

    `FilterSpec` says what goes out and what is logged, record by record; `TarFilter` is the program, which decides
    while the bytes pass in 64 KiB blocks and replays from OLD when a difference shows up late. */
module TarFilter {
  import opened Bytes
  import opened Paths
  import opened TarFormat

  datatype Meta = Meta(mode: nat, uid: nat, gid: nat)

  /** The content of a file on disk: its size is an off_t. */
  type Content = s: Bytes | |s| < TWO63

  /** A regular file of OLD that can be opened without following a link; `plain`: no attribute but an SELinux label. */
  datatype OldFile = OldFile(content: Content, plain: bool, ino: nat, meta: Meta)

  /** `every`: LIST is "*". */
  datatype Config = Config(every: bool, have: map<Path, OldFile>)

  /** A member of an archive: what it is called and what it holds. */
  datatype Entry = Entry(info: Info, meta: Meta, content: Bytes)

  datatype Line = D(path: Path) | H(path: Path) | T(target: Path) | E(leftOut: nat, written: nat)

  datatype Verdict = DropFile | DropLink | Keep

  /** LIST's paths; the flag says that the file was really left out. */
  type Listed = map<Path, bool>

  function MetaOf(hdr: Bytes): Meta
    requires |hdr| == 512
  {
    Meta(TarNum(hdr[100..108]), TarNum(hdr[108..116]), TarNum(hdr[116..124]))
  }

  /** The entry of the member record at the front of `s`. */
  function EntryAt(s: Bytes, e: Ext): Entry
    requires Step(s, e).Member?
  {
    var r := Step(s, e);
    Entry(r.info, MetaOf(s[..512]), s[512..512 + Min(r.info.size, r.len - 512)])
  }

  function Min(a: nat, b: nat): nat { if a < b then a else b }

  /** An archive as its reader sees it: the members in order, None when the stream is cut short. */
  function Decode(s: Bytes, e: Ext): Option<seq<Entry>>
    decreases |s|
  {
    match Step(s, e)
    case Bad => None
    case End => Some([])
    case ExtHeader(len, e') => Decode(s[len..], e')
    case Global(len) => Decode(s[len..], e)
    case Member(len, _) =>
      var rest := Decode(s[len..], NO_EXT);
      if rest.None? then None else Some([EntryAt(s, e)] + rest.value)
  }

  // ---- the decision

  predicate Candidate(c: Config, listed: Listed, info: Info) {
    IsRegular(info.typ) && !info.xattr && (if c.every then PlainPath(info.name) else info.name in listed)
  }

  /** OLD has a plain file of that size under the member's name. */
  predicate Comparable(c: Config, info: Info) {
    info.name in c.have && c.have[info.name].plain && |c.have[info.name].content| == info.size
  }

  predicate IsOld(c: Config, x: Entry) {
    Comparable(c, x.info) && c.have[x.info.name].content == x.content
  }

  function Judge(c: Config, listed: Listed, x: Entry): Verdict {
    if x.info.typ == TYPE_LINK && x.info.Link() in listed && listed[x.info.Link()] then DropLink
    else if Candidate(c, listed, x.info) && IsOld(c, x) && (c.every ==> NUL in x.content) then DropFile
    else Keep
  }

  function Mark(c: Config, listed: Listed, x: Entry): Listed {
    if Judge(c, listed, x).DropFile? then listed[x.info.name := true] else listed
  }

  function LinesOf(v: Verdict, info: Info): seq<Line> {
    match v
    case DropFile => [D(info.name)]
    case DropLink => [H(info.name), T(info.Link())]
    case Keep => []
  }

  /** A text file of OLD in "*" mode: compared to its end, then written from OLD with zeros for its padding. */
  predicate Rewritten(c: Config, listed: Listed, x: Entry) {
    c.every && Judge(c, listed, x).Keep? && Candidate(c, listed, x.info) && IsOld(c, x)
  }

  /** The bytes that go out for the member record `rec`, its extended headers aside. */
  function Emitted(c: Config, listed: Listed, x: Entry, rec: Bytes): Bytes
    requires |rec| >= 512 + |x.content|
  {
    if Rewritten(c, listed, x) then rec[..512] + x.content + Zeros(|rec| - 512 - |x.content|) else rec
  }

  /** KiB of a file in 4 KiB blocks. */
  function Kib(size: nat): nat {
    (size + 4095) / 4096 * 4
  }

  // ---- what the program computes

  datatype State = State(pend: Bytes, ext: Ext, listed: Listed, leftOut: nat, written: nat)

  datatype Filtered = Died | Filtered(out: Bytes, log: seq<Line>)

  function Before(bytes: Bytes, lines: seq<Line>, f: Filtered): Filtered {
    if f.Died? then Died else Filtered(bytes + f.out, lines + f.log)
  }

  function Counted(st: State, v: Verdict, info: Info): State {
    if v.DropFile? then st.(leftOut := st.leftOut + Kib(info.size))
    else if v.Keep? && IsRegular(info.typ) then st.(written := st.written + Kib(info.size))
    else st
  }

  function AfterMember(c: Config, st: State, x: Entry): State {
    Counted(st, Judge(c, st.listed, x), x.info).(pend := [], ext := NO_EXT, listed := Mark(c, st.listed, x))
  }

  function MemberOut(c: Config, st: State, x: Entry, rec: Bytes): Bytes
    requires |rec| >= 512 + |x.content|
  {
    if Judge(c, st.listed, x).Keep? then st.pend + Emitted(c, st.listed, x, rec) else []
  }

  function FilterSpec(c: Config, s: Bytes, st: State): Filtered
    decreases |s|
  {
    match Step(s, st.ext)
    case Bad => Died
    case End => if st.pend != [] then Died else Filtered(s, [E(st.leftOut, st.written)])
    case ExtHeader(len, e) => FilterSpec(c, s[len..], st.(pend := st.pend + s[..len], ext := e))
    case Global(len) => Before(st.pend + s[..len], [], FilterSpec(c, s[len..], st.(pend := [])))
    case Member(len, info) =>
      var x := EntryAt(s, st.ext);
      Before(MemberOut(c, st, x, s[..len]), LinesOf(Judge(c, st.listed, x), info),
             FilterSpec(c, s[len..], AfterMember(c, st, x)))
  }
}
