/** The entries of an image: one manifest line for every member of its archive. */
module ImageEntries {
  import opened Bytes
  import opened Paths
  import opened Text
  import opened Manifest

  datatype Kind = Regular | HardLink(target: Path) | Directory | Symlink(to: Bytes) | CharDevice | BlockDevice | Fifo | Unsaid
  /** A member of an archive; `path` is its name relative to the root. `attrs`: it has an extended attribute. */
  datatype Member = Member(path: Path, kind: Kind, mode: nat, uid: nat, gid: nat, data: Bytes, attrs: bool)

  const SELF: Path := [101, 116, 99, 47, 109, 117, 51, 48, 48, 47, 105, 109, 97, 103, 101, 45, 109, 97, 110, 105, 102, 101, 115,
                       116, 46, 103, 122]                 // etc/mu300/image-manifest.gz
  const LETTER_F: byte := 102

  type Hash = Bytes -> Bytes

  /** A digest is written without spaces and newlines. */
  ghost predicate Digests(hash: Hash) { forall x :: Clean(hash(x)) }

  datatype Sum = Sum(size: nat, hash: Bytes)
  /** `out` is keyed by the path as a manifest writes it. */
  datatype Scan = Scan(out: map<Bytes, Bytes>, files: map<Path, Sum>)

  predicate Outside(p: Path) {
    (p != [] && p[0] == SLASH) || [DOT, DOT] in Split(p, SLASH)
  }

  function Octal(n: nat): (r: Bytes)
    ensures |r| >= 1 && Digits(r)
  {
    if n < 8 then [48 + n] else Octal(n / 8) + [48 + n % 8]
  }

  function Letter(k: Kind): byte {
    match k
    case Regular => LETTER_F
    case HardLink(_) => LETTER_F
    case Directory => 100
    case Symlink(_) => 108
    case CharDevice => 99
    case BlockDevice => 98
    case Fifo => 112
    case Unsaid => 45
  }

  function LineText(m: Member, s: Sum): Bytes {
    Join([[Letter(m.kind)], Octal(if m.kind.Symlink? then 511 else m.mode % 4096), Show(m.uid), Show(m.gid), Show(s.size), s.hash, Escape(m.path)], SPACE)
  }

  /** Size and digest of a member; a hard link's are those of the file it names. */
  function SumOf(hash: Hash, files: map<Path, Sum>, m: Member): Option<Sum> {
    match m.kind
    case Regular => Some(Sum(|m.data|, hash(m.data)))
    case HardLink(t) => if t in files then Some(files[t]) else None
    case Symlink(to) => Some(Sum(|to|, hash(to)))
    case Unsaid => None
    case _ => Some(Sum(0, [45]))
  }

  predicate Passed(m: Member) { m.path == [] || m.path == SELF }

  /** One turn of the loop of `entries`; nothing where it ends with an error. */
  function Step(hash: Hash, s: Scan, m: Member): Option<Scan> {
    if Passed(m) then Some(s)
    else if Outside(m.path) then None
    else match SumOf(hash, s.files, m)
         case None => None
         case Some(sum) =>
           Some(Scan(s.out[Escape(m.path) := LineText(m, sum)], if m.kind.Regular? then s.files[m.path := sum] else s.files))
  }

  function Entries(hash: Hash, ms: seq<Member>): Option<Scan> {
    if ms == [] then Some(Scan(map[], map[]))
    else match Entries(hash, ms[..|ms| - 1])
         case None => None
         case Some(s) => Step(hash, s, ms[|ms| - 1])
  }

  /** `entries` */
  method EntriesRun(hash: Hash, ms: seq<Member>) returns (r: Option<Scan>)
    ensures r == Entries(hash, ms)
  {
    var s := Scan(map[], map[]);
    var i := 0;
    while i < |ms|
      invariant 0 <= i <= |ms| && Entries(hash, ms[..i]) == Some(s)
    {
      assert ms[..i + 1][..i] == ms[..i];
      var next := Step(hash, s, ms[i]);
      if next.None? {
        NoneOn(hash, ms, i + 1);
        return None;
      }
      s := next.value;
      i := i + 1;
    }
    assert ms[..i] == ms;
    r := Some(s);
  }

  lemma {:induction false} NoneOn(hash: Hash, ms: seq<Member>, i: nat)
    requires i <= |ms| && Entries(hash, ms[..i]).None?
    ensures Entries(hash, ms).None?
    decreases |ms|
  {
    if i == |ms| {
      assert ms[..i] == ms;
    } else {
      assert ms[..|ms| - 1][..i] == ms[..i];
      NoneOn(hash, ms[..|ms| - 1], i);
    }
  }

  // ---- what a line says

  lemma {:induction false} EscapeTells(p: Path, q: Path)
    requires Escape(p) == Escape(q)
    ensures p == q
  {
    if p != [] && q != [] {
      assert Escape(p)[0] == Escape(q)[0];
      assert p[0] == q[0] by {
        if Escape(p)[0] == BACKSLASH {
          assert Escape(p)[1] == Escape(q)[1];
        }
      }
      var k := if p[0] == BACKSLASH || p[0] == NEWLINE then 2 else 1;
      assert Escape(p)[k..] == Escape(p[1..]);
      assert Escape(q)[k..] == Escape(q[1..]);
      EscapeTells(p[1..], q[1..]);
      assert p == [p[0]] + p[1..] && q == [q[0]] + q[1..];
    }
  }

  lemma {:induction false} EscapeSame(p: Path)
    requires BACKSLASH !in p && NEWLINE !in p
    ensures Escape(p) == p
  {
    if p != [] {
      EscapeSame(p[1..]);
      assert p == [p[0]] + p[1..];
    }
  }

  lemma {:induction false} DropJoin(parts: seq<Bytes>, k: nat)
    requires k < |parts| && forall i :: 0 <= i < k ==> SPACE !in parts[i]
    ensures Drop(Join(parts, SPACE), k) == Some(Join(parts[k..], SPACE))
    decreases k
  {
    if k == 0 {
      assert parts[0..] == parts;
    } else {
      CutFirst(parts[0], SPACE, Join(parts[1..], SPACE));
      DropJoin(parts[1..], k - 1);
      assert parts[1..][k - 1..] == parts[k..];
    }
  }

  lemma DigitsClean(s: Bytes)
    requires Digits(s)
    ensures Clean(s)
  {
  }

  /** A member's line is one line, its path the member's, and it begins with the member's letter. */
  lemma LineSays(m: Member, s: Sum)
    requires Clean(s.hash)
    ensures GoodLine(LineText(m, s)) && PathOf(LineText(m, s)) == Escape(m.path)
    ensures LineText(m, s)[..2] == [Letter(m.kind), SPACE]
  {
    var parts := [[Letter(m.kind)], Octal(if m.kind.Symlink? then 511 else m.mode % 4096), Show(m.uid), Show(m.gid), Show(s.size), s.hash, Escape(m.path)];
    DigitsClean(parts[1]);
    DigitsClean(parts[2]);
    DigitsClean(parts[3]);
    DigitsClean(parts[4]);
    EscapeIsOneLine(m.path);
    assert forall i :: 0 <= i < 6 ==> Clean(parts[i]);
    DropJoin(parts, 6);
    assert parts[6..] == [Escape(m.path)];
    JoinClean(parts, SPACE, NEWLINE);
    assert LineText(m, s) == parts[0] + [SPACE] + Join(parts[1..], SPACE);
  }
}
