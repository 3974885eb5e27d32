/** The newc cpio archive: records of a fixed header in hexadecimal, a name and data, each padded to four bytes. */
module Cpio {
  import opened Bytes

  const MAGIC: Bytes := [48, 55, 48, 55, 48, 49]                              // 070701
  const TRAILER: Bytes := [84, 82, 65, 73, 76, 69, 82, 33, 33, 33]            // TRAILER!!!

  datatype Rec = Rec(name: Bytes, data: Bytes, mode: nat, ino: nat, major: nat, minor: nat)

  // ---- hexadecimal numbers

  function HexDigit(n: nat): byte
    requires n < 16
  {
    if n < 10 then 48 + n else 87 + n
  }

  function HexValue(b: byte): Option<nat> {
    if 48 <= b <= 57 then Some(b - 48) else if 97 <= b <= 102 then Some(b - 87) else if 65 <= b <= 70 then Some(b - 55) else None
  }

  function Hex(n: nat, k: nat): (r: Bytes)
    ensures |r| == k
  {
    if k == 0 then [] else Hex(n / 16, k - 1) + [HexDigit(n % 16)]
  }

  function ReadHex(s: Bytes): Option<nat> {
    if s == [] then Some(0)
    else match ReadHex(s[..|s| - 1])
         case None => None
         case Some(n) => match HexValue(s[|s| - 1])
                         case None => None
                         case Some(d) => Some(16 * n + d)
  }

  function Pow16(k: nat): nat { if k == 0 then 1 else 16 * Pow16(k - 1) }

  lemma {:induction false} HexBack(n: nat, k: nat)
    requires n < Pow16(k)
    ensures ReadHex(Hex(n, k)) == Some(n)
  {
    if k > 0 {
      HexBack(n / 16, k - 1);
      assert Hex(n, k)[..k - 1] == Hex(n / 16, k - 1);
    }
  }

  lemma Word()
    ensures Pow16(8) == TWO32
  {
    assert Pow16(4) == 16 * (16 * (16 * (16 * Pow16(0))));
    assert Pow16(8) == 16 * (16 * (16 * (16 * Pow16(4))));
  }

  // ---- a record

  function Fields(fs: seq<nat>): (b: Bytes)
    ensures |b| == 8 * |fs|
  {
    if fs == [] then [] else Hex(fs[0], 8) + Fields(fs[1..])
  }

  lemma {:induction false} FieldAt(fs: seq<nat>, k: nat)
    requires k < |fs|
    ensures Fields(fs)[8 * k..8 * k + 8] == Hex(fs[k], 8)
  {
    if k > 0 {
      FieldAt(fs[1..], k - 1);
      assert Fields(fs)[8..] == Fields(fs[1..]);
      assert Fields(fs)[8 * k..8 * k + 8] == Fields(fs)[8..][8 * (k - 1)..8 * (k - 1) + 8];
    }
  }

  function Header(r: Rec): (b: Bytes)
    ensures |b| == 110
  {
    MAGIC + Fields([r.ino, r.mode, 0, 0, 1, 0, |r.data|, 0, 0, r.major, r.minor, |r.name| + 1, 0])
  }

  /** `cpio_record` */
  function Record(r: Rec): (b: Bytes)
    ensures |b| % 4 == 0
  {
    Header(r) + r.name + [NUL] + Zeros(Pad(110 + |r.name| + 1)) + r.data + Zeros(Pad(|r.data|))
  }

  predicate Small(r: Rec) {
    |r.name| + 1 < TWO32 && |r.data| < TWO32 && r.mode < TWO32 && r.ino < TWO32 && r.major < TWO32 && r.minor < TWO32
  }

  function Flat(rs: seq<Rec>): Bytes { if rs == [] then [] else Record(rs[0]) + Flat(rs[1..]) }

  // ---- the names of an archive

  /** Python's slice: what there is of it. */
  function Slice(d: Bytes, from: int, to: int): Bytes
    requires 0 <= from
  {
    var end := if to < |d| then to else |d|;
    if from <= end then d[from..end] else []
  }

  function After(d: Bytes, n: nat): (r: Bytes)
    ensures n > 0 && d != [] ==> |r| < |d|
  {
    if n <= |d| then d[n..] else []
  }

  /** The length of a record, with its padding. */
  function Span(nlen: nat, size: nat): (n: nat)
    ensures n > 0
  {
    110 + nlen + Pad(110 + nlen) + size + Pad(size)
  }

  /** `cpio_names`: the names up to the trailer or the first thing that is no record; nothing when a number cannot be read. */
  function Names(d: Bytes): Option<set<Bytes>>
    decreases |d|
  {
    if |d| < 110 || d[..6] != MAGIC then Some({})
    else match ReadHex(d[54..62])
         case None => None
         case Some(size) =>
           match ReadHex(d[94..102])
           case None => None
           case Some(nlen) =>
             var name := Slice(d, 110, 110 + nlen - 1);
             if name == TRAILER then Some({})
             else match Names(After(d, Span(nlen, size)))
                  case None => None
                  case Some(rest) => Some({name} + rest)
  }

  lemma HeaderSlices(h: Bytes, f: Bytes, d: Bytes)
    requires h == MAGIC + f && |f| == 104 && |d| >= 110 && d[..110] == h
    ensures d[..6] == MAGIC && d[54..62] == f[48..56] && d[94..102] == f[88..96]
  {
    assert h[54..62] == f[48..56] && h[94..102] == f[88..96] && h[..6] == MAGIC;
    assert d[54..62] == h[54..62] && d[94..102] == h[94..102] && d[..6] == h[..6];
  }

  lemma HeaderReads(r: Rec, d: Bytes)
    requires Small(r) && |d| >= 110 && d[..110] == Header(r)
    ensures d[..6] == MAGIC && ReadHex(d[54..62]) == Some(|r.data|) && ReadHex(d[94..102]) == Some(|r.name| + 1)
  {
    var fs := [r.ino, r.mode, 0, 0, 1, 0, |r.data|, 0, 0, r.major, r.minor, |r.name| + 1, 0];
    var h := Header(r);
    assert fs[6] == |r.data| && fs[11] == |r.name| + 1;
    FieldAt(fs, 6);
    FieldAt(fs, 11);
    HeaderSlices(h, Fields(fs), d);
    Word();
    HexBack(|r.data|, 8);
    HexBack(|r.name| + 1, 8);
  }

  /** The parts of a record with anything after it. */
  lemma RecordParts(r: Rec, rest: Bytes, d: Bytes)
    requires d == Record(r) + rest
    ensures |d| >= 110 && d[..110] == Header(r) && Slice(d, 110, 110 + |r.name|) == r.name
    ensures After(d, Span(|r.name| + 1, |r.data|)) == rest
  {
    var b := Record(r);
    assert |b| == Span(|r.name| + 1, |r.data|);
    assert d[|b|..] == rest;
    assert b[..110] == Header(r) && b[110..110 + |r.name|] == r.name;
    assert d[..110] == b[..110] && d[110..110 + |r.name|] == b[110..110 + |r.name|];
  }

  lemma NamesNext(r: Rec, rest: Bytes, d: Bytes, more: set<Bytes>)
    requires Small(r) && r.name != TRAILER && d == Record(r) + rest && Names(rest) == Some(more)
    ensures Names(d) == Some({r.name} + more)
  {
    RecordParts(r, rest, d);
    HeaderReads(r, d);
  }

  lemma NamesEnd(r: Rec, rest: Bytes, d: Bytes)
    requires Small(r) && r.name == TRAILER && d == Record(r) + rest
    ensures Names(d) == Some({})
  {
    RecordParts(r, rest, d);
    HeaderReads(r, d);
  }

  function NamesOf(rs: seq<Rec>): set<Bytes> { set i | 0 <= i < |rs| :: rs[i].name }

  lemma {:induction false} NamesBefore(rs: seq<Rec>, tail: Bytes, d: Bytes)
    requires (forall i :: 0 <= i < |rs| ==> Small(rs[i]) && rs[i].name != TRAILER) && Names(tail) == Some({}) && d == Flat(rs) + tail
    ensures Names(d) == Some(NamesOf(rs))
    decreases |rs|
  {
    if rs == [] {
      assert d == tail;
      assert NamesOf(rs) == {};
    } else {
      var rest := Flat(rs[1..]) + tail;
      NamesBefore(rs[1..], tail, rest);
      NamesOfCons(rs);
      Assoc(Record(rs[0]), Flat(rs[1..]), tail);
      NamesNext(rs[0], rest, d, NamesOf(rs[1..]));
    }
  }

  /** The names read from an archive are those of its records. */
  lemma NamesBack(rs: seq<Rec>, trailer: Rec)
    requires (forall i :: 0 <= i < |rs| ==> Small(rs[i]) && rs[i].name != TRAILER) && Small(trailer) && trailer.name == TRAILER
    ensures Names(Flat(rs) + Record(trailer)) == Some(NamesOf(rs))
  {
    assert Record(trailer) + [] == Record(trailer);
    NamesEnd(trailer, [], Record(trailer));
    NamesBefore(rs, Record(trailer), Flat(rs) + Record(trailer));
  }

  lemma NamesOfCons(rs: seq<Rec>)
    requires rs != []
    ensures NamesOf(rs) == {rs[0].name} + NamesOf(rs[1..])
  {
    forall n
      ensures n in NamesOf(rs) <==> n == rs[0].name || n in NamesOf(rs[1..])
    {
      assert forall i :: 0 <= i < |rs| - 1 ==> rs[1..][i] == rs[i + 1];
      assert forall i :: 0 < i < |rs| ==> rs[i] == rs[1..][i - 1];
    }
  }

  // ---- the program

  function Joined(acc: set<Bytes>, r: Option<set<Bytes>>): Option<set<Bytes>> { if r.None? then None else Some(acc + r.value) }

  /** Where the record after the one at i begins. */
  function Next(i: nat, nlen: nat, size: nat): nat {
    var j := i + 110 + nlen;
    j + Pad(j) + size + Pad(size)
  }

  lemma PadShift(i: nat, n: nat)
    requires i % 4 == 0
    ensures Pad(i + n) == Pad(n)
  {
    var q := i / 4;
    assert i == 4 * q;
    assert (4 * q + n) % 4 == n % 4;
  }

  lemma NextAligned(i: nat, nlen: nat, size: nat)
    requires i % 4 == 0
    ensures Next(i, nlen, size) % 4 == 0 && Next(i, nlen, size) == i + Span(nlen, size)
  {
    PadShift(i, 110 + nlen);
    assert i + 110 + nlen == i + (110 + nlen);
    Aligned(i, 110 + nlen, size);
  }

  lemma Aligned(i: nat, n: nat, size: nat)
    requires i % 4 == 0
    ensures (i + (n + Pad(n)) + (size + Pad(size))) % 4 == 0
  {
    var a, b, c := i / 4, (n + Pad(n)) / 4, (size + Pad(size)) / 4;
    assert i + (n + Pad(n)) + (size + Pad(size)) == 4 * (a + b + c);
  }

  lemma NamesIs(rest: Bytes, size: nat, nlen: nat, name: Bytes)
    requires |rest| >= 110 && rest[..6] == MAGIC && ReadHex(rest[54..62]) == Some(size) && ReadHex(rest[94..102]) == Some(nlen)
    requires name == Slice(rest, 110, 110 + nlen - 1)
    ensures Names(rest) == if name == TRAILER then Some({}) else Joined({name}, Names(After(rest, Span(nlen, size))))
  {
  }

  lemma NamesFail(rest: Bytes)
    requires |rest| >= 110 && rest[..6] == MAGIC && (ReadHex(rest[54..62]).None? || ReadHex(rest[94..102]).None?)
    ensures Names(rest).None?
  {
  }

  lemma RestSlices(d: Bytes, i: nat, rest: Bytes)
    requires i + 110 <= |d| && rest == After(d, i)
    ensures |rest| >= 110 && rest[..6] == d[i..i + 6] && rest[54..62] == d[i + 54..i + 62] && rest[94..102] == d[i + 94..i + 102]
  {
  }

  lemma NextAfter(d: Bytes, i: nat, nlen: nat, size: nat, j: nat)
    requires i % 4 == 0 && j == Next(i, nlen, size)
    ensures j % 4 == 0 && j > i && After(After(d, i), Span(nlen, size)) == After(d, j)
  {
    NextAligned(i, nlen, size);
    AfterAfter(d, i, Span(nlen, size));
  }

  /** One turn of the loop, on the bytes from i on. */
  lemma NamesAt(d: Bytes, i: nat, size: nat, nlen: nat, name: Bytes, j: nat, rest: Bytes)
    requires i + 110 <= |d| && d[i..i + 6] == MAGIC && rest == After(d, i) && After(rest, Span(nlen, size)) == After(d, j)
    requires ReadHex(d[i + 54..i + 62]) == Some(size) && ReadHex(d[i + 94..i + 102]) == Some(nlen)
    requires name == Slice(d, i + 110, i + 110 + nlen - 1)
    ensures Names(rest) == if name == TRAILER then Some({}) else Joined({name}, Names(After(d, j)))
  {
    RestSlices(d, i, rest);
    SliceAfter(d, i, nlen);
    NamesIs(rest, size, nlen, name);
  }

  lemma SliceAfter(d: Bytes, i: nat, nlen: nat)
    requires i + 110 <= |d|
    ensures Slice(After(d, i), 110, 110 + nlen - 1) == Slice(d, i + 110, i + 110 + nlen - 1)
  {
  }

  /** `cpio_names` */
  method NamesRun(d: Bytes) returns (r: Option<set<Bytes>>)
    ensures r == Names(d)
  {
    var names: set<Bytes> := {};
    var i := 0;
    JoinedNothing(d);
    while i + 110 <= |d| && d[i..i + 6] == MAGIC
      invariant i % 4 == 0 && Names(d) == Joined(names, Names(After(d, i)))
      decreases |d| - i
    {
      RestSlices(d, i, After(d, i));
      var size, nlen := ReadHex(d[i + 54..i + 62]), ReadHex(d[i + 94..i + 102]);
      if size.None? || nlen.None? {
        NamesFail(After(d, i));
        return None;
      }
      var name := Slice(d, i + 110, i + 110 + nlen.value - 1);
      var j := Next(i, nlen.value, size.value);
      NextAfter(d, i, nlen.value, size.value, j);
      NamesAt(d, i, size.value, nlen.value, name, j, After(d, i));
      if name == TRAILER {
        return Some(names);
      }
      JoinedMore(names, name, Names(After(d, j)));
      names := names + {name};
      i := j;
    }
    NamesOver(d, i);
    r := Some(names);
  }

  lemma NamesOver(d: Bytes, i: nat)
    requires i + 110 > |d| || d[i..i + 6] != MAGIC
    ensures Names(After(d, i)) == Some({})
  {
    if i + 110 <= |d| {
      assert After(d, i)[..6] == d[i..i + 6];
    }
  }

  lemma JoinedNothing(d: Bytes)
    ensures Names(d) == Joined({}, Names(After(d, 0)))
  {
    assert After(d, 0) == d;
    assert Names(d).Some? ==> {} + Names(d).value == Names(d).value;
  }

  lemma AfterAfter(d: Bytes, i: nat, n: nat)
    ensures After(After(d, i), n) == After(d, i + n)
  {
  }

  lemma JoinedMore(a: set<Bytes>, x: Bytes, r: Option<set<Bytes>>)
    ensures Joined(a, Joined({x}, r)) == Joined(a + {x}, r)
  {
    assert r.Some? ==> a + ({x} + r.value) == a + {x} + r.value;
  }
}
