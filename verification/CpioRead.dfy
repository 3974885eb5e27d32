/** A newc cpio stream read as the kernel unpacks it: record after record, and after the trailer of one archive, over any
    zeros, the next. */
module CpioRead {
  import opened Bytes
  import opened Cpio

  datatype Head = Head(ino: nat, mode: nat, size: nat, major: nat, minor: nat, nlen: nat)

  /** The numbers of a header; nothing when one cannot be read. */
  function ReadHead(d: Bytes): Option<Head>
    requires |d| >= 110
  {
    var ino, mode, size := ReadHex(d[6..14]), ReadHex(d[14..22]), ReadHex(d[54..62]);
    var major, minor, nlen := ReadHex(d[78..86]), ReadHex(d[86..94]), ReadHex(d[94..102]);
    if ino.None? || mode.None? || size.None? || major.None? || minor.None? || nlen.None? then None
    else Some(Head(ino.value, mode.value, size.value, major.value, minor.value, nlen.value))
  }

  function Length(h: Head): (n: nat)
    ensures n > 0
  {
    Span(h.nlen, h.size)
  }

  /** The record at the front of `d`; nothing when there is no whole one. */
  function ReadOne(d: Bytes): Option<(Rec, nat)> {
    if |d| < 110 || d[..6] != MAGIC then None
    else match ReadHead(d)
         case None => None
         case Some(h) =>
           if h.nlen == 0 || |d| < Length(h) then None
           else
             var body := 110 + h.nlen + Pad(110 + h.nlen);
             Some((Rec(d[110..110 + h.nlen - 1], d[body..body + h.size], h.mode, h.ino, h.major, h.minor), Length(h)))
  }

  function Zeroes(d: Bytes): (n: nat)
    ensures n <= |d| && (n < |d| ==> d[n] != NUL)
  {
    if d == [] || d[0] != NUL then 0 else 1 + Zeroes(d[1..])
  }

  /** What follows a trailer: a whole number of words of zeros, then more records; or zeros to the end. */
  function AfterTrailer(d: Bytes): Option<Bytes> {
    if Zeroes(d) == |d| then Some([])
    else if Zeroes(d) % 4 != 0 then None
    else Some(d[Zeroes(d)..])
  }

  function Before(r: Rec, more: Option<seq<Rec>>): Option<seq<Rec>> { if more.None? then None else Some([r] + more.value) }

  /** All records of a stream, the trailers left out; nothing when it cannot be read to its end. */
  function ReadRecs(d: Bytes): Option<seq<Rec>>
    decreases |d|
  {
    if d == [] then Some([])
    else match ReadOne(d)
         case None => None
         case Some((r, n)) =>
           if r.name != TRAILER then Before(r, ReadRecs(After(d, n)))
           else match AfterTrailer(After(d, n))
                case None => None
                case Some(rest) => if |rest| < |d| then ReadRecs(rest) else None
  }

  /** What is read behind a trailer. */
  function ReadTail(d: Bytes): Option<seq<Rec>> {
    match AfterTrailer(d)
    case None => None
    case Some(rest) => ReadRecs(rest)
  }

  // ---- a written record is read back

  lemma FieldReads(fs: seq<nat>, k: nat, d: Bytes, lo: nat, v: nat)
    requires k < |fs| == 13 && v == fs[k] < TWO32 && |d| >= 110 && d[..110] == MAGIC + Fields(fs) && lo == 6 + 8 * k
    ensures lo + 8 <= 110 && ReadHex(d[lo..lo + 8]) == Some(v)
  {
    FieldAt(fs, k);
    FieldSlice(Fields(fs), 8 * k, d);
    Word();
    HexBack(fs[k], 8);
  }

  lemma FieldSlice(f: Bytes, o: nat, d: Bytes)
    requires |f| == 104 && o + 8 <= 104 && |d| >= 110 && d[..110] == MAGIC + f
    ensures d[6 + o..6 + o + 8] == f[o..o + 8]
  {
    assert |MAGIC| == 6;
    assert (MAGIC + f)[6 + o..6 + o + 8] == f[o..o + 8];
    assert d[6 + o..6 + o + 8] == d[..110][6 + o..6 + o + 8];
  }

  lemma HeadFields(fs: seq<nat>, d: Bytes, h: Head)
    requires |fs| == 13 && |d| >= 110 && d[..110] == MAGIC + Fields(fs)
    requires h == Head(fs[0], fs[1], fs[6], fs[9], fs[10], fs[11])
    requires h.ino < TWO32 && h.mode < TWO32 && h.size < TWO32 && h.major < TWO32 && h.minor < TWO32 && h.nlen < TWO32
    ensures ReadHead(d) == Some(h)
  {
    FieldReads(fs, 0, d, 6, h.ino);
    FieldReads(fs, 1, d, 14, h.mode);
    FieldReads(fs, 6, d, 54, h.size);
    FieldReads(fs, 9, d, 78, h.major);
    FieldReads(fs, 10, d, 86, h.minor);
    FieldReads(fs, 11, d, 94, h.nlen);
  }

  lemma HeadBack(r: Rec, d: Bytes)
    requires Small(r) && |d| >= 110 && d[..110] == Header(r)
    ensures d[..6] == MAGIC && ReadHead(d) == Some(Head(r.ino, r.mode, |r.data|, r.major, r.minor, |r.name| + 1))
  {
    var fs := [r.ino, r.mode, 0, 0, 1, 0, |r.data|, 0, 0, r.major, r.minor, |r.name| + 1, 0];
    HeadFields(fs, d, Head(r.ino, r.mode, |r.data|, r.major, r.minor, |r.name| + 1));
    assert d[..6] == d[..110][..6] == MAGIC;
  }

  lemma BodySlices(h: Bytes, name: Bytes, pad: Bytes, data: Bytes, end: Bytes, rest: Bytes, d: Bytes)
    requires d == h + name + [NUL] + pad + data + end + rest && |h| == 110
    ensures var body := 110 + |name| + 1 + |pad|;
            && d[..110] == h && d[110..110 + |name|] == name && d[body..body + |data|] == data
            && d[body + |data| + |end|..] == rest
  {
  }

  lemma OneBack(r: Rec, rest: Bytes, d: Bytes)
    requires Small(r) && d == Record(r) + rest
    ensures ReadOne(d) == Some((r, Span(|r.name| + 1, |r.data|))) && After(d, Span(|r.name| + 1, |r.data|)) == rest
  {
    var pad, end := Zeros(Pad(110 + |r.name| + 1)), Zeros(Pad(|r.data|));
    BodySlices(Header(r), r.name, pad, r.data, end, rest, d);
    HeadBack(r, d);
  }

  lemma NextBack(r: Rec, rest: Bytes, d: Bytes, more: Option<seq<Rec>>)
    requires Small(r) && r.name != TRAILER && d == Record(r) + rest && more == ReadRecs(rest)
    ensures ReadRecs(d) == Before(r, more)
  {
    OneBack(r, rest, d);
  }

  function Prepend(rs: seq<Rec>, more: Option<seq<Rec>>): Option<seq<Rec>> { if more.None? then None else Some(rs + more.value) }

  lemma BeforePrepend(r: Rec, rs: seq<Rec>, more: Option<seq<Rec>>)
    ensures Before(r, Prepend(rs, more)) == Prepend([r] + rs, more)
  {
    assert more.Some? ==> [r] + (rs + more.value) == [r] + rs + more.value;
  }

  lemma ConsBack(r: Rec, rs: seq<Rec>, flat: Bytes, tail: Bytes, d: Bytes, more: Option<seq<Rec>>)
    requires Small(r) && r.name != TRAILER && d == Record(r) + flat + tail && ReadRecs(flat + tail) == Prepend(rs, more)
    ensures ReadRecs(d) == Prepend([r] + rs, more)
  {
    Assoc(Record(r), flat, tail);
    NextBack(r, flat + tail, d, Prepend(rs, more));
    BeforePrepend(r, rs, more);
  }

  lemma {:induction false} FlatBack(rs: seq<Rec>, tail: Bytes, d: Bytes, more: Option<seq<Rec>>)
    requires (forall i :: 0 <= i < |rs| ==> Small(rs[i]) && rs[i].name != TRAILER) && d == Flat(rs) + tail && more == ReadRecs(tail)
    ensures ReadRecs(d) == Prepend(rs, more)
    decreases |rs|
  {
    if rs == [] {
      assert d == tail;
      assert more.Some? ==> [] + more.value == more.value;
    } else {
      FlatBack(rs[1..], tail, Flat(rs[1..]) + tail, more);
      ConsBack(rs[0], rs[1..], Flat(rs[1..]), tail, d, more);
      assert [rs[0]] + rs[1..] == rs;
    }
  }

  lemma TrailerBack(r: Rec, rest: Bytes, d: Bytes)
    requires Small(r) && r.name == TRAILER && d == Record(r) + rest
    ensures ReadRecs(d) == ReadTail(rest)
  {
    OneBack(r, rest, d);
  }

  lemma NoZeroes(d: Bytes)
    requires d == [] || d[0] != NUL
    ensures ReadTail(d) == ReadRecs(d)
  {
    assert d[0..] == d;
  }

  /** Records and a trailer in front of anything. */
  lemma ArchiveBack(rs: seq<Rec>, trailer: Rec, rest: Bytes, d: Bytes, more: Option<seq<Rec>>)
    requires forall i :: 0 <= i < |rs| ==> Small(rs[i]) && rs[i].name != TRAILER
    requires Small(trailer) && trailer.name == TRAILER
    requires d == Flat(rs) + Record(trailer) + rest && more == ReadTail(rest)
    ensures ReadRecs(d) == Prepend(rs, more)
  {
    TrailerBack(trailer, rest, Record(trailer) + rest);
    Assoc(Flat(rs), Record(trailer), rest);
    FlatBack(rs, Record(trailer) + rest, d, more);
  }

  // ---- a stream with more behind it

  /** A stream of whole words that can be read to its end. */
  predicate Readable(d: Bytes) { |d| % 4 == 0 && ReadRecs(d).Some? }

  /** The same behind a trailer. */
  predicate Continues(d: Bytes) { |d| % 4 == 0 && ReadTail(d).Some? }

  /** No record, but the front of one. */
  ghost predicate FrontOfRecord(d: Bytes) {
    d != [] && ReadOne(d).None? && exists more :: ReadOne(d + more).Some?
  }

  /** The stream ends inside a record. */
  ghost predicate Cut(d: Bytes)
    decreases |d|, 1
  {
    FrontOfRecord(d) ||
    match ReadOne(d)
    case None => false
    case Some((r, n)) => if d == [] then false else if r.name != TRAILER then Cut(After(d, n)) else CutTail(After(d, n))
  }

  ghost predicate CutTail(d: Bytes)
    decreases |d|, 2
  {
    match AfterTrailer(d)
    case None => false
    case Some(rest) => if |rest| <= |d| then Cut(rest) else false
  }

  lemma SpanWords(nlen: nat, size: nat)
    ensures Span(nlen, size) % 4 == 0
  {
    var a, b := (110 + nlen + Pad(110 + nlen)) / 4, (size + Pad(size)) / 4;
    assert Span(nlen, size) == 4 * (a + b);
  }

  lemma OneLonger(d: Bytes, rest: Bytes)
    requires ReadOne(d).Some?
    ensures ReadOne(d + rest) == ReadOne(d) && ReadOne(d).value.1 <= |d| && ReadOne(d).value.1 % 4 == 0
  {
    var e := d + rest;
    HeadLonger(d, rest);
    var h := ReadHead(d).value;
    SpanWords(h.nlen, h.size);
    var body := 110 + h.nlen + Pad(110 + h.nlen);
    assert e[110..110 + h.nlen - 1] == d[110..110 + h.nlen - 1] && e[body..body + h.size] == d[body..body + h.size];
  }

  lemma {:induction false} ZeroesLonger(d: Bytes, rest: Bytes)
    requires rest == [] || rest[0] != NUL
    ensures Zeroes(d + rest) == Zeroes(d)
  {
    if d == [] {
      assert d + rest == rest;
    } else if d[0] == NUL {
      ZeroesLonger(d[1..], rest);
      assert (d + rest)[1..] == d[1..] + rest;
    }
  }

  lemma AfterLonger(d: Bytes, n: nat, rest: Bytes)
    requires n <= |d|
    ensures After(d + rest, n) == After(d, n) + rest && |After(d, n)| == |d| - n
  {
    assert (d + rest)[n..] == d[n..] + rest;
  }

  lemma WordsLeft(m: nat, n: nat)
    requires n % 4 == 0 && n <= m
    ensures (m - n) % 4 == 0 <==> m % 4 == 0
  {
    assert m - n == m - 4 * (n / 4);
  }

  lemma AfterZeroes(d: Bytes)
    ensures AfterTrailer(d).Some? ==> |AfterTrailer(d).value| <= |d|
  {
  }

  /** A stream with a readable one behind it: read to its end and on, exactly when it can be read by itself, provided that it
      does not end inside a record. */
  lemma {:induction false} ReadExact(d: Bytes, rest: Bytes, more: Option<seq<Rec>>)
    requires !Cut(d) && rest != [] && rest[0] != NUL && more == ReadRecs(rest)
    ensures ReadRecs(d + rest) == if Readable(d) then Prepend(ReadRecs(d).value, more) else None
    decreases |d|, 1
  {
    if d == [] {
      assert d + rest == rest;
      assert more.Some? ==> [] + more.value == more.value;
    } else if ReadOne(d).None? {
      assert ReadOne(d + rest).None?;
    } else {
      OneLonger(d, rest);
      var (r, n) := ReadOne(d).value;
      AfterLonger(d, n, rest);
      WordsLeft(|d|, n);
      var d' := After(d, n);
      if r.name != TRAILER {
        ReadExact(d', rest, more);
        RecordStep(d, r, n, d');
        RecordStep(d + rest, r, n, d' + rest);
        if Readable(d') {
          BeforePrepend(r, ReadRecs(d').value, more);
        }
      } else {
        TailExact(d', rest, more);
        TrailerStep(d, r, n, d');
        TrailerStep(d + rest, r, n, d' + rest);
      }
    }
  }

  /** The same behind a trailer. */
  lemma {:induction false} TailExact(d: Bytes, rest: Bytes, more: Option<seq<Rec>>)
    requires !CutTail(d) && rest != [] && rest[0] != NUL && more == ReadRecs(rest)
    ensures ReadTail(d + rest) == if Continues(d) then Prepend(ReadTail(d).value, more) else None
    decreases |d|, 2
  {
    if Zeroes(d) == |d| {
      OnlyZeroes(d, rest);
      assert more.Some? ==> [] + more.value == more.value;
    } else {
      SomeZeroes(d, rest);
      if AfterTrailer(d).Some? {
        ReadExact(AfterTrailer(d).value, rest, more);
      }
    }
  }

  lemma OnlyZeroes(d: Bytes, rest: Bytes)
    requires Zeroes(d) == |d| && rest != [] && rest[0] != NUL
    ensures AfterTrailer(d) == Some([]) && AfterTrailer(d + rest) == if |d| % 4 == 0 then Some(rest) else None
  {
    ZeroesLonger(d, rest);
    assert (d + rest)[|d|..] == rest;
  }

  lemma SomeZeroes(d: Bytes, rest: Bytes)
    requires Zeroes(d) < |d| && rest != [] && rest[0] != NUL
    ensures AfterTrailer(d + rest) == if AfterTrailer(d).None? then None else Some(AfterTrailer(d).value + rest)
    ensures AfterTrailer(d).Some? ==> (|AfterTrailer(d).value| % 4 == 0 <==> |d| % 4 == 0) && |AfterTrailer(d).value| <= |d|
  {
    ZeroesLonger(d, rest);
    assert (d + rest)[Zeroes(d)..] == d[Zeroes(d)..] + rest;
    Dropped(d, Zeroes(d));
  }

  lemma Dropped(d: Bytes, z: nat)
    requires z <= |d|
    ensures |d[z..]| <= |d| && (z % 4 == 0 ==> (|d[z..]| % 4 == 0 <==> |d| % 4 == 0))
  {
    if z % 4 == 0 {
      WordsLeft(|d|, z);
    }
  }

  lemma RecordStep(d: Bytes, r: Rec, n: nat, d': Bytes)
    requires ReadOne(d) == Some((r, n)) && r.name != TRAILER && d' == After(d, n)
    ensures ReadRecs(d) == Before(r, ReadRecs(d')) && n > 0
  {
  }

  lemma TrailerStep(d: Bytes, r: Rec, n: nat, d': Bytes)
    requires ReadOne(d) == Some((r, n)) && r.name == TRAILER && d' == After(d, n)
    ensures n > 0 && |d'| < |d| && ReadRecs(d) == ReadTail(d')
  {
    AfterZeroes(d');
  }

  // ---- what is cut and what is not

  /** A header that can be read is the front of a record; one that cannot is not. */
  lemma HeaderDecides(d: Bytes)
    requires |d| >= 110
    ensures FrontOfRecord(d) <==> d[..6] == MAGIC && ReadHead(d).Some? && ReadHead(d).value.nlen > 0 && |d| < Length(ReadHead(d).value)
  {
    if d[..6] == MAGIC && ReadHead(d).Some? && ReadHead(d).value.nlen > 0 && |d| < Length(ReadHead(d).value) {
      var more := Zeros(Length(ReadHead(d).value));
      HeadLonger(d, more);
      assert ReadOne(d + more).Some?;
    } else if more :| FrontOfRecord(d) && ReadOne(d + more).Some? {
      HeadLonger(d, more);
    }
  }

  lemma HeadLonger(d: Bytes, rest: Bytes)
    requires |d| >= 110
    ensures ReadHead(d + rest) == ReadHead(d) && (d + rest)[..6] == d[..6]
  {
    var e := d + rest;
    assert e[..6] == d[..6] && e[6..14] == d[6..14] && e[14..22] == d[14..22] && e[54..62] == d[54..62];
    assert e[78..86] == d[78..86] && e[86..94] == d[86..94] && e[94..102] == d[94..102];
  }

  /** Records in front of the front of one more. */
  lemma {:induction false} CutBehind(rs: seq<Rec>, c: Bytes, d: Bytes)
    requires (forall i :: 0 <= i < |rs| ==> Small(rs[i]) && rs[i].name != TRAILER) && FrontOfRecord(c) && d == Flat(rs) + c
    ensures Cut(d)
    decreases |rs|
  {
    if rs == [] {
      assert d == c;
    } else {
      var rest := Flat(rs[1..]) + c;
      Assoc(Record(rs[0]), Flat(rs[1..]), c);
      OneBack(rs[0], rest, d);
      CutBehind(rs[1..], c, rest);
    }
  }

  /** A record up to its data. */
  function UpToData(x: Rec): Bytes { Header(x) + x.name + [NUL] + Zeros(Pad(110 + |x.name| + 1)) }

  lemma DataCompletes(x: Rec)
    requires |x.data| % 4 == 0
    ensures UpToData(x) + x.data == Record(x)
  {
    assert Zeros(Pad(|x.data|)) == [];
    assert Record(x) == UpToData(x) + x.data + [];
  }

  /** A record without its data is the front of one. */
  lemma HeadIsFront(x: Rec, c: Bytes)
    requires Small(x) && x.data != [] && |x.data| % 4 == 0 && c + x.data == Record(x)
    ensures FrontOfRecord(c) && c[0] != NUL
  {
    var d := Record(x);
    assert |d| == 110 + |x.name| + 1 + Pad(110 + |x.name| + 1) + |x.data|;
    assert d[..110] == Header(x);
    HeadBack(x, d);
    HeadLonger(c, x.data);
    HeaderDecides(c);
    assert c[0] == c[..6][0] == MAGIC[0];
  }

  /** Data that begins with neither a zero nor a record. */
  lemma JunkStops(junk: Bytes)
    requires junk != [] && junk[0] != NUL && junk[0] != MAGIC[0]
    ensures !CutTail(junk) && !Continues(junk)
  {
    assert AfterTrailer(junk) == Some(junk);
    forall more
      ensures ReadOne(junk + more).None?
    {
      var d := junk + more;
      assert |d| >= 6 ==> d[..6][0] == junk[0];
    }
    assert junk + [] == junk;
  }
}
