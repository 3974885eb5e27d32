/** The lines of a .po file, read into entries. */
module PoText {
  import opened Bytes
  import opened Text
  import opened Lmo
  import opened LmoCompile

  const LINE_MAX := 4095
  const QUOTE: byte := 34
  const HASH: byte := 35
  const MSGID: Bytes := [109, 115, 103, 105, 100, 32]
  const MSGSTR: Bytes := [109, 115, 103, 115, 116, 114, 32]
  const MSGCTXT: Bytes := [109, 115, 103, 99, 116, 120, 116]
  const MSGID_PLURAL: Bytes := [109, 115, 103, 105, 100, 95, 112, 108, 117, 114, 97, 108]
  const MSGSTR_N: Bytes := [109, 115, 103, 115, 116, 114, 91]

  predicate Blank(b: byte) { b == SPACE || 9 <= b <= 13 }

  function LStrip(s: Bytes): Bytes { if s != [] && Blank(s[0]) then LStrip(s[1..]) else s }

  function RStrip(s: Bytes): Bytes { if s != [] && Blank(s[|s| - 1]) then RStrip(s[..|s| - 1]) else s }

  function Strip(s: Bytes): Bytes { RStrip(LStrip(s)) }

  // ---- quoted strings

  /** The rest of a quoted string: up to the closing quote, which only blanks may follow. A backslash before a quote or a
      backslash goes, any other backslash stays. */
  function Unquote(s: Bytes, esc: bool): Option<Bytes>
    decreases |s|
  {
    if s == [] then None
    else if esc then Before(if s[0] == QUOTE || s[0] == BACKSLASH then [s[0]] else [BACKSLASH, s[0]], Unquote(s[1..], false))
    else if s[0] == BACKSLASH then Unquote(s[1..], true)
    else if s[0] == QUOTE then (if Strip(s[1..]) == [] then Some([]) else None)
    else Before([s[0]], Unquote(s[1..], false))
  }

  function Before(a: Bytes, r: Option<Bytes>): Option<Bytes> { if r.None? then None else Some(a + r.value) }

  function StringOf(rest: Bytes): Option<Bytes> {
    if rest == [] || rest[0] != QUOTE then None else Unquote(rest[1..], false)
  }

  /** `_string` */
  method StringRun(rest: Bytes) returns (r: Option<Bytes>)
    ensures r == StringOf(rest)
  {
    if rest == [] || rest[0] != QUOTE {
      return None;
    }
    var out: Bytes := [];
    var esc, j := false, 1;
    assert Before([], Unquote(rest[1..], false)) == Unquote(rest[1..], false) by {
      BeforeNothing(Unquote(rest[1..], false));
    }
    while j < |rest|
      invariant 1 <= j <= |rest|
      invariant StringOf(rest) == Before(out, Unquote(rest[j..], esc))
    {
      var c := rest[j];
      assert rest[j..][0] == c && rest[j..][1..] == rest[j + 1..];
      if esc {
        var piece: Bytes := if c == QUOTE || c == BACKSLASH then [c] else [BACKSLASH, c];
        BeforeMore(out, piece, Unquote(rest[j + 1..], false));
        out := out + piece;
        esc := false;
      } else if c == BACKSLASH {
        esc := true;
      } else if c == QUOTE {
        assert out + [] == out;
        return if Strip(rest[j + 1..]) == [] then Some(out) else None;
      } else {
        BeforeMore(out, [c], Unquote(rest[j + 1..], false));
        out := out + [c];
      }
      j := j + 1;
    }
    r := None;
  }

  lemma BeforeNothing(r: Option<Bytes>)
    ensures Before([], r) == r
  {
    assert r.Some? ==> [] + r.value == r.value;
  }

  lemma BeforeMore(a: Bytes, b: Bytes, r: Option<Bytes>)
    ensures Before(a + b, r) == Before(a, Before(b, r))
  {
    assert r.Some? ==> a + b + r.value == a + (b + r.value);
  }

  // ---- lines

  datatype Cur = Cur(msgid: Bytes, msgstr: Option<Bytes>)
  datatype Reading = Reading(done: seq<Entry>, cur: Option<Cur>, inStr: bool)

  const FIRST := Reading([], None, false)

  /** The entry being read is ended. */
  function Finish(s: Reading): Option<seq<Entry>> {
    if s.cur.None? then Some(s.done)
    else if s.cur.value.msgstr.None? then None
    else Some(s.done + [Entry(s.cur.value.msgid, s.cur.value.msgstr.value)])
  }

  function OnMsgid(s: Reading, text: Bytes): Option<Reading> {
    match Finish(s)
    case None => None
    case Some(done) =>
      match StringOf(LStrip(text))
      case None => None
      case Some(id) => Some(Reading(done, Some(Cur(id, None)), false))
  }

  function OnMsgstr(s: Reading, text: Bytes): Option<Reading> {
    if s.cur.None? || s.cur.value.msgstr.Some? then None
    else match StringOf(LStrip(text))
         case None => None
         case Some(str) => Some(s.(cur := Some(s.cur.value.(msgstr := Some(str))), inStr := true))
  }

  function OnMore(s: Reading, text: Bytes): Option<Reading> {
    if s.cur.None? then None
    else match StringOf(text)
         case None => None
         case Some(more) =>
           if !s.inStr then Some(s.(cur := Some(s.cur.value.(msgid := s.cur.value.msgid + more))))
           else if s.cur.value.msgstr.Some? then Some(s.(cur := Some(s.cur.value.(msgstr := Some(s.cur.value.msgstr.value + more)))))
           else None
  }

  /** One line; nothing where it is refused. */
  function OnLine(s: Reading, line: Bytes): Option<Reading> {
    if |line| + 1 > LINE_MAX then None
    else
      var t := Strip(line);
      if t == [] || t[0] == HASH then Some(s)
      else if MSGCTXT <= t || MSGID_PLURAL <= t || MSGSTR_N <= t then None
      else if MSGID <= t then OnMsgid(s, t[6..])
      else if MSGSTR <= t then OnMsgstr(s, t[7..])
      else if t[0] == QUOTE then OnMore(s, t)
      else None
  }

  function OnLines(s: Reading, lines: seq<Bytes>): Option<Reading>
    decreases |lines|
  {
    if lines == [] then Some(s)
    else match OnLine(s, lines[0])
         case None => None
         case Some(s') => OnLines(s', lines[1..])
  }

  /** The entries of a .po text; nothing where it is refused. */
  function ReadPo(text: Bytes): Option<seq<Entry>> {
    match OnLines(FIRST, Split(text, NEWLINE))
    case None => None
    case Some(s) => Finish(s)
  }

  method ReadPoRun(text: Bytes) returns (r: Option<seq<Entry>>)
    ensures r == ReadPo(text)
  {
    var lines := Split(text, NEWLINE);
    var s, i := FIRST, 0;
    assert lines[0..] == lines;
    while i < |lines|
      invariant 0 <= i <= |lines|
      invariant OnLines(FIRST, lines) == OnLines(s, lines[i..])
    {
      assert lines[i..][0] == lines[i] && lines[i..][1..] == lines[i + 1..];
      var next := OnLine(s, lines[i]);
      if next.None? {
        return None;
      }
      s := next.value;
      i := i + 1;
    }
    r := Finish(s);
  }

  // ---- there and back

  function Quoted(s: Bytes): Bytes {
    if s == [] then [QUOTE] else (if s[0] == QUOTE || s[0] == BACKSLASH then [BACKSLASH, s[0]] else [s[0]]) + Quoted(s[1..])
  }

  lemma {:induction false} QuotedBack(s: Bytes)
    ensures Unquote(Quoted(s), false) == Some(s)
  {
    var q := Quoted(s);
    if s == [] {
      assert q[1..] == [];
    } else {
      QuotedBack(s[1..]);
      if s[0] == QUOTE || s[0] == BACKSLASH {
        assert q[1..] == [s[0]] + Quoted(s[1..]);
        assert q[1..][1..] == Quoted(s[1..]);
      } else {
        assert q[1..] == Quoted(s[1..]);
      }
      assert [s[0]] + s[1..] == s;
    }
  }

  lemma {:induction false} QuotedEnds(s: Bytes)
    ensures Quoted(s) != [] && Quoted(s)[|Quoted(s)| - 1] == QUOTE && (NEWLINE !in s ==> NEWLINE !in Quoted(s))
  {
    if s != [] {
      QuotedEnds(s[1..]);
    }
  }

  function LineOf(word: Bytes, s: Bytes): Bytes { word + [QUOTE] + Quoted(s) }

  /** An entry as it is written: its two strings, each in one or more pieces, a line a piece. */
  datatype Written = Written(id: seq<Bytes>, str: seq<Bytes>)

  function Whole(ps: seq<Bytes>): Bytes { if ps == [] then [] else ps[0] + Whole(ps[1..]) }

  function EntryOf(w: Written): Entry { Entry(Whole(w.id), Whole(w.str)) }

  function EntriesOf(ws: seq<Written>): seq<Entry> { seq(|ws|, i requires 0 <= i < |ws| => EntryOf(ws[i])) }

  predicate PieceFits(word: Bytes, p: Bytes) { NEWLINE !in p && |LineOf(word, p)| + 1 <= LINE_MAX }

  predicate PiecesFit(word: Bytes, ps: seq<Bytes>) {
    ps != [] && PieceFits(word, ps[0]) && forall i :: 1 <= i < |ps| ==> PieceFits([], ps[i])
  }

  predicate Writable(w: Written) { PiecesFit(MSGID, w.id) && PiecesFit(MSGSTR, w.str) }

  function MoreLines(ps: seq<Bytes>): seq<Bytes> { if ps == [] then [] else [LineOf([], ps[0])] + MoreLines(ps[1..]) }

  function StringLines(word: Bytes, ps: seq<Bytes>): seq<Bytes> {
    if ps == [] then [] else [LineOf(word, ps[0])] + MoreLines(ps[1..])
  }

  function EntryLines(w: Written): seq<Bytes> { StringLines(MSGID, w.id) + StringLines(MSGSTR, w.str) }

  function LinesOf(ws: seq<Written>): seq<Bytes> {
    if ws == [] then [] else LinesOf(ws[..|ws| - 1]) + EntryLines(ws[|ws| - 1])
  }

  lemma StripNothing(word: Bytes, s: Bytes)
    requires word != [] ==> !Blank(word[0])
    ensures Strip(LineOf(word, s)) == LineOf(word, s)
  {
    QuotedEnds(s);
    var line := LineOf(word, s);
    assert line[0] == (if word == [] then QUOTE else word[0]) && line[|line| - 1] == QUOTE;
  }

  lemma StringBack(s: Bytes)
    ensures StringOf(LStrip([QUOTE] + Quoted(s))) == Some(s)
  {
    var q := [QUOTE] + Quoted(s);
    assert LStrip(q) == q && q[1..] == Quoted(s);
    QuotedBack(s);
  }

  lemma MsgidLine(s: Reading, id: Bytes)
    requires Finish(s).Some? && |LineOf(MSGID, id)| + 1 <= LINE_MAX
    ensures OnLine(s, LineOf(MSGID, id)) == Some(Reading(Finish(s).value, Some(Cur(id, None)), false))
  {
    var t := LineOf(MSGID, id);
    StripNothing(MSGID, id);
    assert t[0] == 109 && t[3] == 105 && t[5] == 32;
    assert MSGCTXT[3] != t[3] && MSGID_PLURAL[5] != t[5] && MSGSTR_N[3] != t[3];
    assert MSGID <= t && t[6..] == [QUOTE] + Quoted(id);
    StringBack(id);
  }

  lemma MsgstrLine(s: Reading, str: Bytes)
    requires s.cur.Some? && s.cur.value.msgstr.None? && |LineOf(MSGSTR, str)| + 1 <= LINE_MAX
    ensures OnLine(s, LineOf(MSGSTR, str)) == Some(s.(cur := Some(s.cur.value.(msgstr := Some(str))), inStr := true))
  {
    var t := LineOf(MSGSTR, str);
    StripNothing(MSGSTR, str);
    assert t[0] == 109 && t[3] == 115 && t[6] == 32;
    assert MSGCTXT[3] != t[3] && MSGID_PLURAL[3] != t[3] && MSGSTR_N[6] != t[6] && MSGID[3] != t[3];
    assert MSGSTR <= t && t[7..] == [QUOTE] + Quoted(str);
    StringBack(str);
  }

  lemma {:induction false} OnLinesAppend(s: Reading, a: seq<Bytes>, b: seq<Bytes>)
    ensures OnLines(s, a + b) == match OnLines(s, a) case None => None case Some(s') => OnLines(s', b)
    decreases |a|
  {
    if a == [] {
      assert a + b == b;
    } else {
      assert (a + b)[0] == a[0] && (a + b)[1..] == a[1..] + b;
      if OnLine(s, a[0]).Some? {
        OnLinesAppend(OnLine(s, a[0]).value, a[1..], b);
      }
    }
  }

  /** The string being read with more at its end. */
  function Longer(s: Reading, more: Bytes): Reading
    requires s.cur.Some? && (s.inStr ==> s.cur.value.msgstr.Some?)
  {
    var c := s.cur.value;
    s.(cur := Some(if s.inStr then c.(msgstr := Some(c.msgstr.value + more)) else c.(msgid := c.msgid + more)))
  }

  /** A line that starts with a quote continues a string. */
  lemma QuoteLine(s: Reading, t: Bytes)
    requires t != [] && t[0] == QUOTE && Strip(t) == t && |t| + 1 <= LINE_MAX
    ensures OnLine(s, t) == OnMore(s, t)
  {
    assert MSGCTXT[0] != t[0] && MSGID_PLURAL[0] != t[0] && MSGSTR_N[0] != t[0] && MSGID[0] != t[0] && MSGSTR[0] != t[0];
  }

  lemma MoreLonger(s: Reading, t: Bytes, p: Bytes)
    requires s.cur.Some? && (s.inStr ==> s.cur.value.msgstr.Some?) && StringOf(t) == Some(p)
    ensures OnMore(s, t) == Some(Longer(s, p))
  {
  }

  lemma MoreLine(s: Reading, p: Bytes)
    requires s.cur.Some? && (s.inStr ==> s.cur.value.msgstr.Some?) && PieceFits([], p)
    ensures OnLine(s, LineOf([], p)) == Some(Longer(s, p))
  {
    var t := LineOf([], p);
    StripNothing([], p);
    assert t == [QUOTE] + Quoted(p) && t[1..] == Quoted(p);
    QuotedBack(p);
    QuoteLine(s, t);
    MoreLonger(s, t, p);
  }

  lemma {:induction false} MoreBack(s: Reading, ps: seq<Bytes>)
    requires s.cur.Some? && (s.inStr ==> s.cur.value.msgstr.Some?) && forall i :: 0 <= i < |ps| ==> PieceFits([], ps[i])
    ensures OnLines(s, MoreLines(ps)) == Some(Longer(s, Whole(ps)))
    decreases |ps|
  {
    if ps == [] {
      LongerNot(s);
    } else {
      MoreLine(s, ps[0]);
      MoreBack(Longer(s, ps[0]), ps[1..]);
      LongerTwice(s, ps[0], Whole(ps[1..]));
    }
  }

  lemma LongerNot(s: Reading)
    requires s.cur.Some? && (s.inStr ==> s.cur.value.msgstr.Some?)
    ensures Longer(s, []) == s
  {
    var c := s.cur.value;
    assert c.msgid + [] == c.msgid && (c.msgstr.Some? ==> c.msgstr.value + [] == c.msgstr.value);
  }

  lemma LongerTwice(s: Reading, a: Bytes, b: Bytes)
    requires s.cur.Some? && (s.inStr ==> s.cur.value.msgstr.Some?)
    ensures Longer(Longer(s, a), b) == Longer(s, a + b)
  {
    var c := s.cur.value;
    assert c.msgid + a + b == c.msgid + (a + b);
    assert c.msgstr.Some? ==> c.msgstr.value + a + b == c.msgstr.value + (a + b);
  }

  /** The lines of one string: the keyword's line makes `mid` of `s`, the others make it longer. */
  lemma StringBackAll(s: Reading, word: Bytes, ps: seq<Bytes>, mid: Reading)
    requires PiecesFit(word, ps) && mid.cur.Some? && (mid.inStr ==> mid.cur.value.msgstr.Some?)
    requires OnLine(s, LineOf(word, ps[0])) == Some(mid)
    ensures OnLines(s, StringLines(word, ps)) == Some(Longer(mid, Whole(ps[1..])))
  {
    var ls := StringLines(word, ps);
    assert ls[0] == LineOf(word, ps[0]) && ls[1..] == MoreLines(ps[1..]);
    MoreBack(mid, ps[1..]);
  }

  lemma EntryBack(s: Reading, w: Written)
    requires Finish(s).Some? && Writable(w)
    ensures OnLines(s, EntryLines(w)) == Some(Reading(Finish(s).value, Some(Cur(Whole(w.id), Some(Whole(w.str)))), true))
  {
    var begun := Reading(Finish(s).value, Some(Cur(w.id[0], None)), false);
    MsgidLine(s, w.id[0]);
    StringBackAll(s, MSGID, w.id, begun);
    var id := Reading(Finish(s).value, Some(Cur(Whole(w.id), None)), false);
    assert Longer(begun, Whole(w.id[1..])) == id;
    var str := id.(cur := Some(Cur(Whole(w.id), Some(w.str[0]))), inStr := true);
    MsgstrLine(id, w.str[0]);
    StringBackAll(id, MSGSTR, w.str, str);
    OnLinesAppend(s, StringLines(MSGID, w.id), StringLines(MSGSTR, w.str));
  }

  lemma {:induction false} LinesBack(ws: seq<Written>)
    requires forall i :: 0 <= i < |ws| ==> Writable(ws[i])
    ensures OnLines(FIRST, LinesOf(ws)).Some? && Finish(OnLines(FIRST, LinesOf(ws)).value) == Some(EntriesOf(ws))
    decreases |ws|
  {
    if ws == [] {
      assert EntriesOf(ws) == [];
    } else {
      var k := |ws| - 1;
      LinesBack(ws[..k]);
      OneMore(LinesOf(ws[..k]), EntriesOf(ws[..k]), ws[k]);
      LastEntry(ws, k);
    }
  }

  lemma LastEntry(ws: seq<Written>, k: nat)
    requires |ws| == k + 1
    ensures EntriesOf(ws) == EntriesOf(ws[..k]) + [EntryOf(ws[k])]
  {
  }

  lemma OneMore(ls: seq<Bytes>, es: seq<Entry>, w: Written)
    requires OnLines(FIRST, ls).Some? && Finish(OnLines(FIRST, ls).value) == Some(es) && Writable(w)
    ensures var r := OnLines(FIRST, ls + EntryLines(w)); r.Some? && Finish(r.value) == Some(es + [EntryOf(w)])
  {
    OnLinesAppend(FIRST, ls, EntryLines(w));
    EntryBack(OnLines(FIRST, ls).value, w);
  }

  lemma {:induction false} MoreClean(ps: seq<Bytes>)
    requires forall i :: 0 <= i < |ps| ==> NEWLINE !in ps[i]
    ensures forall i :: 0 <= i < |MoreLines(ps)| ==> NEWLINE !in MoreLines(ps)[i]
    decreases |ps|
  {
    if ps != [] {
      MoreClean(ps[1..]);
      QuotedEnds(ps[0]);
    }
  }

  lemma StringClean(word: Bytes, ps: seq<Bytes>)
    requires PiecesFit(word, ps) && NEWLINE !in word
    ensures forall i :: 0 <= i < |StringLines(word, ps)| ==> NEWLINE !in StringLines(word, ps)[i]
  {
    QuotedEnds(ps[0]);
    MoreClean(ps[1..]);
  }

  lemma {:induction false} LinesClean(ws: seq<Written>)
    requires forall i :: 0 <= i < |ws| ==> Writable(ws[i])
    ensures forall i :: 0 <= i < |LinesOf(ws)| ==> NEWLINE !in LinesOf(ws)[i]
    decreases |ws|
  {
    if ws != [] {
      LinesClean(ws[..|ws| - 1]);
      StringClean(MSGID, ws[|ws| - 1].id);
      StringClean(MSGSTR, ws[|ws| - 1].str);
    }
  }

  function WritePo(ws: seq<Written>): Bytes { Join(LinesOf(ws) + [[]], NEWLINE) }

  /** However its strings are broken into lines, an entry is read back whole. */
  lemma PoRoundTrip(ws: seq<Written>)
    requires forall i :: 0 <= i < |ws| ==> Writable(ws[i])
    ensures ReadPo(WritePo(ws)) == Some(EntriesOf(ws))
  {
    LinesClean(ws);
    SplitJoin(LinesOf(ws) + [[]], NEWLINE);
    LinesBack(ws);
    var s := OnLines(FIRST, LinesOf(ws)).value;
    OnLinesAppend(FIRST, LinesOf(ws), [[]]);
    BlankLine(s);
  }

  lemma BlankLine(s: Reading)
    ensures OnLines(s, [[]]) == Some(s)
  {
    var ls: seq<Bytes> := [[]];
    assert Strip(ls[0]) == [] && ls[1..] == [];
  }

  /** `compile_po` */
  method CompilePo(hash: Hash, text: Bytes) returns (r: Option<Bytes>)
    ensures r == match ReadPo(text) case None => None case Some(es) => Compiled(hash, es)
  {
    var es := ReadPoRun(text);
    if es.None? {
      return None;
    }
    r := Compile(hash, es.value);
  }

  // ---- from the text to a translation

  /** The text is compiled, and a kept entry of it has this key and this string. */
  ghost predicate Says(hash: Hash, text: Bytes, key: nat, str: Bytes) {
    && ReadPo(text).Some? && Compiled(hash, ReadPo(text).value).Some?
    && var es := ReadPo(text).value;
       exists i :: 0 <= i < |es| && Kept(hash, es[i]) && hash(es[i].msgid) == key && es[i].msgstr == str
  }

  /** Compile a .po text and look a string up: what the text says of it, and nothing where it says nothing. The key 0 is
      the header's. */
  method Translate(hash: Hash, text: Bytes, id: Bytes) returns (value: Option<Bytes>)
    ensures hash(id) != 0 && value.Some? ==> Says(hash, text, hash(id), value.value)
    ensures forall str :: hash(id) != 0 && Says(hash, text, hash(id), str) ==> value == Some(str)
  {
    var f := CompilePo(hash, text);
    if f.None? {
      return None;
    }
    ghost var es := ReadPo(text).value;
    if f.value == [] {
      NothingKept(hash, es);
      return None;
    }
    CompiledReads(hash, es, f.value);
    CatalogLaidOut(hash, es, f.value, Decode(f.value).value);
    value := Lookup(f.value, hash(id));
    Answers(hash, text, es, f.value, Decode(f.value).value, hash(id), value);
  }

  lemma NothingKept(hash: Hash, es: seq<Entry>)
    requires Compiled(hash, es) == Some([])
    ensures forall i :: 0 <= i < |es| ==> !Kept(hash, es[i])
  {
    forall i | 0 <= i < |es|
      ensures !Kept(hash, es[i])
    {
      if Kept(hash, es[i]) {
        KeptIsNonEmpty(hash, es, i);
      }
    }
  }

  /** What a lookup in the catalog of a text gives is what the text says. */
  lemma Answers(hash: Hash, text: Bytes, es: seq<Entry>, f: Bytes, c: Catalog, key: nat, value: Option<Bytes>)
    requires ReadPo(text) == Some(es) && Compiled(hash, es) == Some(f) && f != [] && Decode(f) == Some(c)
    requires value.Some? <==> HasKey(c.index, key)
    requires value.Some? ==> exists r :: r in c.index && r.key == key && value == Some(Content(c.values, r))
    ensures key != 0 && value.Some? ==> Says(hash, text, key, value.value)
    ensures forall str :: key != 0 && Says(hash, text, key, str) ==> value == Some(str)
  {
    if key != 0 && value.Some? {
      var r :| r in c.index && r.key == key && value == Some(Content(c.values, r));
      FoundIsKept(hash, es, f, c, r);
    }
    forall str | key != 0 && Says(hash, text, key, str)
      ensures value == Some(str)
    {
      var i :| 0 <= i < |es| && Kept(hash, es[i]) && hash(es[i].msgid) == key && es[i].msgstr == str;
      KeptIsFound(hash, es, f, c, i);
    }
  }
}
