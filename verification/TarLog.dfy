/** tarfilter's log as text, and the program tarlink that reads it (tools/carry/mu300-carry.c:1165-1172, 1245-1247,
    1302-1416). */
module TarLog {
  import opened Bytes
  import opened Paths
  import opened TarFormat
  import opened TarFilter
  import opened DeltaStream
  import opened DeltaWorld
  import opened DeltaTree

  const KIND_D: byte := 68
  const KIND_E: byte := 69
  const KIND_H: byte := 72
  const KIND_T: byte := 84

  function Digits(n: nat): (r: Bytes)
    ensures |r| > 0 && NEWLINE !in r
  {
    if n < 10 then [48 + n] else Digits(n / 10) + [48 + n % 10]
  }

  /** One line of the log, its newline included. */
  function LineText(l: Line): Bytes {
    match l
    case D(p) => [KIND_D, SPACE] + Escape(p) + [NEWLINE]
    case H(p) => [KIND_H, SPACE] + Escape(p) + [NEWLINE]
    case T(p) => [KIND_T, SPACE] + Escape(p) + [NEWLINE]
    case E(a, b) => [KIND_E, SPACE] + (Digits(a) + [SPACE] + Digits(b)) + [NEWLINE]
  }

  function LogText(lines: seq<Line>): Bytes {
    if lines == [] then [] else LineText(lines[0]) + LogText(lines[1..])
  }

  /** The length of the first line of `text`, its newline included (getline). */
  function LineLen(text: Bytes): (k: nat)
    requires text != []
    ensures 0 < k <= |text|
  {
    if text[0] == NEWLINE || |text| == 1 then 1 else 1 + LineLen(text[1..])
  }

  /** One line as tarlink takes it: None where it dies. The numbers of an E line are not read. */
  function ParseLine(line: Bytes): Option<Line>
    requires line != []
  {
    if line[0] == KIND_E then Some(E(0, 0))
    else if line[0] !in {KIND_D, KIND_H, KIND_T} || |line| < 2 || line[1] != SPACE then None
    else
      var p := Unescape(line[2..]);
      if !Plain(p) then None
      else Some(if line[0] == KIND_D then D(p) else if line[0] == KIND_H then H(p) else T(p))
  }

  /** What one line does to NEW and to the H path that waits for its T line. */
  function LinkLine(c: Config, can: Linkable, w: World, h: Option<Path>, l: Line): Option<(World, Option<Path>)> {
    match l
    case D(p) =>
      var w' := LinkOld(c, can, w, p);
      if w'.None? then None else Some((w'.value, h))
    case H(p) => Some((w, Some(p)))
    case T(t) =>
      var w' := if h.None? then None else LinkNew(w, h.value, t);
      if w'.None? then None else Some((w'.value, None))
    case E(_, _) => Some((w, h))
  }

  /** cmd_tarlink over the text of a log: None where it dies, and when no E line says that the archive was read whole. */
  function LinkText(c: Config, can: Linkable, w: World, h: Option<Path>, ended: bool, text: Bytes): Option<World>
    decreases |text|
  {
    if text == [] then (if ended then Some(w) else None)
    else
      var k := LineLen(text);
      var l := ParseLine(text[..k]);
      if l.None? then None
      else
        var r := LinkLine(c, can, w, h, l.value);
        if r.None? then None else LinkText(c, can, r.value.0, r.value.1, ended || l.value.E?, text[k..])
  }

  /** The program. */
  method RunTarLink(c: Config, can: Linkable, w0: World, text: Bytes) returns (r: Option<World>)
    ensures r == LinkText(c, can, w0, None, false, text)
  {
    var w, rest := w0, text;
    var hpath: Option<Path> := None;
    var ended := false;
    while rest != []
      invariant LinkText(c, can, w0, None, false, text) == LinkText(c, can, w, hpath, ended, rest)
      decreases |rest|
    {
      var k := LineLen(rest);
      var line := rest[..k];
      rest := rest[k..];
      if line[0] == KIND_E {
        ended := true;
        continue;
      }
      if line[0] !in {KIND_D, KIND_H, KIND_T} || |line| < 2 || line[1] != SPACE {
        return None;
      }
      var path := Unescape(line[2..]);
      if !Plain(path) {
        return None;
      }
      if line[0] == KIND_H {
        hpath := Some(path);
        continue;
      }
      if line[0] == KIND_T {
        if hpath.None? {
          return None;
        }
        var made := LinkNew(w, hpath.value, path);
        if made.None? {
          return None;
        }
        w, hpath := made.value, None;
      } else {
        var made := LinkOld(c, can, w, path);
        if made.None? {
          return None;
        }
        w := made.value;
      }
    }
    r := if ended then Some(w) else None;
  }

  // ---- what is written is what is read

  /** A line whose path tarlink accepts. */
  predicate Writable(l: Line) {
    match l
    case D(p) => Plain(p) && NUL !in p
    case H(p) => Plain(p) && NUL !in p
    case T(p) => Plain(p) && NUL !in p
    case E(_, _) => true
  }

  /** A line whose path is a C string. */
  predicate CleanLine(l: Line) {
    match l
    case D(p) => NUL !in p
    case H(p) => NUL !in p
    case T(p) => NUL !in p
    case E(_, _) => true
  }

  lemma {:induction false} LineLenOf(body: Bytes, rest: Bytes)
    requires NEWLINE !in body
    ensures LineLen(body + [NEWLINE] + rest) == |body| + 1
  {
    var text := body + [NEWLINE] + rest;
    if body != [] {
      LineLenOf(body[1..], rest);
      assert text[1..] == body[1..] + [NEWLINE] + rest;
    }
  }

  function Unnumbered(l: Line): Line { if l.E? then E(0, 0) else l }

  /** A line of the log is read back as that line, or refused for a path that is not plain. */
  lemma LineRoundTrip(l: Line, rest: Bytes)
    requires CleanLine(l)
    ensures var text := LineText(l) + rest;
            && text != [] && LineLen(text) == |LineText(l)|
            && ParseLine(text[..LineLen(text)]) == if Writable(l) then Some(Unnumbered(l)) else None
  {
    var text := LineText(l) + rest;
    if l.E? {
      var body := [KIND_E, SPACE] + (Digits(l.leftOut) + [SPACE] + Digits(l.written));
      LineLenOf(body, rest);
      assert text == body + [NEWLINE] + rest;
    } else {
      var p := match l case D(p) => p case H(p) => p case T(p) => p;
      EscapeIsOneLine(p);
      var body := [LineText(l)[0], SPACE] + Escape(p);
      LineLenOf(body, rest);
      assert text == body + [NEWLINE] + rest;
      var line := text[..|body| + 1];
      EscapeRoundTrip(p, []);
      assert line[2..] == Escape(p) + [NEWLINE] + [];
    }
  }

  /** tarlink over the log's text is tarlink over its lines. */
  lemma {:induction false} LinkTextOf(c: Config, can: Linkable, w: World, h: Option<Path>, ended: bool, lines: seq<Line>)
    requires forall i :: 0 <= i < |lines| ==> Writable(lines[i])
    requires ended || exists i :: 0 <= i < |lines| && lines[i].E?
    ensures LinkText(c, can, w, h, ended, LogText(lines)) == TarLink(c, can, w, h, lines)
    decreases |lines|
  {
    if lines != [] {
      var l, rest := lines[0], LogText(lines[1..]);
      LineRoundTrip(l, rest);
      var text := LogText(lines);
      assert text[LineLen(text)..] == rest;
      var r := LinkLine(c, can, w, h, l);
      assert LinkLine(c, can, w, h, Unnumbered(l)) == r;
      if r.Some? {
        LinkTextOf(c, can, r.value.0, r.value.1, ended || l.E?, lines[1..]);
      }
    }
  }

  /** A line with a path that is not plain ends tarlink there, or it ended before. */
  lemma {:induction false} LinkTextStops(c: Config, can: Linkable, w: World, h: Option<Path>, ended: bool, lines: seq<Line>)
    requires (forall i :: 0 <= i < |lines| ==> CleanLine(lines[i])) && exists i :: 0 <= i < |lines| && !Writable(lines[i])
    ensures LinkText(c, can, w, h, ended, LogText(lines)).None?
    decreases |lines|
  {
    var l, rest := lines[0], LogText(lines[1..]);
    LineRoundTrip(l, rest);
    var text := LogText(lines);
    assert text[LineLen(text)..] == rest;
    if Writable(l) {
      var r := LinkLine(c, can, w, h, Unnumbered(l));
      var i :| 0 <= i < |lines| && !Writable(lines[i]);
      assert lines[1..][i - 1] == lines[i];
      if r.Some? {
        LinkTextStops(c, can, r.value.0, r.value.1, ended || l.E?, lines[1..]);
      }
    }
  }
}
