/** Paths as the lists, manifests and logs of mu300-carry write them (tools/carry/mu300-carry.c:187-242). */
module Paths {
  import opened Bytes

  type Path = Bytes

  const LETTER_N: byte := 110

  /** `escaped` and `put_escaped`: a backslash doubled, a newline as backslash-n. */
  function Escape(p: Path): Bytes {
    if p == [] then []
    else if p[0] == BACKSLASH then [BACKSLASH, BACKSLASH] + Escape(p[1..])
    else if p[0] == NEWLINE then [BACKSLASH, LETTER_N] + Escape(p[1..])
    else [p[0]] + Escape(p[1..])
  }

  /** The decoding loop of `unescape`: stops at the line's newline. */
  function Unescape(line: Bytes): Path {
    if line == [] || line[0] == NEWLINE || line[0] == NUL then []
    else if line[0] == BACKSLASH && |line| > 1 && line[1] == LETTER_N then [NEWLINE] + Unescape(line[2..])
    else if line[0] == BACKSLASH && |line| > 1 && line[1] == BACKSLASH then [BACKSLASH] + Unescape(line[2..])
    else [line[0]] + Unescape(line[1..])
  }

  /** The part of `p` before its first slash. */
  function FirstPart(p: Path): (r: Path)
    ensures |r| <= |p|
  {
    if p == [] || p[0] == SLASH then [] else [p[0]] + FirstPart(p[1..])
  }

  predicate PlainPart(part: Path) {
    part != [] && part != [DOT] && part != [DOT, DOT]
  }

  /** The test `unescape` and `plain_path` share: no empty, "." or ".." part (so not empty and not absolute). */
  predicate Plain(p: Path)
    decreases |p|
  {
    var part := FirstPart(p);
    PlainPart(part) && (|part| < |p| ==> Plain(p[|part| + 1..]))
  }

  /** `plain_path` of tarfilter also refuses a newline. */
  predicate PlainPath(p: Path) {
    Plain(p) && NEWLINE !in p
  }

  /** Where the last slash of `p` is, or 0: `p[..LastSlash(p)]` is the directory `p`'s last part is in. */
  function LastSlash(p: Path): (k: nat)
    ensures k <= |p| && (p != [] ==> k < |p|)
  {
    if p == [] then 0
    else if p[|p| - 1] == SLASH then |p| - 1
    else LastSlash(p[..|p| - 1])
  }

  /** The directory of `p` ([] is the root). */
  function Parent(p: Path): Path {
    p[..LastSlash(p)]
  }

  /** `a` is a directory above `p`. */
  predicate Above(a: Path, p: Path)
    decreases |p|
  {
    p != [] && (Parent(p) == a || Above(a, Parent(p)))
  }

  /** What `Escape` writes on a line, `unescape` reads back, whatever follows the newline. */
  lemma {:induction false} EscapeRoundTrip(p: Path, rest: Bytes)
    requires NUL !in p
    ensures Unescape(Escape(p) + [NEWLINE] + rest) == p
  {
    var line := Escape(p) + [NEWLINE] + rest;
    if p == [] {
      assert line[0] == NEWLINE;
    } else {
      EscapeRoundTrip(p[1..], rest);
      var k := if p[0] == BACKSLASH || p[0] == NEWLINE then 2 else 1;
      assert line[k..] == Escape(p[1..]) + [NEWLINE] + rest;
    }
  }

  /** An escaped path holds no newline: it is one line of a list. */
  lemma {:induction false} EscapeIsOneLine(p: Path)
    ensures NEWLINE !in Escape(p)
    ensures NUL !in p ==> NUL !in Escape(p)
  {
    if p != [] {
      EscapeIsOneLine(p[1..]);
    }
  }

  lemma {:induction false} EscapeInjective(p: Path, q: Path)
    requires NUL !in p && NUL !in q
    requires Escape(p) == Escape(q)
    ensures p == q
  {
    EscapeRoundTrip(p, []);
    EscapeRoundTrip(q, []);
  }
}
