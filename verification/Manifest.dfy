/** The combined manifest: one text from which the manifest of each release can be taken again. A line stands in it once,
    behind the numbers of its releases, given as ranges (tools/image-manifest.py:117-165). */
module Manifest {
  import opened Bytes
  import opened Text

  const COMMA: byte := 44
  const DASH: byte := 45
  const ONE: Bytes := [49]
  const TAGS: Bytes := [116, 97, 103, 115]                // tags
  const MAGIC: Bytes := [109, 117, 51, 48, 48, 45, 105, 109, 97, 103, 101, 45, 109, 97, 110, 105, 102, 101, 115, 116]
                                                          // mu300-image-manifest

  datatype Man = Man(image: Bytes, tag: Bytes, lines: seq<Bytes>)

  // ---- ranges

  datatype Run = Run(first: nat, last: nat)

  predicate Increasing(ix: seq<nat>) {
    forall i, j :: 0 <= i < j < |ix| ==> ix[i] < ix[j]
  }

  /** The runs of a list of numbers whose part from `first` to `last` is read. */
  function RunsFrom(first: nat, last: nat, rest: seq<nat>): (r: seq<Run>)
    ensures |r| >= 1
    decreases |rest|
  {
    if rest == [] then [Run(first, last)]
    else if rest[0] == last + 1 then RunsFrom(first, rest[0], rest[1..])
    else [Run(first, last)] + RunsFrom(rest[0], rest[0], rest[1..])
  }

  function Runs(ix: seq<nat>): (r: seq<Run>)
    requires ix != []
    ensures |r| >= 1
  {
    RunsFrom(ix[0], ix[0], ix[1..])
  }

  function Within(r: Run, n: nat): nat {
    if r.first <= n <= r.last then 1 else 0
  }

  function CountWithin(rs: seq<Run>, n: nat): nat {
    if rs == [] then 0 else Within(rs[0], n) + CountWithin(rs[1..], n)
  }

  /** The numbers increase, from one above `last` on. */
  predicate After(last: nat, rest: seq<nat>)
    decreases |rest|
  {
    rest == [] || (last < rest[0] && After(rest[0], rest[1..]))
  }

  lemma {:induction false} AfterAll(last: nat, rest: seq<nat>)
    requires After(last, rest)
    ensures forall x :: x in rest ==> last < x
    decreases |rest|
  {
    if rest != [] {
      AfterAll(rest[0], rest[1..]);
      assert forall x :: x in rest ==> x == rest[0] || x in rest[1..];
    }
  }

  lemma {:induction false} IncreasingAfter(ix: seq<nat>)
    requires ix != [] && Increasing(ix)
    ensures After(ix[0], ix[1..])
  {
    if |ix| > 1 {
      IncreasingAfter(ix[1..]);
    }
  }

  lemma {:induction false} RunsFromExact(first: nat, last: nat, rest: seq<nat>, n: nat)
    requires first <= last && After(last, rest)
    ensures CountWithin(RunsFrom(first, last, rest), n) == if first <= n <= last || n in rest then 1 else 0
    decreases |rest|
  {
    if rest != [] {
      var x, tail := rest[0], rest[1..];
      AfterAll(x, tail);
      assert n in rest <==> n == x || n in tail;
      if x == last + 1 {
        RunsFromExact(first, x, tail, n);
      } else {
        RunsFromExact(x, x, tail, n);
        assert RunsFrom(first, last, rest)[1..] == RunsFrom(x, x, tail);
      }
    }
  }

  /** A number is in exactly one range if it is in the list, and in none if it is not. */
  lemma RunsExact(ix: seq<nat>, n: nat)
    requires ix != [] && Increasing(ix)
    ensures CountWithin(Runs(ix), n) == if n in ix then 1 else 0
  {
    IncreasingAfter(ix);
    AfterAll(ix[0], ix[1..]);
    RunsFromExact(ix[0], ix[0], ix[1..], n);
  }

  /** No two ranges could be one. */
  predicate Separate(rs: seq<Run>) {
    forall i :: 0 < i < |rs| ==> rs[i - 1].last + 1 < rs[i].first
  }

  lemma {:induction false} RunsFromSeparate(first: nat, last: nat, rest: seq<nat>)
    requires first <= last && After(last, rest)
    ensures Separate(RunsFrom(first, last, rest)) && RunsFrom(first, last, rest)[0].first == first
    decreases |rest|
  {
    if rest != [] {
      if rest[0] == last + 1 {
        RunsFromSeparate(first, rest[0], rest[1..]);
      } else {
        RunsFromSeparate(rest[0], rest[0], rest[1..]);
      }
    }
  }

  lemma RunsSeparate(ix: seq<nat>)
    requires ix != [] && Increasing(ix)
    ensures Separate(Runs(ix))
  {
    IncreasingAfter(ix);
    RunsFromSeparate(ix[0], ix[0], ix[1..]);
  }

  // ---- ranges as text

  function ShowRun(r: Run): Bytes {
    if r.first == r.last then Show(r.first) else Show(r.first) + [DASH] + Show(r.last)
  }

  function ShowRuns(rs: seq<Run>): Bytes
    requires rs != []
  {
    Join(seq(|rs|, i requires 0 <= i < |rs| => ShowRun(rs[i])), COMMA)
  }

  /** The test of one written range: nothing when a number in it cannot be read. */
  function Hit(r: Bytes, n: nat): Option<nat> {
    var p := Cut(r, DASH);
    match Number(p.before)
    case None => None
    case Some(a) =>
      if n < a then Some(0)
      else if p.after == [] then Some(if n <= a then 1 else 0)
      else match Number(p.after)
           case None => None
           case Some(b) => Some(if n <= b then 1 else 0)
  }

  function Hits(rs: seq<Bytes>, n: nat): Option<nat> {
    if rs == [] then Some(0)
    else match Hit(rs[0], n)
         case None => None
         case Some(k) => match Hits(rs[1..], n)
                         case None => None
                         case Some(j) => Some(k + j)
  }

  lemma NoDash(n: nat)
    ensures DASH !in Show(n) && COMMA !in Show(n) && SPACE !in Show(n) && NEWLINE !in Show(n)
  {
    assert Digits(Show(n));
  }

  lemma HitShown(r: Run, n: nat)
    requires r.first <= r.last
    ensures Hit(ShowRun(r), n) == Some(Within(r, n))
  {
    NoDash(r.first);
    NoDash(r.last);
    ShowRoundTrip(r.first);
    ShowRoundTrip(r.last);
    if r.first == r.last {
      CutNone(Show(r.first), DASH);
    } else {
      CutFirst(Show(r.first), DASH, Show(r.last));
    }
  }

  lemma {:induction false} HitsShown(rs: seq<Run>, ws: seq<Bytes>, n: nat)
    requires |ws| == |rs| && forall i :: 0 <= i < |rs| ==> rs[i].first <= rs[i].last && ws[i] == ShowRun(rs[i])
    ensures Hits(ws, n) == Some(CountWithin(rs, n))
    decreases |rs|
  {
    if rs != [] {
      HitShown(rs[0], n);
      HitsShown(rs[1..], ws[1..], n);
    }
  }

  lemma CleanRun(r: Run)
    ensures COMMA !in ShowRun(r) && SPACE !in ShowRun(r) && NEWLINE !in ShowRun(r)
  {
    NoDash(r.first);
    NoDash(r.last);
  }

  lemma {:induction false} RunsFromOrdered(first: nat, last: nat, rest: seq<nat>)
    requires first <= last
    ensures forall i :: 0 <= i < |RunsFrom(first, last, rest)| ==> RunsFrom(first, last, rest)[i].first <= RunsFrom(first, last, rest)[i].last
    decreases |rest|
  {
    if rest != [] {
      if rest[0] == last + 1 {
        RunsFromOrdered(first, rest[0], rest[1..]);
      } else {
        RunsFromOrdered(rest[0], rest[0], rest[1..]);
      }
    }
  }

  /** The written ranges read back as the list they were made from. */
  lemma RangesReadBack(ix: seq<nat>, n: nat)
    requires ix != [] && Increasing(ix)
    ensures Hits(Split(ShowRuns(Runs(ix)), COMMA), n) == Some(if n in ix then 1 else 0)
  {
    var rs := Runs(ix);
    var ws := seq(|rs|, i requires 0 <= i < |rs| => ShowRun(rs[i]));
    forall i | 0 <= i < |ws|
      ensures COMMA !in ws[i]
    {
      CleanRun(rs[i]);
    }
    SplitJoin(ws, COMMA);
    RunsFromOrdered(ix[0], ix[0], ix[1..]);
    HitsShown(rs, ws, n);
    RunsExact(ix, n);
  }

  lemma {:induction false} JoinClean(parts: seq<Bytes>, c: byte, x: byte)
    requires |parts| >= 1 && x != c && forall i :: 0 <= i < |parts| ==> x !in parts[i]
    ensures x !in Join(parts, c)
    decreases |parts|
  {
    if |parts| > 1 {
      JoinClean(parts[1..], c, x);
    }
  }

  lemma RangesClean(rs: seq<Run>)
    requires rs != []
    ensures SPACE !in ShowRuns(rs) && NEWLINE !in ShowRuns(rs)
  {
    var ws := seq(|rs|, i requires 0 <= i < |rs| => ShowRun(rs[i]));
    forall i | 0 <= i < |ws|
      ensures SPACE !in ws[i] && NEWLINE !in ws[i]
    {
      CleanRun(rs[i]);
    }
    JoinClean(ws, COMMA, SPACE);
    JoinClean(ws, COMMA, NEWLINE);
  }

  // ---- manifests and their lines

  function Drop(line: Bytes, k: nat): Option<Bytes>
    decreases k
  {
    if k == 0 then Some(line)
    else var p := Cut(line, SPACE); if p.found then Drop(p.after, k - 1) else None
  }

  /** The path of a line: what follows the sixth space. */
  function PathOf(line: Bytes): Bytes
    requires HasPath(line)
  {
    Drop(line, 6).value
  }

  predicate HasPath(line: Bytes) { Drop(line, 6).Some? }

  predicate GoodLine(line: Bytes) { NEWLINE !in line && HasPath(line) }

  /** The order of the lines of a union: by path, lines of one path by themselves. */
  predicate Before(x: Bytes, y: Bytes)
    requires HasPath(x) && HasPath(y)
  {
    x != y && Le(PathOf(x), PathOf(y)) && (PathOf(x) == PathOf(y) ==> Le(x, y))
  }

  predicate Ordered(ls: seq<Bytes>) {
    (forall i :: 0 <= i < |ls| ==> GoodLine(ls[i])) && forall i, j :: 0 <= i < j < |ls| ==> Before(ls[i], ls[j])
  }

  predicate Clean(x: Bytes) { SPACE !in x && NEWLINE !in x }

  /** One line a path, sorted by path. */
  predicate SortedByPath(ls: seq<Bytes>) {
    && (forall i :: 0 <= i < |ls| ==> GoodLine(ls[i]))
    && forall i, j :: 0 <= i < j < |ls| ==> PathOf(ls[i]) != PathOf(ls[j]) && Le(PathOf(ls[i]), PathOf(ls[j]))
  }

  predicate Good(m: Man) { Clean(m.image) && Clean(m.tag) && SortedByPath(m.lines) }

  function Header(image: Bytes, tag: Bytes): Bytes { Join([MAGIC, ONE, image, tag], SPACE) }

  function TextOf(image: Bytes, tag: Bytes, lines: seq<Bytes>): Bytes {
    Join([Header(image, tag)] + lines + [[]], NEWLINE)
  }

  function ManText(m: Man): Bytes { TextOf(m.image, m.tag, m.lines) }

  lemma SortedIsOrdered(ls: seq<Bytes>)
    requires SortedByPath(ls)
    ensures Ordered(ls)
  {
  }

  lemma BeforeAnti(x: Bytes, y: Bytes)
    requires HasPath(x) && HasPath(y) && Before(x, y)
    ensures !Before(y, x)
  {
    if Le(PathOf(y), PathOf(x)) {
      LeAnti(PathOf(x), PathOf(y));
      if Le(y, x) {
        LeAnti(x, y);
      }
    }
  }

  /** Two ordered lists of the same lines are the same list. */
  lemma {:induction false} OrderedUnique(a: seq<Bytes>, b: seq<Bytes>)
    requires Ordered(a) && Ordered(b) && forall x :: x in a <==> x in b
    ensures a == b
    decreases |a|
  {
    assert a != [] ==> a[0] in b;
    assert b != [] ==> b[0] in a;
    if a != [] {
      FirstSame(a, b);
      RestSame(a, b);
      OrderedUnique(a[1..], b[1..]);
      assert a == [a[0]] + a[1..] && b == [b[0]] + b[1..];
    }
  }

  lemma FirstSame(a: seq<Bytes>, b: seq<Bytes>)
    requires Ordered(a) && Ordered(b) && a != [] && b != [] && a[0] in b && b[0] in a
    ensures a[0] == b[0]
  {
    var i :| 0 <= i < |b| && b[i] == a[0];
    var j :| 0 <= j < |a| && a[j] == b[0];
    if i > 0 && j > 0 {
      BeforeAnti(a[0], a[j]);
    }
  }

  lemma RestSame(a: seq<Bytes>, b: seq<Bytes>)
    requires Ordered(a) && Ordered(b) && a != [] && b != [] && a[0] == b[0] && forall x :: x in a <==> x in b
    ensures forall x :: x in a[1..] <==> x in b[1..]
  {
    forall x
      ensures x in a[1..] <==> x in b[1..]
    {
      assert x in a <==> x == a[0] || x in a[1..];
      assert x in b <==> x == b[0] || x in b[1..];
      assert a[0] !in a[1..] && b[0] !in b[1..];
    }
  }
}
