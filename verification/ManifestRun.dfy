/** The programs behind `image-manifest.py union` and `extract`. */
module ManifestRun {
  import opened Bytes
  import opened Text
  import opened Manifest
  import opened ManifestUnion
  import opened SortBy

  /** `ranges` */
  method Ranges(ix: seq<nat>) returns (text: Bytes)
    requires ix != []
    ensures text == ShowRuns(Runs(ix))
  {
    ghost var done: seq<Run> := [];
    var out: seq<Bytes> := [];
    var first, last, k := ix[0], ix[0], 1;
    var open := true;
    while open
      invariant 1 <= k <= |ix| && |out| == |done| && forall i :: 0 <= i < |done| ==> out[i] == ShowRun(done[i])
      invariant Runs(ix) == if open then done + RunsFrom(first, last, ix[k..]) else done
      decreases |ix| - k + (if open then 1 else 0)
    {
      if k < |ix| && ix[k] == last + 1 {
        last := ix[k];
      } else {
        out := out + [if last != first then Show(first) + [DASH] + Show(last) else Show(first)];
        done := done + [Run(first, last)];
        if k < |ix| {
          first, last := ix[k], ix[k];
        }
      }
      if k < |ix| {
        assert ix[k..][1..] == ix[k + 1..];
        k := k + 1;
      } else {
        open := false;
      }
    }
    assert out == seq(|done|, i requires 0 <= i < |done| => ShowRun(done[i]));
    text := Join(out, COMMA);
  }

  // ---- reading manifests

  /** A manifest's head line and lines; nothing when the head is not one. */
  function Parse(text: Bytes): Option<Man> {
    var head := Split(Cut(text, NEWLINE).before, SPACE);
    if |head| < 4 || head[..2] != [MAGIC, ONE] then None
    else Some(Man(head[2], head[3], NonEmpty(Split(text, NEWLINE)[1..])))
  }

  lemma HeaderBack(image: Bytes, tag: Bytes)
    requires Clean(image) && Clean(tag)
    ensures Split(Header(image, tag), SPACE) == [MAGIC, ONE, image, tag] && NEWLINE !in Header(image, tag)
  {
    var parts := [MAGIC, ONE, image, tag];
    assert SPACE !in parts[0] && SPACE !in parts[1] && SPACE !in parts[2] && SPACE !in parts[3];
    assert NEWLINE !in parts[0] && NEWLINE !in parts[1] && NEWLINE !in parts[2] && NEWLINE !in parts[3];
    SplitJoin(parts, SPACE);
    JoinClean(parts, SPACE, NEWLINE);
  }

  /** Reading a manifest's text gives the manifest. */
  lemma ParseBack(m: Man)
    requires Good(m)
    ensures Parse(ManText(m)) == Some(m)
  {
    var h := Header(m.image, m.tag);
    HeaderBack(m.image, m.tag);
    var rest := m.lines + [[]];
    TextCut(h, rest);
    NonEmptyAll(m.lines);
    assert [h] + m.lines + [[]] == [h] + rest;
    assert ([h] + rest)[1..] == rest;
    assert [MAGIC, ONE, m.image, m.tag][..2] == [MAGIC, ONE];
  }

  lemma TextCut(h: Bytes, rest: seq<Bytes>)
    requires NEWLINE !in h && rest != [] && forall i :: 0 <= i < |rest| ==> NEWLINE !in rest[i]
    ensures Cut(Join([h] + rest, NEWLINE), NEWLINE).before == h && Split(Join([h] + rest, NEWLINE), NEWLINE) == [h] + rest
  {
    assert ([h] + rest)[1..] == rest;
    CutFirst(h, NEWLINE, Join(rest, NEWLINE));
    SplitJoin([h] + rest, NEWLINE);
  }

  // ---- the lines of all manifests

  ghost predicate Gathered(lines: map<Bytes, seq<nat>>, ms: seq<Man>) {
    forall x :: (x in lines <==> Places(ms, x) != []) && (x in lines ==> lines[x] == Places(ms, x))
  }

  /** The dictionary while manifest n is read: its first j lines are in. */
  ghost predicate Gathering(lines: map<Bytes, seq<nat>>, ms: seq<Man>, ls: seq<Bytes>) {
    forall x :: GatheredAt(lines, ms, ls, x)
  }

  /** What the dictionary says of one line. */
  ghost predicate GatheredAt(lines: map<Bytes, seq<nat>>, ms: seq<Man>, ls: seq<Bytes>, x: Bytes) {
    && (x in lines <==> Places(ms, x) != [] || x in ls)
    && (x in lines ==> lines[x] == Places(ms, x) + Again(|ms|, Times(ls, x)))
  }

  lemma TimesNext(ls: seq<Bytes>, line: Bytes, x: Bytes)
    ensures Times(ls + [line], x) == Times(ls, x) + if x == line then 1 else 0
  {
    assert (ls + [line])[..|ls|] == ls;
  }

  lemma AgainNext(n: nat, k: nat)
    ensures Again(n, k + 1) == Again(n, k) + [n]
  {
  }

  lemma GatherAt(lines: map<Bytes, seq<nat>>, ms: seq<Man>, ls: seq<Bytes>, line: Bytes, lines': map<Bytes, seq<nat>>, x: Bytes)
    requires GatheredAt(lines, ms, ls, x)
    requires lines' == lines[line := (if line in lines then lines[line] else []) + [|ms|]]
    ensures GatheredAt(lines', ms, ls + [line], x)
  {
    TimesNext(ls, line, x);
    AgainNext(|ms|, Times(ls, x));
    if x == line {
      var ps := Places(ms, x);
      assert x !in lines ==> ps == [] && Again(|ms|, Times(ls, x)) == [];
      assert lines'[x] == ps + Again(|ms|, Times(ls, x)) + [|ms|];
    }
  }

  lemma GatherLine(lines: map<Bytes, seq<nat>>, ms: seq<Man>, ls: seq<Bytes>, line: Bytes, lines': map<Bytes, seq<nat>>)
    requires Gathering(lines, ms, ls)
    requires lines' == lines[line := (if line in lines then lines[line] else []) + [|ms|]]
    ensures Gathering(lines', ms, ls + [line])
  {
    forall x
      ensures GatheredAt(lines', ms, ls + [line], x)
    {
      assert GatheredAt(lines, ms, ls, x);
      GatherAt(lines, ms, ls, line, lines', x);
    }
  }

  lemma GatherNext(lines: map<Bytes, seq<nat>>, ms: seq<Man>, m: Man)
    requires Gathering(lines, ms, m.lines)
    ensures Gathered(lines, ms + [m])
  {
    assert (ms + [m])[..|ms|] == ms;
    forall x
      ensures (x in lines <==> Places(ms + [m], x) != []) && (x in lines ==> lines[x] == Places(ms + [m], x))
    {
      assert GatheredAt(lines, ms, m.lines, x);
    }
  }

  /** The dictionary of the lines, each with the places of the manifests that have it. */
  method Gather(ms: seq<Man>) returns (lines: map<Bytes, seq<nat>>)
    ensures Gathered(lines, ms)
  {
    lines := map[];
    var n := 0;
    while n < |ms|
      invariant 0 <= n <= |ms| && Gathered(lines, ms[..n])
    {
      lines := GatherOne(lines, ms[n], ms[..n]);
      assert ms[..n + 1] == ms[..n] + [ms[n]];
      n := n + 1;
    }
    assert ms[..n] == ms;
  }

  /** A line of the manifest being read is entered under its place. */
  method Enter(lines: map<Bytes, seq<nat>>, line: Bytes, before: seq<Man>, ghost had: seq<Bytes>) returns (next: map<Bytes, seq<nat>>)
    requires Gathering(lines, before, had)
    ensures Gathering(next, before, had + [line])
  {
    next := lines[line := (if line in lines then lines[line] else []) + [|before|]];
    GatherLine(lines, before, had, line, next);
  }

  method GatherOne(lines0: map<Bytes, seq<nat>>, m: Man, before: seq<Man>) returns (lines: map<Bytes, seq<nat>>)
    requires Gathered(lines0, before)
    ensures Gathered(lines, before + [m])
  {
    lines := lines0;
    ghost var had: seq<Bytes> := [];
    GatherStart(lines, before);
    var j := 0;
    while j < |m.lines|
      invariant 0 <= j <= |m.lines| && had == m.lines[..j] && Gathering(lines, before, had)
    {
      lines := Enter(lines, m.lines[j], before, had);
      had := had + [m.lines[j]];
      j := j + 1;
    }
    assert had == m.lines;
    GatherNext(lines, before, m);
  }

  lemma GatherStart(lines: map<Bytes, seq<nat>>, ms: seq<Man>)
    requires Gathered(lines, ms)
    ensures Gathering(lines, ms, [])
  {
    forall x
      ensures GatheredAt(lines, ms, [], x)
    {
      assert Places(ms, x) + Again(|ms|, 0) == Places(ms, x);
    }
  }

  // ---- the union

  function LineKey(line: Bytes): (Bytes, Bytes) {
    (if HasPath(line) then PathOf(line) else [], line)
  }

  function TagKey(m: Man): (Bytes, Bytes) { (m.tag, []) }

  /** The keys of the dictionary, in some order. */
  method Keys(lines: map<Bytes, seq<nat>>) returns (keys: seq<Bytes>)
    ensures NoRepeats(keys) && forall x :: x in keys <==> x in lines
  {
    keys := [];
    var left := lines.Keys;
    while left != {}
      invariant NoRepeats(keys) && left <= lines.Keys && forall x :: x in keys <==> x in lines && x !in left
      decreases left
    {
      var x :| x in left;
      assert x !in keys;
      keys := keys + [x];
      left := left - {x};
    }
  }

  lemma KeyOrder(x: Bytes, y: Bytes)
    requires GoodLine(x) && GoodLine(y) && x != y && PairLe(LineKey(x), LineKey(y))
    ensures Before(x, y)
  {
  }

  lemma OrderBody(body: seq<Bytes>)
    requires NoRepeats(body) && SortedBy(body, LineKey) && forall i :: 0 <= i < |body| ==> GoodLine(body[i])
    ensures Ordered(body)
  {
    forall i, j | 0 <= i < j < |body|
      ensures Before(body[i], body[j])
    {
      KeyOrder(body[i], body[j]);
    }
  }

  lemma SortedBody(keys: seq<Bytes>, body: seq<Bytes>)
    requires NoRepeats(keys) && (forall x :: x in keys ==> GoodLine(x)) && body == Sort(keys, LineKey)
    ensures Ordered(body) && forall x :: x in body <==> x in keys
  {
    SortSorts(keys, LineKey);
    SameMembers(keys, body);
    NoRepeatsKept(keys, body);
    OrderBody(body);
  }

  lemma {:induction false} NonEmptyFrom(ls: seq<Bytes>)
    ensures forall x :: x in NonEmpty(ls) <==> x in ls && x != []
  {
    if ls != [] {
      NonEmptyFrom(ls[1..]);
      assert forall x :: x in ls <==> x == ls[0] || x in ls[1..];
    }
  }

  /** A line of a manifest that was read holds no newline. */
  lemma ParsedLines(text: Bytes, line: Bytes)
    requires Parse(text).Some? && line in Parse(text).value.lines
    ensures NEWLINE !in line
  {
    SplitFree(text, NEWLINE, NEWLINE);
    NonEmptyFrom(Split(text, NEWLINE)[1..]);
  }
}
