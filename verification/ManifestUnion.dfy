/** `union` and `extract`: extracting a release from the union gives its manifest back. */
module ManifestUnion {
  import opened Bytes
  import opened Text
  import opened Manifest
  import opened SortBy

  const MAGICS: Bytes := MAGIC + [115]                    // mu300-image-manifests

  // ---- extract

  function IndexOf(tags: seq<Bytes>, tag: Bytes): (n: nat)
    requires tag in tags
    ensures n < |tags| && tags[n] == tag && forall i :: 0 <= i < n ==> tags[i] != tag
  {
    if tags[0] == tag then 0 else 1 + IndexOf(tags[1..], tag)
  }

  function Repeat(line: Bytes, k: nat): seq<Bytes> { seq(k, _ => line) }

  /** What a line of the union gives for release n: its line once for every range n is in. */
  function FromLine(line: Bytes, n: nat): Option<seq<Bytes>> {
    if line == [] then Some([])
    else
      var p := Cut(line, SPACE);
      if !p.found then None
      else match Hits(Split(p.before, COMMA), n)
           case None => None
           case Some(k) => Some(Repeat(p.after, k))
  }

  function FromLines(lines: seq<Bytes>, n: nat): Option<seq<Bytes>> {
    if lines == [] then Some([])
    else match FromLine(lines[0], n)
         case None => None
         case Some(a) => match FromLines(lines[1..], n)
                         case None => None
                         case Some(b) => Some(a + b)
  }

  /** The manifest of a release out of a union; nothing where the program ends with an error. */
  function Extract(text: Bytes, tag: Bytes): Option<Bytes> {
    var ls := Split(text, NEWLINE);
    if |ls| < 2 then None
    else
      var tags, head := Split(ls[1], SPACE)[1..], Split(ls[0], SPACE);
      if tag !in tags || |head| < 3 then None
      else match FromLines(ls[2..], IndexOf(tags, tag))
           case None => None
           case Some(out) => Some(TextOf(head[2], tag, out))
  }

  // ---- union

  /** How often a line is in a manifest. */
  function Times(ls: seq<Bytes>, line: Bytes): (k: nat)
    ensures k > 0 <==> line in ls
  {
    if ls == [] then 0 else Times(ls[..|ls| - 1], line) + if ls[|ls| - 1] == line then 1 else 0
  }

  function Again(n: nat, k: nat): (r: seq<nat>)
    ensures |r| == k && forall i :: 0 <= i < k ==> r[i] == n
  {
    seq(k, _ => n)
  }

  /** The places of the manifests that have a line, once for every time they have it. */
  function Places(ms: seq<Man>, line: Bytes): seq<nat> {
    if ms == [] then [] else Places(ms[..|ms| - 1], line) + Again(|ms| - 1, Times(ms[|ms| - 1].lines, line))
  }

  lemma {:induction false} PlacesHas(ms: seq<Man>, line: Bytes, n: nat)
    ensures n in Places(ms, line) <==> n < |ms| && line in ms[n].lines
  {
    if ms != [] {
      var k := |ms| - 1;
      PlacesHas(ms[..k], line, n);
      var last := Again(k, Times(ms[k].lines, line));
      assert last != [] ==> last[0] == k && last[0] in last;
      assert n in last <==> n == k && last != [];
    }
  }

  lemma {:induction false} AtMostOnce(ls: seq<Bytes>, line: Bytes)
    requires NoRepeats(ls)
    ensures Times(ls, line) <= 1
  {
    if ls != [] {
      AtMostOnce(ls[..|ls| - 1], line);
    }
  }

  lemma {:induction false} PlacesIncreasing(ms: seq<Man>, line: Bytes)
    requires forall i :: 0 <= i < |ms| ==> NoRepeats(ms[i].lines)
    ensures Increasing(Places(ms, line))
  {
    if ms != [] {
      var k := |ms| - 1;
      var ps := Places(ms[..k], line);
      PlacesIncreasing(ms[..k], line);
      AtMostOnce(ms[k].lines, line);
      forall i | 0 <= i < |ps|
        ensures ps[i] < k
      {
        PlacesHas(ms[..k], line, ps[i]);
      }
    }
  }

  function TagList(ms: seq<Man>): seq<Bytes> { seq(|ms|, i requires 0 <= i < |ms| => ms[i].tag) }

  function BodyLine(ms: seq<Man>, line: Bytes): Bytes
    requires Places(ms, line) != []
  {
    ShowRuns(Runs(Places(ms, line))) + [SPACE] + line
  }

  /** The lines of a union: all lines of the manifests, once each and in order. */
  ghost predicate IsBody(ms: seq<Man>, body: seq<Bytes>) {
    && Ordered(body)
    && forall line :: line in body <==> exists n :: 0 <= n < |ms| && line in ms[n].lines
  }

  function UnionHead(image: Bytes): Bytes { Join([MAGICS, ONE, image], SPACE) }

  function TagsLine(ms: seq<Man>): Bytes { Join([TAGS] + TagList(ms), SPACE) }

  predicate Listed(ms: seq<Man>, body: seq<Bytes>) {
    forall i :: 0 <= i < |body| ==> Places(ms, body[i]) != []
  }

  function BodyText(ms: seq<Man>, body: seq<Bytes>): seq<Bytes>
    requires Listed(ms, body)
  {
    seq(|body|, i requires 0 <= i < |body| => BodyLine(ms, body[i]))
  }

  function UnionText(image: Bytes, ms: seq<Man>, body: seq<Bytes>): Bytes
    requires Listed(ms, body)
  {
    Join([UnionHead(image), TagsLine(ms)] + BodyText(ms, body) + [[]], NEWLINE)
  }

  lemma BodyListed(ms: seq<Man>, body: seq<Bytes>)
    requires IsBody(ms, body)
    ensures Listed(ms, body)
  {
    forall i | 0 <= i < |body|
      ensures Places(ms, body[i]) != []
    {
      assert body[i] in body;
      var n: nat :| n < |ms| && body[i] in ms[n].lines;
      PlacesHas(ms, body[i], n);
    }
  }

  // ---- there and back

  /** The lines of body that manifest m has, in order. */
  function Having(body: seq<Bytes>, m: Man): seq<Bytes> {
    if body == [] then [] else (if body[0] in m.lines then [body[0]] else []) + Having(body[1..], m)
  }

  lemma {:induction false} HavingHas(body: seq<Bytes>, m: Man, x: Bytes)
    ensures x in Having(body, m) <==> x in body && x in m.lines
  {
    if body != [] {
      HavingHas(body[1..], m, x);
      assert x in body <==> x == body[0] || x in body[1..];
    }
  }

  lemma {:induction false} HavingOrdered(body: seq<Bytes>, m: Man)
    requires Ordered(body)
    ensures Ordered(Having(body, m))
  {
    if body != [] {
      var rest := Having(body[1..], m);
      HavingOrdered(body[1..], m);
      forall i | 0 <= i < |rest|
        ensures GoodLine(rest[i]) && Before(body[0], rest[i])
      {
        HavingHas(body[1..], m, rest[i]);
        var j :| 0 <= j < |body[1..]| && body[1..][j] == rest[i];
        assert rest[i] == body[j + 1];
      }
      OrderedCons(body[0], rest);
    }
  }

  lemma OrderedCons(x: Bytes, rest: seq<Bytes>)
    requires GoodLine(x) && Ordered(rest) && forall i :: 0 <= i < |rest| ==> Before(x, rest[i])
    ensures Ordered([x] + rest)
  {
  }

  lemma BodyLineBack(ms: seq<Man>, line: Bytes, n: nat)
    requires n < |ms| && Places(ms, line) != [] && forall i :: 0 <= i < |ms| ==> NoRepeats(ms[i].lines)
    ensures FromLine(BodyLine(ms, line), n) == Some(if line in ms[n].lines then [line] else [])
  {
    var ps := Places(ms, line);
    PlacesHas(ms, line, n);
    PlacesIncreasing(ms, line);
    RangesReadBack(ps, n);
    RangesClean(Runs(ps));
    CutFirst(ShowRuns(Runs(ps)), SPACE, line);
    assert Repeat(line, 1) == [line] && Repeat(line, 0) == [];
  }

  lemma {:induction false} BodyBack(ms: seq<Man>, body: seq<Bytes>, ls: seq<Bytes>, n: nat)
    requires forall i :: 0 <= i < |ms| ==> NoRepeats(ms[i].lines)
    requires n < |ms| && Listed(ms, body) && ls == BodyText(ms, body) + [[]]
    ensures FromLines(ls, n) == Some(Having(body, ms[n]))
    decreases |body|
  {
    if body == [] {
      assert ls == [[]] && ls[1..] == [];
      assert FromLine(ls[0], n) == Some([]) && FromLines(ls[1..], n) == Some([]);
      var none: seq<Bytes> := [];
      assert none + none == none;
    } else {
      assert ls[0] == BodyLine(ms, body[0]);
      BodyLineBack(ms, body[0], n);
      assert ls[1..] == BodyText(ms, body[1..]) + [[]];
      BodyBack(ms, body[1..], ls[1..], n);
    }
  }

  lemma HeadsClean(image: Bytes, ms: seq<Man>)
    requires Clean(image) && forall i :: 0 <= i < |ms| ==> Clean(ms[i].tag)
    ensures NEWLINE !in UnionHead(image) && NEWLINE !in TagsLine(ms)
  {
    var parts := [MAGICS, ONE, image];
    assert NEWLINE !in parts[0] && NEWLINE !in parts[1] && NEWLINE !in parts[2];
    JoinClean(parts, SPACE, NEWLINE);
    JoinClean([TAGS] + TagList(ms), SPACE, NEWLINE);
  }

  /** The lines of the union text, as `extract` splits them. */
  lemma UnionLines(image: Bytes, ms: seq<Man>, body: seq<Bytes>)
    requires Clean(image) && (forall i :: 0 <= i < |ms| ==> Good(ms[i])) && Listed(ms, body) && Ordered(body)
    ensures Split(UnionText(image, ms, body), NEWLINE) == [UnionHead(image), TagsLine(ms)] + (BodyText(ms, body) + [[]])
  {
    var ls := [UnionHead(image), TagsLine(ms)] + BodyText(ms, body) + [[]];
    HeadsClean(image, ms);
    forall i | 0 <= i < |ls|
      ensures NEWLINE !in ls[i]
    {
      if 2 <= i < |body| + 2 {
        RangesClean(Runs(Places(ms, body[i - 2])));
        assert GoodLine(body[i - 2]);
      }
    }
    SplitJoin(ls, NEWLINE);
    assert ls == [UnionHead(image), TagsLine(ms)] + (BodyText(ms, body) + [[]]);
  }

  lemma HeadBack(image: Bytes)
    requires Clean(image)
    ensures Split(UnionHead(image), SPACE) == [MAGICS, ONE, image]
  {
    var parts := [MAGICS, ONE, image];
    assert SPACE !in parts[0] && SPACE !in parts[1] && SPACE !in parts[2];
    SplitJoin(parts, SPACE);
  }

  predicate DistinctTags(ms: seq<Man>) {
    forall i, j :: 0 <= i < j < |ms| ==> ms[i].tag != ms[j].tag
  }

  lemma TagsBack(ms: seq<Man>, n: nat)
    requires (forall i :: 0 <= i < |ms| ==> Good(ms[i])) && DistinctTags(ms) && n < |ms|
    ensures Split(TagsLine(ms), SPACE)[1..] == TagList(ms)
    ensures ms[n].tag in TagList(ms) && IndexOf(TagList(ms), ms[n].tag) == n
  {
    SplitJoin([TAGS] + TagList(ms), SPACE);
    assert ([TAGS] + TagList(ms))[1..] == TagList(ms);
    assert TagList(ms)[n] == ms[n].tag;
  }

  /** Extracting any release from the union of good manifests of one image with distinct tags gives that release's
      manifest, byte for byte. */
  lemma UnionThenExtract(image: Bytes, ms: seq<Man>, body: seq<Bytes>, n: nat)
    requires (forall i :: 0 <= i < |ms| ==> Good(ms[i]) && ms[i].image == image) && DistinctTags(ms)
    requires IsBody(ms, body) && Listed(ms, body) && n < |ms|
    ensures Extract(UnionText(image, ms, body), ms[n].tag) == Some(ManText(ms[n]))
  {
    UnionLines(image, ms, body);
    TagsBack(ms, n);
    LinesBack(ms, body, n);
    HeadBack(image);
    ExtractIs(UnionText(image, ms, body), UnionHead(image), TagsLine(ms), BodyText(ms, body) + [[]], ms[n], n);
  }

  /** The lines of release n are exactly its manifest's. */
  lemma LinesBack(ms: seq<Man>, body: seq<Bytes>, n: nat)
    requires n < |ms| && (forall i :: 0 <= i < |ms| ==> Good(ms[i])) && IsBody(ms, body) && Listed(ms, body)
    ensures FromLines(BodyText(ms, body) + [[]], n) == Some(ms[n].lines)
  {
    var m := ms[n];
    BodyBack(ms, body, BodyText(ms, body) + [[]], n);
    HavingOrdered(body, m);
    SortedIsOrdered(m.lines);
    forall x
      ensures x in Having(body, m) <==> x in m.lines
    {
      HavingHas(body, m, x);
    }
    OrderedUnique(Having(body, m), m.lines);
  }

  lemma ExtractIs(text: Bytes, head: Bytes, tags: Bytes, rest: seq<Bytes>, m: Man, n: nat)
    requires Split(text, NEWLINE) == [head, tags] + rest
    requires m.tag in Split(tags, SPACE)[1..] && IndexOf(Split(tags, SPACE)[1..], m.tag) == n
    requires |Split(head, SPACE)| == 3 && Split(head, SPACE)[2] == m.image
    requires FromLines(rest, n) == Some(m.lines)
    ensures Extract(text, m.tag) == Some(ManText(m))
  {
    assert ([head, tags] + rest)[2..] == rest;
  }

  /** A tag no manifest has is refused. */
  lemma NoSuchTag(image: Bytes, ms: seq<Man>, body: seq<Bytes>, tag: Bytes)
    requires (forall i :: 0 <= i < |ms| ==> Good(ms[i]) && ms[i].image == image) && DistinctTags(ms) && Clean(image)
    requires IsBody(ms, body) && Listed(ms, body) && forall i :: 0 <= i < |ms| ==> ms[i].tag != tag
    ensures Extract(UnionText(image, ms, body), tag) == None
  {
    UnionLines(image, ms, body);
    SplitJoin([TAGS] + TagList(ms), SPACE);
    assert ([TAGS] + TagList(ms))[1..] == TagList(ms);
  }
}
