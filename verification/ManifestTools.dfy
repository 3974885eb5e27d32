/** `union` and `extract` from text to text. */
module ManifestTools {
  import opened Bytes
  import opened Text
  import opened Manifest
  import opened ManifestUnion
  import opened ManifestRun
  import opened SortBy

  predicate Readable(texts: seq<Bytes>) { forall i :: 0 <= i < |texts| ==> Parse(texts[i]).Some? }

  predicate OneImage(ms: seq<Man>) { forall i :: 0 <= i < |ms| ==> ms[i].image == ms[0].image }

  predicate AllHavePath(ls: seq<Bytes>) { forall j :: 0 <= j < |ls| ==> HasPath(ls[j]) }

  predicate Paths(ms: seq<Man>) { forall i :: 0 <= i < |ms| ==> AllHavePath(ms[i].lines) }

  function Parsed(texts: seq<Bytes>): seq<Man>
    requires Readable(texts)
  {
    seq(|texts|, i requires 0 <= i < |texts| => Parse(texts[i]).value)
  }

  /** The texts are manifests of one image with different tags, and every line has its seven fields. */
  predicate Acceptable(texts: seq<Bytes>) {
    texts != [] && Readable(texts) && OneImage(Parsed(texts)) && DistinctTags(Parsed(texts)) && Paths(Parsed(texts))
  }

  method ParseAll(texts: seq<Bytes>) returns (r: Option<seq<Man>>)
    ensures r.Some? <==> Readable(texts)
    ensures r.Some? ==> r.value == Parsed(texts)
  {
    var ms: seq<Man> := [];
    var i := 0;
    while i < |texts|
      invariant 0 <= i <= |texts| && |ms| == i
      invariant forall k :: 0 <= k < i ==> Parse(texts[k]) == Some(ms[k])
    {
      var m := Parse(texts[i]);
      if m.None? {
        return None;
      }
      ms := ms + [m.value];
      i := i + 1;
    }
    r := Some(ms);
  }

  lemma DistinctKept(a: seq<Man>, b: seq<Man>)
    requires multiset(a) == multiset(b) && DistinctTags(a)
    ensures DistinctTags(b)
  {
    forall i, j | 0 <= i < j < |b|
      ensures b[i].tag != b[j].tag
    {
      DistinctPair(a, b, i, j);
    }
  }

  lemma DistinctPair(a: seq<Man>, b: seq<Man>, i: nat, j: nat)
    requires multiset(a) == multiset(b) && DistinctTags(a) && i < j < |b|
    ensures b[i].tag != b[j].tag
  {
    assert b[i] in multiset(a) && b[j] in multiset(a);
    var p :| 0 <= p < |a| && a[p] == b[i];
    var q :| 0 <= q < |a| && a[q] == b[j];
    ManOnce(a, b[i]);
    assert b == b[..i] + [b[i]] + b[i + 1..j] + [b[j]] + b[j + 1..];
    assert b[i] == b[j] ==> multiset(b)[b[i]] >= 2;
    assert p != q;
  }

  lemma {:induction false} ManOnce(a: seq<Man>, m: Man)
    requires DistinctTags(a)
    ensures multiset(a)[m] <= 1
  {
    if a != [] {
      ManOnce(a[1..], m);
      assert a == [a[0]] + a[1..];
    }
  }

  /** The lines of the union with the ranges before them. */
  method Render(ghost ms: seq<Man>, lines: map<Bytes, seq<nat>>, body: seq<Bytes>) returns (out: seq<Bytes>)
    requires Gathered(lines, ms) && Listed(ms, body)
    ensures out == BodyText(ms, body)
  {
    out := [];
    var i := 0;
    while i < |body|
      invariant 0 <= i <= |body| && |out| == i
      invariant forall k :: 0 <= k < i ==> out[k] == BodyLine(ms, body[k])
    {
      assert Places(ms, body[i]) != [];
      var where := Ranges(lines[body[i]]);
      out := out + [where + [SPACE] + body[i]];
      i := i + 1;
    }
  }

  /** The lines of all manifests, or nothing when one has no path. */
  method Body(lines: map<Bytes, seq<nat>>, ms: seq<Man>) returns (r: Option<seq<Bytes>>)
    requires Gathered(lines, ms) && forall i, x :: 0 <= i < |ms| && x in ms[i].lines ==> NEWLINE !in x
    ensures r.Some? <==> Paths(ms)
    ensures r.Some? ==> IsBody(ms, r.value)
  {
    var keys := Keys(lines);
    KeysAre(lines, ms, keys);
    KeyPaths(ms, keys);
    if AllHavePath(keys) {
      var body := Sort(keys, LineKey);
      SortedBody(keys, body);
      r := Some(body);
    } else {
      r := None;
    }
  }

  ghost predicate KeysOf(ms: seq<Man>, keys: seq<Bytes>) {
    forall x :: x in keys <==> exists n :: 0 <= n < |ms| && x in ms[n].lines
  }

  lemma KeyPaths(ms: seq<Man>, keys: seq<Bytes>)
    requires KeysOf(ms, keys)
    ensures AllHavePath(keys) <==> Paths(ms)
  {
    if AllHavePath(keys) {
      forall i, j | 0 <= i < |ms| && 0 <= j < |ms[i].lines|
        ensures HasPath(ms[i].lines[j])
      {
        assert ms[i].lines[j] in ms[i].lines;
        assert ms[i].lines[j] in keys;
      }
    }
    if Paths(ms) {
      forall k | 0 <= k < |keys|
        ensures HasPath(keys[k])
      {
        assert keys[k] in keys;
        var n :| 0 <= n < |ms| && keys[k] in ms[n].lines;
        assert AllHavePath(ms[n].lines);
      }
    }
  }

  lemma KeysAre(lines: map<Bytes, seq<nat>>, ms: seq<Man>, keys: seq<Bytes>)
    requires Gathered(lines, ms) && forall x :: x in keys <==> x in lines
    ensures KeysOf(ms, keys)
  {
    forall x
      ensures x in keys <==> exists n :: 0 <= n < |ms| && x in ms[n].lines
    {
      var ps := Places(ms, x);
      if ps != [] {
        PlacesHas(ms, x, ps[0]);
      }
      forall n | 0 <= n < |ms| && x in ms[n].lines
        ensures ps != []
      {
        PlacesHas(ms, x, n);
      }
    }
  }

  /** The manifests sorted by tag, where `union` goes on to the lines. */
  method Order(texts: seq<Bytes>) returns (r: Option<seq<Man>>)
    ensures r.Some? <==> texts != [] && Readable(texts) && OneImage(Parsed(texts)) && DistinctTags(Parsed(texts))
    ensures r.Some? ==> multiset(r.value) == multiset(Parsed(texts)) && SortedBy(r.value, TagKey) && DistinctTags(r.value)
  {
    var all := ParseAll(texts);
    if all.None? || texts == [] || !OneImage(all.value) {
      return None;
    }
    var order := Sort(all.value, TagKey);
    SortSorts(all.value, TagKey);
    DistinctBoth(all.value, order);
    r := if DistinctTags(order) then Some(order) else None;
  }

  lemma DistinctBoth(a: seq<Man>, b: seq<Man>)
    requires multiset(a) == multiset(b)
    ensures DistinctTags(a) <==> DistinctTags(b)
  {
    if DistinctTags(a) {
      DistinctKept(a, b);
    }
    if DistinctTags(b) {
      DistinctKept(b, a);
    }
  }

  /** `union`. It succeeds exactly for acceptable texts, and then writes the union of their manifests sorted by tag. */
  method Union(texts: seq<Bytes>) returns (r: Option<Bytes>, ghost ms: seq<Man>, ghost body: seq<Bytes>)
    ensures r.Some? <==> Acceptable(texts)
    ensures r.Some? ==> multiset(ms) == multiset(Parsed(texts)) && SortedBy(ms, TagKey) && DistinctTags(ms)
    ensures r.Some? ==> IsBody(ms, body) && Listed(ms, body) && r.value == UnionText(Parse(texts[0]).value.image, ms, body)
  {
    r, ms, body := None, [], [];
    var o := Order(texts);
    if o.Some? {
      var order := o.value;
      ms := order;
      LinesClean(texts, Parsed(texts), order);
      PathsKept(Parsed(texts), order);
      var lines := Gather(order);
      var b := Body(lines, order);
      if b.Some? {
        body := b.value;
        BodyListed(order, b.value);
        var out := Render(order, lines, b.value);
        r := Some(Join([UnionHead(Parse(texts[0]).value.image), TagsLine(order)] + out + [[]], NEWLINE));
      }
    }
  }

  lemma LinesClean(texts: seq<Bytes>, mans: seq<Man>, ms: seq<Man>)
    requires Readable(texts) && mans == Parsed(texts) && multiset(ms) == multiset(mans)
    ensures forall i, x :: 0 <= i < |ms| && x in ms[i].lines ==> NEWLINE !in x
  {
    forall i, x | 0 <= i < |ms| && x in ms[i].lines
      ensures NEWLINE !in x
    {
      assert ms[i] in multiset(mans);
      var k :| 0 <= k < |mans| && mans[k] == ms[i];
      ParsedLines(texts[k], x);
    }
  }

  lemma PathsKept(a: seq<Man>, b: seq<Man>)
    requires multiset(a) == multiset(b)
    ensures Paths(a) <==> Paths(b)
  {
    forall i | 0 <= i < |a|
      ensures a[i] in b
    {
      assert a[i] in multiset(b);
    }
    forall i | 0 <= i < |b|
      ensures b[i] in a
    {
      assert b[i] in multiset(a);
    }
  }

  /** `extract` */
  method ExtractRun(text: Bytes, tag: Bytes) returns (r: Option<Bytes>)
    ensures r == Extract(text, tag)
  {
    var ls := Split(text, NEWLINE);
    if |ls| < 2 {
      return None;
    }
    var tags, head := Split(ls[1], SPACE)[1..], Split(ls[0], SPACE);
    if tag !in tags || |head| < 3 {
      return None;
    }
    var out := Collect(ls[2..], IndexOf(tags, tag));
    r := if out.None? then None else Some(TextOf(head[2], tag, out.value));
  }

  method Collect(ls: seq<Bytes>, n: nat) returns (r: Option<seq<Bytes>>)
    ensures r == FromLines(ls, n)
  {
    var out: seq<Bytes> := [];
    var i := 0;
    AppendNothing(FromLines(ls, n));
    assert ls[0..] == ls;
    while i < |ls|
      invariant 0 <= i <= |ls|
      invariant FromLines(ls, n) == Append(out, FromLines(ls[i..], n))
    {
      assert ls[i..][0] == ls[i] && ls[i..][1..] == ls[i + 1..];
      var some := FromLine(ls[i], n);
      if some.None? {
        return None;
      }
      AppendMore(out, some.value, FromLines(ls[i + 1..], n));
      out := out + some.value;
      i := i + 1;
    }
    assert ls[|ls|..] == [];
    assert out + [] == out;
    r := Some(out);
  }

  lemma AppendNothing(r: Option<seq<Bytes>>)
    ensures Append([], r) == r
  {
    assert r.Some? ==> [] + r.value == r.value;
  }

  lemma AppendMore(a: seq<Bytes>, b: seq<Bytes>, r: Option<seq<Bytes>>)
    ensures Append(a + b, r) == Append(a, Append(b, r))
  {
    assert r.Some? ==> a + b + r.value == a + (b + r.value);
  }

  function Append(out: seq<Bytes>, r: Option<seq<Bytes>>): Option<seq<Bytes>> {
    if r.None? then None else Some(out + r.value)
  }

  function TextsOf(mans: seq<Man>): seq<Bytes> { seq(|mans|, i requires 0 <= i < |mans| => ManText(mans[i])) }

  /** The union of good manifests of one image with different tags is written, and every one of them is extracted from it
      as it went in. */
  method RoundTrip(mans: seq<Man>, k: nat) returns (text: Option<Bytes>)
    requires k < |mans| && DistinctTags(mans) && forall i :: 0 <= i < |mans| ==> Good(mans[i]) && mans[i].image == mans[0].image
    ensures text == Some(ManText(mans[k]))
  {
    ParsedBack(mans);
    var u, ms, body := Union(TextsOf(mans));
    ghost var n := PlaceOf(mans, ms, k);
    GoodKept(mans, ms);
    UnionThenExtract(mans[0].image, ms, body, n);
    text := ExtractRun(u.value, mans[k].tag);
  }

  lemma ParsedBack(mans: seq<Man>)
    requires DistinctTags(mans) && forall i :: 0 <= i < |mans| ==> Good(mans[i]) && mans[i].image == mans[0].image
    ensures forall i :: 0 <= i < |mans| ==> Parse(TextsOf(mans)[i]) == Some(mans[i])
    ensures mans != [] ==> Acceptable(TextsOf(mans)) && Parsed(TextsOf(mans)) == mans
  {
    forall i | 0 <= i < |mans|
      ensures Parse(TextsOf(mans)[i]) == Some(mans[i]) && AllHavePath(mans[i].lines)
    {
      ParseBack(mans[i]);
    }
    assert Parsed(TextsOf(mans)) == mans;
  }

  lemma PlaceOf(mans: seq<Man>, ms: seq<Man>, k: nat) returns (n: nat)
    requires multiset(ms) == multiset(mans) && k < |mans|
    ensures n < |ms| && ms[n] == mans[k]
  {
    assert mans[k] in multiset(ms);
    n :| 0 <= n < |ms| && ms[n] == mans[k];
  }

  lemma GoodKept(mans: seq<Man>, ms: seq<Man>)
    requires multiset(ms) == multiset(mans) && forall i :: 0 <= i < |mans| ==> Good(mans[i]) && mans[i].image == mans[0].image
    ensures forall i :: 0 <= i < |ms| ==> Good(ms[i]) && ms[i].image == mans[0].image
  {
    forall i | 0 <= i < |ms|
      ensures Good(ms[i]) && ms[i].image == mans[0].image
    {
      assert ms[i] in multiset(mans);
    }
  }
}
