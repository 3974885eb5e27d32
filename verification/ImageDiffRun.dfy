/** The programs behind `image-diff.py make` and `check`. */
module ImageDiffRun {
  import opened Bytes
  import Paths
  import opened Text
  import opened Manifest
  import opened ImageEntries
  import opened ImageDiff

  method LinkedRun(ms: seq<Member>) returns (linked: set<Bytes>)
    ensures linked == Linked(ms)
  {
    linked := {};
    var i := 0;
    while i < |ms|
      invariant 0 <= i <= |ms| && linked == Linked(ms[..i])
    {
      assert ms[..i + 1][..i] == ms[..i];
      if ms[i].kind.HardLink? {
        linked := linked + {Name(ms[i])} + {Paths.Escape(ms[i].kind.target)};
      }
      i := i + 1;
    }
    assert ms[..i] == ms;
  }

  method LeftRun(ms: seq<Member>, lines: map<Bytes, Bytes>, base: map<Bytes, Bytes>, linked: set<Bytes>) returns (r: Option<seq<Bytes>>)
    ensures r == LeftOut(ms, lines, base, linked)
  {
    var left: seq<Bytes> := [];
    var i := 0;
    while i < |ms|
      invariant 0 <= i <= |ms| && LeftOut(ms[..i], lines, base, linked) == Some(left)
    {
      assert ms[..i + 1][..i] == ms[..i];
      if Goes(ms[i], lines, base, linked) {
        if Name(ms[i]) !in lines {
          LeftNone(ms, lines, base, linked, i + 1);
          return None;
        }
        left := left + [lines[Name(ms[i])]];
      }
      i := i + 1;
    }
    assert ms[..i] == ms;
    r := Some(left);
  }

  lemma {:induction false} LeftNone(ms: seq<Member>, lines: map<Bytes, Bytes>, base: map<Bytes, Bytes>, linked: set<Bytes>, i: nat)
    requires i <= |ms| && LeftOut(ms[..i], lines, base, linked).None?
    ensures LeftOut(ms, lines, base, linked).None?
    decreases |ms|
  {
    if i == |ms| {
      assert ms[..i] == ms;
    } else {
      assert ms[..|ms| - 1][..i] == ms[..i];
      LeftNone(ms[..|ms| - 1], lines, base, linked, i);
    }
  }

  method Copy(ms: seq<Member>, skip: set<Bytes>, head: Member) returns (diff: seq<Member>)
    ensures diff == [head] + Without(ms, skip)
  {
    diff := [head];
    var i := 0;
    while i < |ms|
      invariant 0 <= i <= |ms| && diff == [head] + Without(ms[..i], skip)
    {
      assert ms[..i + 1][..i] == ms[..i];
      if Name(ms[i]) !in skip {
        diff := diff + [ms[i]];
      }
      i := i + 1;
    }
    assert ms[..i] == ms;
  }

  /** `make` */
  method MakeRun(c: Tools, base: Bytes, ms: seq<Member>) returns (r: Option<seq<Member>>)
    ensures r == Make(c, base, ms)
  {
    var b := ReadManifest(base);
    var text := Carried(c, ms);
    if b.None? || text.None? {
      return None;
    }
    var n := ReadManifest(text.value);
    if n.None? || b.value.image != n.value.image || b.value.tag == n.value.tag {
      return None;
    }
    ReadKeyed(text.value);
    var linked := LinkedRun(ms);
    var left := LeftRun(ms, n.value.lines, b.value.lines, linked);
    if left.None? {
      return None;
    }
    LeftOutKeyed(ms, n.value.lines, b.value.lines, linked);
    var head := HeadMember(HeadText(n.value.image, b.value.tag, n.value.tag, left.value));
    var diff := Copy(ms, PathsOf(left.value), head);
    r := Some(diff);
  }

  method PutBackRun(got0: map<Bytes, Bytes>, left: seq<Bytes>, lines: map<Bytes, Bytes>, base: map<Bytes, Bytes>, linked: set<Bytes>)
    returns (r: Option<map<Bytes, Bytes>>)
    ensures r == PutBack(got0, left, lines, base, linked)
  {
    var got := got0;
    var i := 0;
    assert left[0..] == left;
    while i < |left|
      invariant 0 <= i <= |left|
      invariant PutBack(got0, left, lines, base, linked) == PutBack(got, left[i..], lines, base, linked)
    {
      assert left[i..][1..] == left[i + 1..];
      if !MayPut(got, left[i], lines, base, linked) {
        return None;
      }
      got := got[PathOf(left[i]) := left[i]];
      i := i + 1;
    }
    r := Some(got);
  }

  /** `check` */
  method CheckRun(c: Tools, base: Bytes, ms: seq<Member>, diff: seq<Member>) returns (ok: bool)
    ensures ok <==> Check(c, base, ms, diff)
  {
    var b := ReadManifest(base);
    var n := CarriedInfo(c, ms);
    if b.None? || n.None? || diff == [] || diff[0].path != HEAD || !diff[0].kind.Regular? {
      return false;
    }
    var ls := Split(diff[0].data, NEWLINE);
    if ls[0] != HeadLine(n.value.image, b.value.tag, n.value.tag) {
      return false;
    }
    var scan := EntriesRun(c.hash, diff);
    if scan.None? {
      return false;
    }
    var got := scan.value.out - {HEAD};
    var linked := LinkedRun(ms);
    var all := PutBackRun(got, NonEmpty(ls[1..]), n.value.lines, b.value.lines, linked);
    ok := all == Some(n.value.lines) && Carried(c, diff) == Carried(c, ms);
  }
}
