/** What `make` writes, `check` accepts, and what `check` accepts gives the new image. */
module ImageDiffProof {
  import opened Bytes
  import opened Paths
  import opened Text
  import opened Manifest
  import opened ImageEntries
  import opened ImageDiff

  predicate DistinctPaths(ms: seq<Member>) {
    forall i, j :: 0 <= i < j < |ms| ==> ms[i].path != ms[j].path
  }

  // ---- the entries of an image with some files left out

  lemma PlainName(p: Path)
    requires BACKSLASH !in p && NEWLINE !in p && SLASH !in p && p != [DOT, DOT]
    ensures Escape(p) == p && !Outside(p)
  {
    EscapeSame(p);
    SplitOne(p, SLASH);
  }

  /** The head's name is a plain one. */
  lemma HeadPlain(head: Path)
    requires head == HEAD
    ensures Escape(head) == head && !Outside(head) && head != [] && head != SELF
  {
    assert |head| == 11 && |SELF| == 27;
    assert BACKSLASH !in head && NEWLINE !in head && SLASH !in head;
    PlainName(head);
  }

  /** The scan of the image and the scan of the diff, after the same members. */
  ghost predicate Related(s: Scan, d: Scan, skip: set<Bytes>) {
    && (forall p :: p != HEAD ==> (p in d.out <==> p in s.out && p !in skip))
    && (forall p :: p != HEAD && p in d.out ==> d.out[p] == s.out[p])
    && (forall q :: q in s.files && Escape(q) !in skip ==> q in d.files && d.files[q] == s.files[q])
  }

  /** A set of names that can be left out: no hard link, no file a hard link names, not the manifest, not the root. */
  ghost predicate Skippable(skip: set<Bytes>, linked: set<Bytes>) {
    skip !! linked && SELF !in skip && [] !in skip
  }

  lemma SkippedStep(hash: Hash, s: Scan, d: Scan, skip: set<Bytes>, m: Member, s': Scan)
    requires Related(s, d, skip) && Name(m) in skip && Step(hash, s, m) == Some(s')
    ensures Related(s', d, skip)
  {
  }

  lemma KeptStep(hash: Hash, s: Scan, d: Scan, skip: set<Bytes>, m: Member, s': Scan)
    requires Related(s, d, skip) && Name(m) !in skip && Step(hash, s, m) == Some(s')
    requires m.kind.HardLink? ==> Escape(m.kind.target) !in skip
    ensures Step(hash, d, m).Some? && Related(s', Step(hash, d, m).value, skip)
  {
  }

  lemma {:induction false} LinkedOf(ms: seq<Member>, i: nat)
    requires i < |ms| && ms[i].kind.HardLink?
    ensures Escape(ms[i].kind.target) in Linked(ms) && Name(ms[i]) in Linked(ms)
    decreases |ms|
  {
    if i < |ms| - 1 {
      LinkedOf(ms[..|ms| - 1], i);
    }
  }

  lemma {:induction false} DiffScan(hash: Hash, ms: seq<Member>, head: Member, skip: set<Bytes>, linked: set<Bytes>)
    requires Skippable(skip, linked) && Linked(ms) <= linked && Entries(hash, ms).Some?
    requires head.path == HEAD && head.kind.Regular?
    ensures Entries(hash, [head] + Without(ms, skip)).Some?
    ensures Related(Entries(hash, ms).value, Entries(hash, [head] + Without(ms, skip)).value, skip)
    decreases |ms|
  {
    var diff := [head] + Without(ms, skip);
    if ms == [] {
      HeadPlain(head.path);
      assert diff == [head] && diff[..0] == [];
      assert Entries(hash, diff[..0]) == Some(Scan(map[], map[]));
    } else {
      var k := |ms| - 1;
      var m, before := ms[k], [head] + Without(ms[..k], skip);
      DiffScan(hash, ms[..k], head, skip, linked);
      var s, d, s' := Entries(hash, ms[..k]).value, Entries(hash, before).value, Entries(hash, ms).value;
      if Name(m) in skip {
        assert diff == before;
        SkippedStep(hash, s, d, skip, m, s');
      } else {
        if m.kind.HardLink? {
          LinkedOf(ms, k);
        }
        KeptStep(hash, s, d, skip, m, s');
        assert diff == before + [m];
        EntriesNext(hash, before, m, d);
      }
    }
  }

  lemma EntriesNext(hash: Hash, ms: seq<Member>, m: Member, s: Scan)
    requires Entries(hash, ms) == Some(s)
    ensures Entries(hash, ms + [m]) == Step(hash, s, m)
  {
    assert (ms + [m])[..|ms|] == ms;
  }

  // ---- what is left out

  predicate IsLineOf(line: Bytes, p: Bytes) { HasPath(line) && PathOf(line) == p }

  predicate HasLine(left: seq<Bytes>, p: Bytes) {
    exists i :: 0 <= i < |left| && IsLineOf(left[i], p)
  }

  predicate SomeGoes(ms: seq<Member>, lines: map<Bytes, Bytes>, base: map<Bytes, Bytes>, linked: set<Bytes>, p: Bytes) {
    exists j :: 0 <= j < |ms| && Goes(ms[j], lines, base, linked) && Name(ms[j]) == p
  }

  lemma HasLineNext(left: seq<Bytes>, line: Bytes, p: Bytes)
    requires HasPath(line)
    ensures HasLine(left + [line], p) <==> HasLine(left, p) || PathOf(line) == p
  {
    var all := left + [line];
    assert all[|left|] == line;
    assert forall i :: 0 <= i < |left| ==> all[i] == left[i];
  }

  lemma SomeGoesNext(ms: seq<Member>, lines: map<Bytes, Bytes>, base: map<Bytes, Bytes>, linked: set<Bytes>, p: Bytes)
    requires ms != []
    ensures SomeGoes(ms, lines, base, linked, p) <==> SomeGoes(ms[..|ms| - 1], lines, base, linked, p) || (Goes(ms[|ms| - 1], lines, base, linked) && Name(ms[|ms| - 1]) == p)
  {
    assert forall j :: 0 <= j < |ms| - 1 ==> ms[..|ms| - 1][j] == ms[j];
  }

  /** A path is left out exactly when a member of that path may go. */
  lemma {:induction false} LeftPaths(ms: seq<Member>, lines: map<Bytes, Bytes>, base: map<Bytes, Bytes>, linked: set<Bytes>, left: seq<Bytes>, p: Bytes)
    requires Keyed(lines) && LeftOut(ms, lines, base, linked) == Some(left)
    ensures HasLine(left, p) <==> SomeGoes(ms, lines, base, linked, p)
    decreases |ms|
  {
    if ms != [] {
      var k := |ms| - 1;
      var m, had := ms[k], LeftOut(ms[..k], lines, base, linked).value;
      LeftPaths(ms[..k], lines, base, linked, had, p);
      SomeGoesNext(ms, lines, base, linked, p);
      if Goes(m, lines, base, linked) {
        HasLineNext(had, lines[Name(m)], p);
      }
    }
  }

  predicate DistinctLines(left: seq<Bytes>) {
    forall i, j :: 0 <= i < j < |left| && HasPath(left[i]) && HasPath(left[j]) ==> PathOf(left[i]) != PathOf(left[j])
  }

  /** No path is left out twice. */
  lemma {:induction false} LeftDistinct(ms: seq<Member>, lines: map<Bytes, Bytes>, base: map<Bytes, Bytes>, linked: set<Bytes>, left: seq<Bytes>)
    requires Keyed(lines) && DistinctPaths(ms) && LeftOut(ms, lines, base, linked) == Some(left)
    ensures DistinctLines(left)
    decreases |ms|
  {
    if ms != [] {
      var k := |ms| - 1;
      var m, had := ms[k], LeftOut(ms[..k], lines, base, linked).value;
      LeftDistinct(ms[..k], lines, base, linked, had);
      if Goes(m, lines, base, linked) {
        LeftPaths(ms[..k], lines, base, linked, had, Name(m));
        NotAmong(ms, lines, base, linked);
        DistinctNext(had, lines[Name(m)]);
      }
    }
  }

  lemma NotAmong(ms: seq<Member>, lines: map<Bytes, Bytes>, base: map<Bytes, Bytes>, linked: set<Bytes>)
    requires ms != [] && DistinctPaths(ms)
    ensures !SomeGoes(ms[..|ms| - 1], lines, base, linked, Name(ms[|ms| - 1]))
  {
    var k := |ms| - 1;
    forall j | 0 <= j < k
      ensures Name(ms[..k][j]) != Name(ms[k])
    {
      if Name(ms[j]) == Name(ms[k]) {
        EscapeTells(ms[j].path, ms[k].path);
      }
    }
  }

  lemma DistinctNext(left: seq<Bytes>, line: Bytes)
    requires DistinctLines(left) && HasPath(line) && !HasLine(left, PathOf(line))
    ensures DistinctLines(left + [line])
  {
    assert forall i :: 0 <= i < |left| ==> (left + [line])[i] == left[i];
  }

  /** Every line left out is of a regular member that may go. */
  lemma {:induction false} LeftFrom(ms: seq<Member>, lines: map<Bytes, Bytes>, base: map<Bytes, Bytes>, linked: set<Bytes>, left: seq<Bytes>, i: nat) returns (j: nat)
    requires Keyed(lines) && LeftOut(ms, lines, base, linked) == Some(left) && i < |left|
    ensures j < |ms| && Goes(ms[j], lines, base, linked) && Get(lines, Name(ms[j])) == Some(left[i])
    decreases |ms|
  {
    var k := |ms| - 1;
    var had := LeftOut(ms[..k], lines, base, linked).value;
    LeftGrows(ms, lines, base, linked, left, had);
    if i < |had| {
      j := LeftFrom(ms[..k], lines, base, linked, had, i);
    } else {
      j := k;
    }
  }

  lemma LeftGrows(ms: seq<Member>, lines: map<Bytes, Bytes>, base: map<Bytes, Bytes>, linked: set<Bytes>, left: seq<Bytes>, had: seq<Bytes>)
    requires ms != [] && LeftOut(ms, lines, base, linked) == Some(left) && LeftOut(ms[..|ms| - 1], lines, base, linked) == Some(had)
    ensures left == had || (Goes(ms[|ms| - 1], lines, base, linked) && Name(ms[|ms| - 1]) in lines && left == had + [lines[Name(ms[|ms| - 1])]])
  {
  }

  // ---- the entries of an image

  lemma EntryStays(hash: Hash, s: Scan, m: Member, s': Scan, p: Bytes)
    requires Step(hash, s, m) == Some(s') && Name(m) != p
    ensures Get(s'.out, p) == Get(s.out, p)
  {
  }

  lemma EntryMade(hash: Hash, s: Scan, m: Member, s': Scan)
    requires Step(hash, s, m) == Some(s') && m.kind.Regular? && !Passed(m)
    ensures Get(s'.out, Name(m)) == Some(LineText(m, Sum(|m.data|, hash(m.data))))
  {
  }

  lemma {:induction false} EntryOf(hash: Hash, ms: seq<Member>, i: nat)
    requires DistinctPaths(ms) && Entries(hash, ms).Some? && i < |ms| && ms[i].kind.Regular? && !Passed(ms[i])
    ensures Get(Entries(hash, ms).value.out, Name(ms[i])) == Some(LineText(ms[i], Sum(|ms[i].data|, hash(ms[i].data))))
    decreases |ms|
  {
    var k := |ms| - 1;
    var s, s' := Entries(hash, ms[..k]).value, Entries(hash, ms).value;
    if i < k {
      EntryOf(hash, ms[..k], i);
      if Name(ms[k]) == Name(ms[i]) {
        EscapeTells(ms[k].path, ms[i].path);
      }
      EntryStays(hash, s, ms[k], s', Name(ms[i]));
    } else {
      EntryMade(hash, s, ms[k], s');
    }
  }

  predicate Present(ms: seq<Member>, p: Bytes) {
    exists i :: 0 <= i < |ms| && !Passed(ms[i]) && Name(ms[i]) == p
  }

  lemma {:induction false} EntriesHave(hash: Hash, ms: seq<Member>, p: Bytes)
    requires Entries(hash, ms).Some?
    ensures p in Entries(hash, ms).value.out <==> Present(ms, p)
    decreases |ms|
  {
    if ms != [] {
      var k := |ms| - 1;
      EntriesHave(hash, ms[..k], p);
      assert forall j :: 0 <= j < k ==> ms[..k][j] == ms[j];
      assert Present(ms, p) <==> Present(ms[..k], p) || (!Passed(ms[k]) && Name(ms[k]) == p);
    }
  }

  // ---- the lines put back

  function AddAll(got: map<Bytes, Bytes>, left: seq<Bytes>): map<Bytes, Bytes>
    requires forall i :: 0 <= i < |left| ==> HasPath(left[i])
    decreases |left|
  {
    if left == [] then got else AddAll(got[PathOf(left[0]) := left[0]], left[1..])
  }

  /** What is asked of a line whatever the diff holds. */
  predicate Fit(line: Bytes, lines: map<Bytes, Bytes>, base: map<Bytes, Bytes>, linked: set<Bytes>) { MayPut(map[], line, lines, base, linked) }

  ghost predicate AllFit(got: map<Bytes, Bytes>, left: seq<Bytes>, lines: map<Bytes, Bytes>, base: map<Bytes, Bytes>, linked: set<Bytes>) {
    && (forall i :: 0 <= i < |left| ==> Fit(left[i], lines, base, linked) && PathOf(left[i]) !in got)
    && DistinctLines(left)
  }

  /** The lines go back exactly when each of them may. */
  lemma {:induction false} PutBackIs(got: map<Bytes, Bytes>, left: seq<Bytes>, lines: map<Bytes, Bytes>, base: map<Bytes, Bytes>, linked: set<Bytes>)
    ensures PutBack(got, left, lines, base, linked).Some? <==> AllFit(got, left, lines, base, linked)
    ensures AllFit(got, left, lines, base, linked) ==> PutBack(got, left, lines, base, linked) == Some(AddAll(got, left))
    decreases |left|
  {
    if left != [] {
      if MayPut(got, left[0], lines, base, linked) {
        PutBackIs(got[PathOf(left[0]) := left[0]], left[1..], lines, base, linked);
        AllFitCons(got, left, lines, base, linked);
      }
    }
  }

  lemma AllFitCons(got: map<Bytes, Bytes>, left: seq<Bytes>, lines: map<Bytes, Bytes>, base: map<Bytes, Bytes>, linked: set<Bytes>)
    requires left != [] && MayPut(got, left[0], lines, base, linked)
    ensures AllFit(got, left, lines, base, linked) <==> AllFit(got[PathOf(left[0]) := left[0]], left[1..], lines, base, linked)
  {
    var got', rest := got[PathOf(left[0]) := left[0]], left[1..];
    if AllFit(got, left, lines, base, linked) {
      assert forall i :: 0 <= i < |rest| ==> rest[i] == left[i + 1];
    }
    if AllFit(got', rest, lines, base, linked) {
      forall i | 0 <= i < |left|
        ensures Fit(left[i], lines, base, linked) && PathOf(left[i]) !in got
      {
        assert i > 0 ==> left[i] == rest[i - 1];
      }
      forall i, j | 0 <= i < j < |left| && HasPath(left[i]) && HasPath(left[j])
        ensures PathOf(left[i]) != PathOf(left[j])
      {
        assert left[j] == rest[j - 1];
        assert i > 0 ==> left[i] == rest[i - 1];
      }
    }
  }

  lemma {:induction false} AddAllHas(got: map<Bytes, Bytes>, left: seq<Bytes>, lines: map<Bytes, Bytes>, p: Bytes)
    requires forall i :: 0 <= i < |left| ==> HasPath(left[i]) && Get(lines, PathOf(left[i])) == Some(left[i])
    ensures p in AddAll(got, left) <==> p in got || HasLine(left, p)
    ensures HasLine(left, p) ==> p in lines && AddAll(got, left)[p] == lines[p]
    ensures p in got && !HasLine(left, p) ==> AddAll(got, left)[p] == got[p]
    decreases |left|
  {
    if left != [] {
      AddAllHas(got[PathOf(left[0]) := left[0]], left[1..], lines, p);
      HasLineCons(left, p);
    }
  }

  lemma HasLineCons(left: seq<Bytes>, p: Bytes)
    requires left != [] && HasPath(left[0])
    ensures HasLine(left, p) <==> PathOf(left[0]) == p || HasLine(left[1..], p)
  {
    if HasLine(left[1..], p) {
      var i :| 0 <= i < |left[1..]| && IsLineOf(left[1..][i], p);
      assert IsLineOf(left[i + 1], p);
    }
    if HasLine(left, p) && PathOf(left[0]) != p {
      var i :| 0 <= i < |left| && IsLineOf(left[i], p);
      assert IsLineOf(left[1..][i - 1], p);
    }
  }
}
