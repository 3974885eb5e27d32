/** What tarfilter's output says to a reader of archives: exactly the members that were not left out, each as it was. */
module DeltaStream {
  import opened Bytes
  import opened Paths
  import opened TarFormat
  import opened TarFilter

  /** The members that stay in the stream, decided in order. */
  function Kept(c: Config, listed: Listed, es: seq<Entry>): seq<Entry>
    decreases |es|
  {
    if es == [] then []
    else (if Judge(c, listed, es[0]).Keep? then [es[0]] else []) + Kept(c, Mark(c, listed, es[0]), es[1..])
  }

  /** The log lines of the members left out. */
  function LogOf(c: Config, listed: Listed, es: seq<Entry>): seq<Line>
    decreases |es|
  {
    if es == [] then []
    else LinesOf(Judge(c, listed, es[0]), es[0].info) + LogOf(c, Mark(c, listed, es[0]), es[1..])
  }

  /** Extended headers stand directly before their member: no `g` header and not the archive's end after them. */
  predicate Tidy(s: Bytes, e: Ext, pending: bool)
    decreases |s|
  {
    match Step(s, e)
    case Bad => true
    case End => !pending
    case ExtHeader(len, e') => Tidy(s[len..], e', true)
    case Global(len) => !pending && Tidy(s[len..], e, false)
    case Member(len, _) => Tidy(s[len..], NO_EXT, false)
  }

  /** `pend` is a run of extended headers that takes a reader from `e0` to `e1`. */
  ghost predicate ExtRun(pend: Bytes, e0: Ext, e1: Ext)
    decreases |pend|
  {
    if pend == [] then e0 == e1
    else var r := Step(pend, e0); r.ExtHeader? && ExtRun(pend[r.len..], r.ext, e1)
  }

  lemma {:induction false} ExtRunGrows(pend: Bytes, e0: Ext, s: Bytes, e1: Ext)
    requires ExtRun(pend, e0, e1) && Step(s, e1).ExtHeader?
    ensures ExtRun(pend + s[..Step(s, e1).len], e0, Step(s, e1).ext)
    decreases |pend|
  {
    var r := Step(s, e1);
    var more := pend + s[..r.len];
    if pend == [] {
      assert more == s[..r.len];
      StepLocal(s, more, e1);
      assert more[r.len..] == [];
    } else {
      var q := Step(pend, e0);
      StepLocal(pend, more, e0);
      ExtRunGrows(pend[q.len..], q.ext, s, e1);
      assert more[q.len..] == pend[q.len..] + s[..r.len];
    }
  }

  lemma {:induction false} DecodeAfterRun(pend: Bytes, e0: Ext, t: Bytes, e1: Ext)
    requires ExtRun(pend, e0, e1)
    ensures Decode(pend + t, e0) == Decode(t, e1)
    decreases |pend|
  {
    if pend == [] {
      assert pend + t == t;
    } else {
      var q := Step(pend, e0);
      StepLocal(pend, pend + t, e0);
      DecodeAfterRun(pend[q.len..], q.ext, t, e1);
      assert (pend + t)[q.len..] == pend[q.len..] + t;
    }
  }

  /** A member written by tarfilter is read back as the same entry. */
  lemma KeptEntry(c: Config, listed: Listed, s: Bytes, e: Ext, t: Bytes)
    requires Step(s, e).Member?
    ensures var x := EntryAt(s, e);
            var w := Emitted(c, listed, x, s[..Step(s, e).len]) + t;
            && Step(w, e) == Step(s, e) && EntryAt(w, e) == x && w[Step(s, e).len..] == t
  {
    var r, x := Step(s, e), EntryAt(s, e);
    var rec := Emitted(c, listed, x, s[..r.len]);
    var w := rec + t;
    assert |rec| == r.len && rec[..512] == s[..512];
    assert w[..512] == s[..512];
    StepLocal(s, w, e);
    assert w[512..512 + |x.content|] == x.content;
    assert w[r.len..] == t;
  }

  /** `f` is read as the members of `es` that are kept, and its log is that of the others, ended. */
  ghost predicate Reads(c: Config, listed: Listed, es: seq<Entry>, f: Filtered) {
    && f.Filtered?
    && Decode(f.out, NO_EXT) == Some(Kept(c, listed, es))
    && |f.log| > 0 && f.log[|f.log| - 1].E?
    && f.log[..|f.log| - 1] == LogOf(c, listed, es)
  }

  lemma GlobalReads(c: Config, listed: Listed, es: seq<Entry>, s: Bytes, f: Filtered)
    requires Step(s, NO_EXT).Global? && Reads(c, listed, es, f)
    ensures Reads(c, listed, es, Before(s[..Step(s, NO_EXT).len], [], f))
  {
    var len := Step(s, NO_EXT).len;
    StepLocal(s, s[..len] + f.out, NO_EXT);
    assert (s[..len] + f.out)[len..] == f.out;
    assert [] + f.log == f.log;
  }

  lemma MemberLogs(c: Config, listed: Listed, x: Entry, es: seq<Entry>, f: Filtered)
    requires Reads(c, Mark(c, listed, x), es, f)
    ensures var log := LinesOf(Judge(c, listed, x), x.info) + f.log;
            log[|log| - 1].E? && log[..|log| - 1] == LogOf(c, listed, [x] + es)
  {
    var lines := LinesOf(Judge(c, listed, x), x.info);
    var all := [x] + es;
    assert all[0] == x && all[1..] == es;
    assert (lines + f.log)[..|lines + f.log| - 1] == lines + f.log[..|f.log| - 1];
  }

  lemma KeptStream(c: Config, st: State, es: seq<Entry>, s: Bytes, t: Bytes)
    requires Step(s, st.ext).Member? && ExtRun(st.pend, NO_EXT, st.ext)
    requires Decode(t, NO_EXT) == Some(es)
    ensures var x := EntryAt(s, st.ext);
            Decode(st.pend + Emitted(c, st.listed, x, s[..Step(s, st.ext).len]) + t, NO_EXT) == Some([x] + es)
  {
    var x, rec := EntryAt(s, st.ext), s[..Step(s, st.ext).len];
    var w := Emitted(c, st.listed, x, rec) + t;
    KeptEntry(c, st.listed, s, st.ext, t);
    DecodeAfterRun(st.pend, NO_EXT, w, st.ext);
    assert st.pend + Emitted(c, st.listed, x, rec) + t == st.pend + w;
  }

  lemma MemberReads(c: Config, st: State, es: seq<Entry>, s: Bytes, f: Filtered)
    requires Step(s, st.ext).Member? && ExtRun(st.pend, NO_EXT, st.ext)
    requires Reads(c, Mark(c, st.listed, EntryAt(s, st.ext)), es, f)
    ensures var x := EntryAt(s, st.ext);
            Reads(c, st.listed, [x] + es, Before(MemberOut(c, st, x, s[..Step(s, st.ext).len]),
                                                 LinesOf(Judge(c, st.listed, x), x.info), f))
  {
    var x := EntryAt(s, st.ext);
    var all := [x] + es;
    assert all[0] == x && all[1..] == es;
    MemberLogs(c, st.listed, x, es, f);
    if Judge(c, st.listed, x).Keep? {
      KeptStream(c, st, Kept(c, st.listed, es), s, f.out);
    } else {
      assert [] + f.out == f.out;
      assert [] + Kept(c, Mark(c, st.listed, x), es) == Kept(c, Mark(c, st.listed, x), es);
    }
  }

  /** Late differences included, the output's members are the kept ones, entry for entry, and the log is theirs. */
  lemma {:induction false} FilterDecodes(c: Config, s: Bytes, st: State)
    requires Decode(s, st.ext).Some? && Tidy(s, st.ext, st.pend != [])
    requires ExtRun(st.pend, NO_EXT, st.ext)
    ensures Reads(c, st.listed, Decode(s, st.ext).value, FilterSpec(c, s, st))
    decreases |s|
  {
    match Step(s, st.ext) {
      case End =>
        assert Step(s, NO_EXT).End?;
      case ExtHeader(len, e) =>
        ExtRunGrows(st.pend, NO_EXT, s, st.ext);
        FilterDecodes(c, s[len..], st.(pend := st.pend + s[..len], ext := e));
      case Global(len) =>
        FilterDecodes(c, s[len..], st.(pend := []));
        GlobalReads(c, st.listed, Decode(s[len..], NO_EXT).value, s, FilterSpec(c, s[len..], st.(pend := [])));
        assert st.pend + s[..len] == s[..len];
      case Member(len, info) =>
        var x := EntryAt(s, st.ext);
        var next := AfterMember(c, st, x);
        FilterDecodes(c, s[len..], next);
        MemberReads(c, st, Decode(s[len..], NO_EXT).value, s, FilterSpec(c, s[len..], next));
    }
  }
}
