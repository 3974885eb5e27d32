/** The program tarfilter, proved to compute `FilterSpec` (tools/carry/mu300-carry.c:1073-1282). */
module TarFilterRun {
  import opened Bytes
  import opened Paths
  import opened TarFormat
  import opened TarFilter

  const CHUNK: nat := 65536

  /** OLD's bytes from 0 up to `upto`, read again block by block. */
  method Replay(content: Bytes, upto: nat) returns (out: Bytes)
    requires upto <= |content|
    ensures out == content[..upto]
  {
    var o := 0;
    out := [];
    while o < upto
      invariant 0 <= o <= upto
      invariant out == content[..o]
    {
      var m := if upto - o < CHUNK then upto - o else CHUNK;
      out := out + content[o..o + m];
      o := o + m;
    }
  }

  /** A record that is not compared: its `total` data bytes pass block by block. */
  method PassThrough(rest: Bytes, total: nat) returns (out: Bytes)
    requires total <= |rest|
    ensures out == rest[..total]
  {
    var left := total;
    out := [];
    while left > 0
      invariant 0 <= left <= total
      invariant out == rest[..total - left]
    {
      var k := if left < CHUNK then left else CHUNK;
      var pos := total - left;
      out := out + rest[pos..pos + k];
      left := left - k;
    }
  }

  /** The first `pos` bytes that passed are OLD's, as far as they are real; `nul`: one of those is NUL. */
  ghost predicate Agrees(have: Bytes, rest: Bytes, pos: nat, nul: bool) {
    var m := Min(pos, |have|);
    m <= |rest| && have[..m] == rest[..m] && (nul <==> NUL in rest[..m])
  }

  lemma AgreesFurther(have: Bytes, rest: Bytes, pos: nat, n: nat, nul: bool)
    requires Agrees(have, rest, pos, nul) && pos + n <= |have| && pos + n <= |rest|
    requires have[pos..pos + n] == rest[pos..pos + n]
    ensures Agrees(have, rest, pos + n, nul || NUL in rest[pos..pos + n])
  {
    assert rest[..pos + n] == rest[..pos] + rest[pos..pos + n];
    assert have[..pos + n] == have[..pos] + have[pos..pos + n];
  }

  /** One block of a member that was OLD's so far: still the same, or everything that passed goes out, from OLD. */
  method CompareBlock(have: Content, front: Bytes, rest: Bytes, pos: nat, k: nat, nul: bool)
    returns (same: bool, nul': bool, out: Bytes)
    requires Agrees(have, rest, pos, nul) && pos <= |have| <= |rest| && pos + k <= |rest|
    ensures same ==> out == [] && Agrees(have, rest, pos + k, nul')
    ensures !same ==> out == front + rest[..pos] && have != rest[..|have|]
  {
    var n := if pos + k > |have| then |have| - pos else k;
    same, nul', out := have[pos..pos + n] == rest[pos..pos + n], nul, [];
    if same {
      AgreesFurther(have, rest, pos, n, nul);
      nul' := nul || NUL in rest[pos..pos + n];
    } else {
      var passed := Replay(have, pos);
      out := front + passed;
      assert rest[pos..pos + n] == rest[..|have|][pos..pos + n];
    }
  }

  lemma PassedOn(front: Bytes, rest: Bytes, pos: nat, k: nat)
    requires pos + k <= |rest|
    ensures front + rest[..pos] + rest[pos..pos + k] == front + rest[..pos + k]
  {
  }

  /** The data of a candidate member against OLD's file `have` of the same size; at the first difference `front` (the
      pending extended headers and the header) and everything that passed go out, from OLD. */
  method Compare(have: Content, front: Bytes, rest: Bytes, total: nat) returns (same: bool, nul: bool, out: Bytes)
    requires total % 512 == 0 && |have| <= total <= |have| + 511 && total <= |rest|
    ensures same == (have == rest[..|have|])
    ensures same ==> out == [] && nul == (NUL in have)
    ensures !same ==> out == front + rest[..total]
  {
    var pos := 0;
    same, nul, out := true, false, [];
    ghost var blocks, last := 0, total / 512;
    while pos < total
      invariant 0 <= pos == 512 * blocks <= total
      invariant same ==> out == [] && Agrees(have, rest, pos, nul)
      invariant !same ==> out == front + rest[..pos] && have != rest[..|have|]
    {
      var k := if total - pos < CHUNK then total - pos else CHUNK;
      if same {
        // every block but the last lies wholly inside the real size
        assert pos <= |have|;
        same, nul, out := CompareBlock(have, front, rest, pos, k, nul);
      }
      if !same {
        PassedOn(front, rest, pos, k);
        out := out + rest[pos..pos + k];
      }
      pos := pos + k;
      blocks := if pos == total then last else blocks + 128;
    }
  }

  /** A candidate member: left out (`same`), or everything of it written. */
  method PassCandidate(c: Config, info: Info, front: Bytes, rest: Bytes) returns (same: bool, out: Bytes)
    requires Blocks(info.size) * 512 <= |rest|
    ensures var total := Blocks(info.size) * 512;
            var content := rest[..Min(info.size, total)];
            var isOld := Comparable(c, info) && c.have[info.name].content == content;
            && same == (isOld && (c.every ==> NUL in content))
            && out == (if same then [] else if isOld then front + content + Zeros(total - |content|)
                       else front + rest[..total])
  {
    var total := Blocks(info.size) * 512;
    if !Comparable(c, info) {
      var data := PassThrough(rest, total);
      return false, front + data;
    }
    var have, nul := c.have[info.name].content, false;
    BlocksEnough(info.size);
    BlocksBound(info.size);
    same, nul, out := Compare(have, front, rest, total);
    if same && c.every && !nul {
      // in `*` mode a candidate without a NUL stays in the archive
      same := false;
      var text := Replay(have, info.size);
      out := front + text + Zeros(total - info.size);
    }
  }

  /** Padding is less than a block. */
  lemma BlocksBound(size: nat)
    ensures Blocks(size) * 512 <= size + 511
  {
    var n := (size + 511) % TWO64;
    assert n <= size + 511;
    assert n / 512 * 512 <= n;
  }

  lemma BlocksEnough(size: nat)
    ensures size < TWO63 ==> size <= Blocks(size) * 512
  {
    if size < TWO63 {
      assert (size + 511) % TWO64 == size + 511;
    }
  }

  lemma BeforeTwice(a: Bytes, b: Bytes, k: seq<Line>, l: seq<Line>, f: Filtered)
    ensures Before(a, k, Before(b, l, f)) == Before(a + b, k + l, f)
  {
    if f.Filtered? {
      assert a + (b + f.out) == a + b + f.out;
      assert k + (l + f.log) == k + l + f.log;
    }
  }

  lemma Joined(a: Bytes, b: Bytes, c: Bytes, d: Bytes)
    ensures a + b + c == a + (b + c) && a + b + c + d == a + (b + c + d)
  {
  }

  /** One member, `hdr` and the stream after it: decided, written or left out, and the pending headers forgotten. */
  method FilterMember(c: Config, st: State, info: Info, hdr: Bytes, rest: Bytes)
    returns (out: Bytes, lines: seq<Line>, st': State)
    requires |hdr| == 512 && Blocks(info.size) * 512 <= |rest|
    ensures var total := Blocks(info.size) * 512;
            var x := Entry(info, MetaOf(hdr), rest[..Min(info.size, total)]);
            && out == MemberOut(c, st, x, hdr + rest[..total])
            && lines == LinesOf(Judge(c, st.listed, x), info)
            && st' == AfterMember(c, st, x)
  {
    st' := st.(pend := [], ext := NO_EXT);
    out, lines := [], [];
    if info.typ == TYPE_LINK && info.Link() in st.listed && st.listed[info.Link()] {
      lines := [H(info.name), T(info.Link())];
    } else if Candidate(c, st.listed, info) {
      var same;
      same, out := PassCandidate(c, info, st.pend + hdr, rest);
      if same {
        st' := st'.(listed := st.listed[info.name := true], leftOut := st.leftOut + Kib(info.size));
        lines := [D(info.name)];
      } else {
        st' := st'.(written := st.written + Kib(info.size));
        ghost var total := Blocks(info.size) * 512;
        ghost var content := rest[..Min(info.size, total)];
        Joined(st.pend, hdr, rest[..total], []);
        Joined(st.pend, hdr, content, Zeros(total - |content|));
        assert (hdr + rest[..total])[..512] == hdr;
      }
    } else {
      var data := PassThrough(rest, Blocks(info.size) * 512);
      out := st.pend + (hdr + data);
      if IsRegular(info.typ) {
        st' := st'.(written := st.written + Kib(info.size));
      }
    }
  }

  /** The member record at the front of `s`, taken apart. */
  lemma MemberParts(s: Bytes, e: Ext)
    requires Step(s, e).Member?
    ensures var r := Step(s, e);
            var total := Blocks(r.info.size) * 512;
            && total <= |s[512..]| && s[..r.len] == s[..512] + s[512..][..total]
            && EntryAt(s, e) == Entry(r.info, MetaOf(s[..512]), s[512..][..Min(r.info.size, total)])
  {
  }

  /** cmd_tarfilter, from the stream to the filtered stream and its log. */
  method Run(c: Config, inp: Bytes, list: Listed) returns (r: Filtered)
    ensures r == FilterSpec(c, inp, State([], NO_EXT, list, 0, 0))
  {
    ghost var goal := FilterSpec(c, inp, State([], NO_EXT, list, 0, 0));
    var s := inp;
    var out: Bytes, log: seq<Line> := [], [];
    var st := State([], NO_EXT, list, 0, 0);
    while true
      invariant goal == Before(out, log, FilterSpec(c, s, st))
      decreases |s|
    {
      match Step(s, st.ext) {
        case Bad =>
          return Died;
        case End =>
          if st.pend != [] {
            return Died;
          }
          return Filtered(out + s, log + [E(st.leftOut, st.written)]);
        case ExtHeader(len, e) =>
          st := st.(pend := st.pend + s[..len], ext := e);
          s := s[len..];
        case Global(len) =>
          var data := PassThrough(s, len);
          BeforeTwice(out, st.pend + data, log, [], FilterSpec(c, s[len..], st.(pend := [])));
          assert log + [] == log;
          out := out + (st.pend + data);
          st := st.(pend := []);
          s := s[len..];
        case Member(len, info) =>
          MemberParts(s, st.ext);
          var bytes, lines, next := FilterMember(c, st, info, s[..512], s[512..]);
          BeforeTwice(out, bytes, log, lines, FilterSpec(c, s[len..], next));
          out, log, st, s := out + bytes, log + lines, next, s[len..];
      }
    }
  }
}
