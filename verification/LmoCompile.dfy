/** From the entries of a .po file to the catalog. The hash of a string is a parameter. */
module LmoCompile {
  import opened Bytes
  import opened Lmo

  const KEY_MAX := 4095

  type Word = n: nat | n < 0x1_0000_0000
  type Hash = Bytes -> Word

  datatype Entry = Entry(msgid: Bytes, msgstr: Bytes)
  datatype State = State(values: Bytes, index: seq<Rec>, seen: set<nat>)

  const START := State([], [], {})

  // ---- the header

  const FIELD: Bytes := [112, 108, 117, 114, 97, 108, 45, 102, 111, 114, 109, 115, 58, 32]      // plural-forms:

  function Lower(s: Bytes): Bytes { seq(|s|, i requires 0 <= i < |s| => if 65 <= s[i] <= 90 then s[i] + 32 else s[i]) }

  /** The Plural-Forms field of a header, its fields ended by a backslash and an n; `start` is where the field begins, `p`
      where the scan is, `esc` whether a backslash came before. */
  function FormsFrom(h: Bytes, start: nat, p: nat, esc: bool): Option<Bytes>
    requires p <= |h| && start <= p && (esc ==> start < p)
    decreases |h| - p
  {
    if p == |h| then None
    else if esc then
      if h[p] != 110 then FormsFrom(h, start, p + 1, false)
      else
        var field := h[start..p - 1];
        if |field| >= 14 && Lower(field[..14]) == FIELD then Some(field[14..]) else FormsFrom(h, p + 1, p + 1, false)
    else FormsFrom(h, start, p + 1, h[p] == BACKSLASH)
  }

  function PluralForms(h: Bytes): Option<Bytes> { FormsFrom(h, 0, 0, false) }

  // ---- the values and the index

  function Add(s: State, key: nat, val: nat, value: Bytes): State {
    State(s.values + value + Zeros(Pad(|value|)), s.index + [Rec(key, val, |s.values|, |value|)], s.seen)
  }

  /** An entry that goes into the catalog under its own key. */
  predicate Kept(hash: Hash, e: Entry) {
    e.msgstr != [] && e.msgid != [] && |e.msgid| <= KEY_MAX && hash(e.msgid) != hash(e.msgstr)
  }

  /** One entry; nothing where the compiler refuses it. */
  function Step(hash: Hash, s: State, e: Entry): Option<State> {
    if e.msgstr == [] then Some(s)
    else if e.msgid == [] then
      match PluralForms(e.msgstr)
      case None => Some(s)
      case Some(v) => Some(Add(s, 0, 0, v))
    else if |e.msgid| > KEY_MAX then None
    else if hash(e.msgid) == hash(e.msgstr) then Some(s)
    else if hash(e.msgid) in s.seen then None
    else Some(Add(s, hash(e.msgid), 1, e.msgstr).(seen := s.seen + {hash(e.msgid)}))
  }

  function Steps(hash: Hash, es: seq<Entry>): Option<State> {
    if es == [] then Some(START)
    else match Steps(hash, es[..|es| - 1])
         case None => None
         case Some(s) => Step(hash, s, es[|es| - 1])
  }

  // ---- sorting the index

  function Insert(r: Rec, rs: seq<Rec>): seq<Rec> {
    if rs == [] || r.key <= rs[0].key then [r] + rs else [rs[0]] + Insert(r, rs[1..])
  }

  function Sort(rs: seq<Rec>): seq<Rec> {
    if rs == [] then [] else Insert(rs[0], Sort(rs[1..]))
  }

  /** The catalog: empty when no value is left, nothing when it does not fit 32-bit places. */
  function Compiled(hash: Hash, es: seq<Entry>): Option<Bytes> {
    match Steps(hash, es)
    case None => None
    case Some(s) =>
      if s.values == [] then Some([])
      else if |s.values| >= TWO32 then None
      else Some(FileOf(Catalog(s.values, Sort(s.index))))
  }

  // ---- the program

  /** `compile_po`, from the entries on. */
  method Compile(hash: Hash, es: seq<Entry>) returns (r: Option<Bytes>)
    ensures r == Compiled(hash, es)
  {
    var s := START;
    var i := 0;
    while i < |es|
      invariant 0 <= i <= |es| && Steps(hash, es[..i]) == Some(s)
    {
      assert es[..i + 1][..i] == es[..i];
      var next := Step(hash, s, es[i]);
      if next.None? {
        StepsNone(hash, es, i + 1);
        return None;
      }
      s := next.value;
      i := i + 1;
    }
    assert es[..i] == es;
    if s.values == [] {
      return Some([]);
    }
    if |s.values| >= TWO32 {
      return None;
    }
    r := Some(FileOf(Catalog(s.values, Sort(s.index))));
  }

  lemma {:induction false} StepsNone(hash: Hash, es: seq<Entry>, i: nat)
    requires i <= |es| && Steps(hash, es[..i]).None?
    ensures Steps(hash, es).None?
    decreases |es|
  {
    if i == |es| {
      assert es[..i] == es;
    } else {
      assert es[..|es| - 1][..i] == es[..i];
      StepsNone(hash, es[..|es| - 1], i);
    }
  }

  // ---- sorting keeps what is in the index

  predicate Apart(a: Rec, b: Rec) { (End(a) <= b.off || End(b) <= a.off) && (a.key == b.key ==> a.key == 0) }

  /** Any two records have their own bytes, and their own keys but for key 0. */
  predicate AllApart(rs: seq<Rec>) { forall i, j :: 0 <= i < j < |rs| ==> Apart(rs[i], rs[j]) }

  lemma {:induction false} InsertHas(r: Rec, rs: seq<Rec>, x: Rec)
    ensures x in Insert(r, rs) <==> x == r || x in rs
  {
    if rs != [] {
      InsertHas(r, rs[1..], x);
      assert x in rs <==> x == rs[0] || x in rs[1..];
    }
  }

  lemma {:induction false} InsertApart(r: Rec, rs: seq<Rec>)
    requires AllApart(rs) && forall i :: 0 <= i < |rs| ==> Apart(r, rs[i])
    ensures AllApart(Insert(r, rs))
  {
    if rs != [] && r.key > rs[0].key {
      InsertApart(r, rs[1..]);
      var tail := Insert(r, rs[1..]);
      forall i | 0 <= i < |tail|
        ensures Apart(rs[0], tail[i])
      {
        InsertHas(r, rs[1..], tail[i]);
      }
    }
  }

  lemma {:induction false} InsertSorted(r: Rec, rs: seq<Rec>)
    requires ByKey(rs)
    ensures ByKey(Insert(r, rs))
  {
    if rs != [] && r.key > rs[0].key {
      InsertSorted(r, rs[1..]);
      var tail := Insert(r, rs[1..]);
      forall i | 0 <= i < |tail|
        ensures rs[0].key <= tail[i].key
      {
        InsertHas(r, rs[1..], tail[i]);
      }
    }
  }

  lemma {:induction false} SortHas(rs: seq<Rec>, x: Rec)
    ensures x in Sort(rs) <==> x in rs
  {
    if rs != [] {
      SortHas(rs[1..], x);
      InsertHas(rs[0], Sort(rs[1..]), x);
      assert x in rs <==> x == rs[0] || x in rs[1..];
    }
  }

  lemma {:induction false} SortSorted(rs: seq<Rec>)
    ensures ByKey(Sort(rs)) && (AllApart(rs) ==> AllApart(Sort(rs)))
  {
    if rs != [] {
      SortSorted(rs[1..]);
      InsertSorted(rs[0], Sort(rs[1..]));
      if AllApart(rs) {
        forall i | 0 <= i < |Sort(rs[1..])|
          ensures Apart(rs[0], Sort(rs[1..])[i])
        {
          SortHas(rs[1..], Sort(rs[1..])[i]);
        }
        InsertApart(rs[0], Sort(rs[1..]));
      }
    }
  }

  // ---- what every step keeps

  predicate Placed(values: Bytes, r: Rec) { r.off % 4 == 0 && End(r) <= |values| && r.key < TWO32 && r.val <= 1 }

  ghost predicate Laid(s: State) {
    && |s.values| % 4 == 0 && AllApart(s.index)
    && (forall i :: 0 <= i < |s.index| ==> Placed(s.values, s.index[i]))
    && (forall i :: 0 <= i < |s.index| && s.index[i].key != 0 ==> s.index[i].key in s.seen)
  }

  /** A record that holds a value under a key. */
  predicate Holds(s: State, r: Rec, key: nat, value: Bytes) { r in s.index && r.key == key && Content(s.values, r) == value }

  ghost predicate HoldsSome(s: State, key: nat, value: Bytes) { exists r :: Holds(s, r, key, value) }

  ghost predicate FromEntry(hash: Hash, es: seq<Entry>, s: State, r: Rec) {
    exists i :: 0 <= i < |es| && Kept(hash, es[i]) && r.key == hash(es[i].msgid) && Content(s.values, r) == es[i].msgstr
  }

  lemma AddLaid(s: State, key: nat, val: nat, value: Bytes, s': State)
    requires Laid(s) && key < TWO32 && val <= 1 && (key != 0 ==> key !in s.seen)
    requires s' == Add(s, key, val, value).(seen := s'.seen) && s'.seen >= s.seen && (key != 0 ==> key in s'.seen)
    ensures Laid(s')
    ensures Holds(s', s'.index[|s.index|], key, value)
  {
    var r := Rec(key, val, |s.values|, |value|);
    assert End(r) == |s'.values|;
    forall i | 0 <= i < |s.index|
      ensures Apart(s.index[i], r)
    {
    }
    assert s'.values[r.off..r.off + r.len] == value;
    assert r in s'.index by {
      assert s'.index[|s.index|] == r;
    }
  }

  lemma AddKeeps(s: State, key: nat, val: nat, value: Bytes, s': State, r: Rec)
    requires s' == Add(s, key, val, value).(seen := s'.seen) && r in s.index && Placed(s.values, r)
    ensures r in s'.index && Content(s'.values, r) == Content(s.values, r)
  {
    assert s'.index[..|s.index|] == s.index;
    assert s'.values[r.off..r.off + r.len] == s.values[r.off..r.off + r.len];
  }

  /** After every entry: the index is laid out, and what it holds under keys other than 0 is exactly the kept entries. */
  ghost predicate Inv(hash: Hash, es: seq<Entry>, s: State) {
    && Laid(s)
    && (forall i :: 0 <= i < |es| && Kept(hash, es[i]) ==> HoldsSome(s, hash(es[i].msgid), es[i].msgstr))
    && (forall r :: r in s.index && r.key != 0 ==> FromEntry(hash, es, s, r))
  }

  lemma FromMore(hash: Hash, es: seq<Entry>, e: Entry, s: State, s': State, r: Rec)
    requires FromEntry(hash, es, s, r) && Content(s'.values, r) == Content(s.values, r)
    ensures FromEntry(hash, es + [e], s', r)
  {
    var i :| 0 <= i < |es| && Kept(hash, es[i]) && r.key == hash(es[i].msgid) && Content(s.values, r) == es[i].msgstr;
    assert (es + [e])[i] == es[i];
  }

  /** An entry that adds nothing. */
  lemma InvSkips(hash: Hash, es: seq<Entry>, e: Entry, s: State)
    requires Inv(hash, es, s) && !Kept(hash, e)
    ensures Inv(hash, es + [e], s)
  {
    forall r | r in s.index && r.key != 0
      ensures FromEntry(hash, es + [e], s, r)
    {
      FromMore(hash, es, e, s, s, r);
    }
  }

  lemma StillHolds(s: State, key: nat, val: nat, value: Bytes, s': State, k: nat, v: Bytes)
    requires Laid(s) && HoldsSome(s, k, v) && s' == Add(s, key, val, value).(seen := s'.seen)
    ensures HoldsSome(s', k, v)
  {
    var r :| Holds(s, r, k, v);
    AddKeeps(s, key, val, value, s', r);
    assert Holds(s', r, k, v);
  }

  lemma OldRecord(s: State, key: nat, val: nat, value: Bytes, s': State, r: Rec)
    requires s' == Add(s, key, val, value).(seen := s'.seen) && r in s'.index && r != s'.index[|s.index|]
    ensures r in s.index
  {
  }

  /** An entry that adds a value under a key. */
  lemma InvAdds(hash: Hash, es: seq<Entry>, e: Entry, s: State, key: nat, val: nat, value: Bytes, s': State)
    requires Inv(hash, es, s) && key < TWO32 && val <= 1 && (key != 0 ==> key !in s.seen)
    requires s' == Add(s, key, val, value).(seen := s'.seen) && s'.seen >= s.seen && (key != 0 ==> key in s'.seen)
    requires if Kept(hash, e) then key == hash(e.msgid) && value == e.msgstr else key == 0
    ensures Inv(hash, es + [e], s')
  {
    var all, added := es + [e], s'.index[|s.index|];
    AddLaid(s, key, val, value, s');
    assert Holds(s', added, key, value);
    forall i | 0 <= i < |all| && Kept(hash, all[i])
      ensures HoldsSome(s', hash(all[i].msgid), all[i].msgstr)
    {
      if i < |es| {
        StillHolds(s, key, val, value, s', hash(es[i].msgid), es[i].msgstr);
      }
    }
    forall r | r in s'.index && r.key != 0
      ensures FromEntry(hash, all, s', r)
    {
      if r == added {
        assert all[|es|] == e;
      } else {
        OldRecord(s, key, val, value, s', r);
        AddKeeps(s, key, val, value, s', r);
        FromMore(hash, es, e, s, s', r);
      }
    }
  }

  lemma {:induction false} StepsInv(hash: Hash, es: seq<Entry>)
    requires Steps(hash, es).Some?
    ensures Inv(hash, es, Steps(hash, es).value)
  {
    if es != [] {
      var k := |es| - 1;
      StepsInv(hash, es[..k]);
      var s, e, s' := Steps(hash, es[..k]).value, es[k], Steps(hash, es).value;
      assert es == es[..k] + [e];
      if Kept(hash, e) {
        InvAdds(hash, es[..k], e, s, hash(e.msgid), 1, e.msgstr, s');
      } else if e.msgstr != [] && e.msgid == [] && PluralForms(e.msgstr).Some? {
        InvAdds(hash, es[..k], e, s, 0, 0, PluralForms(e.msgstr).value, s');
      } else {
        InvSkips(hash, es[..k], e, s);
      }
    }
  }

  // ---- the catalog

  lemma CompiledReads(hash: Hash, es: seq<Entry>, f: Bytes)
    requires Compiled(hash, es) == Some(f) && f != []
    ensures Steps(hash, es).Some? && Decode(f) == Some(Catalog(Steps(hash, es).value.values, Sort(Steps(hash, es).value.index)))
  {
    var s := Steps(hash, es).value;
    StepsInv(hash, es);
    var c := Catalog(s.values, Sort(s.index));
    forall i | 0 <= i < |c.index|
      ensures Small(c.index[i])
    {
      SortHas(s.index, c.index[i]);
      assert Placed(s.values, c.index[i]);
    }
    DecodeBack(c);
  }

  /** The values lie on multiples of four, inside the file and apart; the index is sorted and no key but 0 is twice in it. */
  lemma CatalogLaidOut(hash: Hash, es: seq<Entry>, f: Bytes, c: Catalog)
    requires Compiled(hash, es) == Some(f) && f != [] && Decode(f) == Some(c)
    ensures ByKey(c.index) && AllApart(c.index) && forall i :: 0 <= i < |c.index| ==> Placed(c.values, c.index[i])
  {
    CompiledReads(hash, es, f);
    StepsInv(hash, es);
    var s := Steps(hash, es).value;
    SortSorted(s.index);
    forall i | 0 <= i < |c.index|
      ensures Placed(c.values, c.index[i])
    {
      SortHas(s.index, c.index[i]);
    }
  }

  /** A kept entry's key, unless it is 0, is in the index, and every record of that key holds the entry's string. */
  lemma KeptIsFound(hash: Hash, es: seq<Entry>, f: Bytes, c: Catalog, i: nat)
    requires Compiled(hash, es) == Some(f) && f != [] && Decode(f) == Some(c)
    requires i < |es| && Kept(hash, es[i]) && hash(es[i].msgid) != 0
    ensures HasKey(c.index, hash(es[i].msgid))
    ensures forall r :: r in c.index && r.key == hash(es[i].msgid) ==> Content(c.values, r) == es[i].msgstr
  {
    CompiledReads(hash, es, f);
    CatalogLaidOut(hash, es, f, c);
    StepsInv(hash, es);
    var s, key := Steps(hash, es).value, hash(es[i].msgid);
    var q :| Holds(s, q, key, es[i].msgstr);
    SortHas(s.index, q);
    OneKey(c.index, q);
    var j :| 0 <= j < |c.index| && c.index[j] == q;
    assert c.index[j].key == key;
  }

  lemma SamePlace(rs: seq<Rec>, i: nat, j: nat)
    requires AllApart(rs) && i < |rs| && j < |rs| && rs[i].key == rs[j].key && rs[i].key != 0
    ensures i == j
  {
  }

  lemma OneKey(rs: seq<Rec>, q: Rec)
    requires AllApart(rs) && q in rs && q.key != 0
    ensures forall r :: r in rs && r.key == q.key ==> r == q
  {
    var j :| 0 <= j < |rs| && rs[j] == q;
    forall r | r in rs && r.key == q.key
      ensures r == q
    {
      var i :| 0 <= i < |rs| && rs[i] == r;
      SamePlace(rs, i, j);
    }
  }

  /** A key other than 0 that is found is a kept entry's. */
  lemma FoundIsKept(hash: Hash, es: seq<Entry>, f: Bytes, c: Catalog, r: Rec)
    requires Compiled(hash, es) == Some(f) && f != [] && Decode(f) == Some(c) && r in c.index && r.key != 0
    ensures exists i :: 0 <= i < |es| && Kept(hash, es[i]) && r.key == hash(es[i].msgid) && Content(c.values, r) == es[i].msgstr
  {
    CompiledReads(hash, es, f);
    StepsInv(hash, es);
    SortHas(Steps(hash, es).value.index, r);
    assert FromEntry(hash, es, Steps(hash, es).value, r);
  }

  /** A kept entry is never lost to an empty catalog. */
  lemma KeptIsNonEmpty(hash: Hash, es: seq<Entry>, i: nat)
    requires Compiled(hash, es).Some? && i < |es| && Kept(hash, es[i])
    ensures Compiled(hash, es) != Some([])
  {
    StepsInv(hash, es);
    var s := Steps(hash, es).value;
    var r :| Holds(s, r, hash(es[i].msgid), es[i].msgstr);
  }
}
