/** The LuCI catalog: the values, each padded to four bytes; the index, sorted by key; the place of the index. */
module Lmo {
  import opened Bytes
  import opened Gpt
  import opened BigEndian

  datatype Rec = Rec(key: nat, val: nat, off: nat, len: nat)

  function End(r: Rec): nat { r.off + r.len + Pad(r.len) }

  // ---- records as bytes

  predicate Small(r: Rec) { r.key < TWO32 && r.val < TWO32 && r.off < TWO32 && r.len < TWO32 }

  function RecBytes(r: Rec): (b: Bytes)
    ensures |b| == 16
  {
    ToBE(r.key, 4) + ToBE(r.val, 4) + ToBE(r.off, 4) + ToBE(r.len, 4)
  }

  function ReadRec(b: Bytes): Rec
    requires |b| == 16
  {
    Rec(BE(b[..4]), BE(b[4..8]), BE(b[8..12]), BE(b[12..]))
  }

  lemma RecBack(r: Rec)
    requires Small(r)
    ensures ReadRec(RecBytes(r)) == r
  {
    var b := RecBytes(r);
    assert b[..4] == ToBE(r.key, 4) && b[4..8] == ToBE(r.val, 4) && b[8..12] == ToBE(r.off, 4) && b[12..] == ToBE(r.len, 4);
    Widths();
    BERoundTrip(r.key, 4);
    BERoundTrip(r.val, 4);
    BERoundTrip(r.off, 4);
    BERoundTrip(r.len, 4);
  }

  function Flat(rs: seq<Rec>): (b: Bytes)
    ensures |b| == 16 * |rs|
  {
    if rs == [] then [] else RecBytes(rs[0]) + Flat(rs[1..])
  }

  function Unflat(b: Bytes): seq<Rec>
    requires |b| % 16 == 0
  {
    if b == [] then [] else [ReadRec(b[..16])] + Unflat(b[16..])
  }

  lemma {:induction false} FlatBack(rs: seq<Rec>)
    requires forall i :: 0 <= i < |rs| ==> Small(rs[i])
    ensures Unflat(Flat(rs)) == rs
  {
    if rs != [] {
      var b := Flat(rs);
      assert b[..16] == RecBytes(rs[0]) && b[16..] == Flat(rs[1..]);
      RecBack(rs[0]);
      FlatBack(rs[1..]);
    }
  }

  // ---- the file

  datatype Catalog = Catalog(values: Bytes, index: seq<Rec>)

  function FileOf(c: Catalog): Bytes { c.values + Flat(c.index) + ToBE(|c.values|, 4) }

  /** The format, read from the end: the place of the index, the index, and the values before it. */
  function Decode(f: Bytes): Option<Catalog> {
    if |f| < 4 then None
    else
      var off := BE(f[|f| - 4..]);
      if off > |f| - 4 || (|f| - 4 - off) % 16 != 0 then None
      else Some(Catalog(f[..off], Unflat(f[off..|f| - 4])))
  }

  lemma DecodeBack(c: Catalog)
    requires |c.values| < TWO32 && forall i :: 0 <= i < |c.index| ==> Small(c.index[i])
    ensures Decode(FileOf(c)) == Some(c)
  {
    var f := FileOf(c);
    Widths();
    BERoundTrip(|c.values|, 4);
    Sections(c.values, Flat(c.index), ToBE(|c.values|, 4), f);
    FlatBack(c.index);
  }

  lemma Sections(a: Bytes, b: Bytes, c: Bytes, f: Bytes)
    requires f == a + b + c && |c| == 4
    ensures |f| == |a| + |b| + 4 && f[|f| - 4..] == c && f[..|a|] == a && f[|a|..|f| - 4] == b
  {
  }

  // ---- looking a key up

  predicate ByKey(rs: seq<Rec>) { forall i, j :: 0 <= i < j < |rs| ==> rs[i].key <= rs[j].key }

  /** A search that halves the sorted index. */
  method Find(rs: seq<Rec>, key: nat) returns (at: Option<nat>)
    requires ByKey(rs)
    ensures at.Some? <==> exists i :: 0 <= i < |rs| && rs[i].key == key
    ensures at.Some? ==> at.value < |rs| && rs[at.value].key == key
  {
    var lo, hi := 0, |rs|;
    while lo < hi
      invariant 0 <= lo <= hi <= |rs|
      invariant forall i :: 0 <= i < lo ==> rs[i].key < key
      invariant forall i :: hi <= i < |rs| ==> rs[i].key > key
    {
      var mid := (lo + hi) / 2;
      if rs[mid].key == key {
        return Some(mid);
      } else if rs[mid].key < key {
        lo := mid + 1;
      } else {
        hi := mid;
      }
    }
    at := None;
  }

  /** The value of a key in a catalog file. */
  method Lookup(f: Bytes, key: nat) returns (value: Option<Bytes>)
    requires Decode(f).Some? && ByKey(Decode(f).value.index)
    requires forall i :: 0 <= i < |Decode(f).value.index| ==> Decode(f).value.index[i].off + Decode(f).value.index[i].len <= |Decode(f).value.values|
    ensures value.Some? <==> HasKey(Decode(f).value.index, key)
    ensures value.Some? ==> exists r :: r in Decode(f).value.index && r.key == key && value == Some(Content(Decode(f).value.values, r))
  {
    var c := Decode(f).value;
    var at := Find(c.index, key);
    if at.None? {
      value := None;
    } else {
      var r := c.index[at.value];
      value := Some(c.values[r.off..r.off + r.len]);
      assert r in c.index && value == Some(Content(c.values, r));
    }
  }

  predicate HasKey(rs: seq<Rec>, key: nat) { exists i :: 0 <= i < |rs| && rs[i].key == key }

  /** The bytes of a record, where it lies inside the values. */
  function Content(values: Bytes, r: Rec): Bytes {
    if r.off + r.len <= |values| then values[r.off..r.off + r.len] else []
  }
}
