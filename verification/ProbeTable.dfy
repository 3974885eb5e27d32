/** The open-addressing tables of the carry tool: the set of paths with a flag each (`pset`) and the first copied name of
    every inode (`seen`). A key is looked for from its hash on, slot by slot and around the end, up to the key or an
    empty slot. The hash is any function. */
module ProbeTable {
  import opened Bytes

  datatype Entry<K, V> = Entry(key: K, value: V)

  const FIRST_CAP := 1024

  predicate PowerOfTwo(n: nat) { n == 1 || (n > 1 && n % 2 == 0 && PowerOfTwo(n / 2)) }

  // ---- the probe walk

  /** How many steps the walk takes from slot h to slot i. */
  function Steps(h: nat, i: nat, cap: nat): nat
    requires h < cap && i < cap
  {
    if h <= i then i - h else i + cap - h
  }

  function After(i: nat, cap: nat): (j: nat)
    requires i < cap
    ensures j < cap
  {
    if i + 1 == cap then 0 else i + 1
  }

  lemma AfterWraps(i: nat, cap: nat)
    requires i < cap
    ensures After(i, cap) == (i + 1) % cap
  {
    if i + 1 == cap {
      assert cap % cap == 0;
    }
  }

  function Home<K>(hash: K -> nat, k: K, cap: nat): (h: nat)
    requires cap > 0
    ensures h < cap
  {
    hash(k) % cap
  }

  /** The walk from h is at slot j before it is at slot i. */
  predicate Before(h: nat, j: nat, i: nat, cap: nat)
    requires h < cap && i < cap && j < cap
  {
    Steps(h, j, cap) < Steps(h, i, cap)
  }

  /** No empty slot lies between the home of k and slot i. */
  ghost predicate Reaches<K, V>(hash: K -> nat, s: seq<Option<Entry<K, V>>>, k: K, i: nat)
    requires i < |s|
  {
    forall j :: 0 <= j < |s| && Before(Home(hash, k, |s|), j, i, |s|) ==> s[j].Some?
  }

  ghost predicate Chained<K, V>(hash: K -> nat, s: seq<Option<Entry<K, V>>>) {
    forall i :: 0 <= i < |s| && s[i].Some? ==> Reaches(hash, s, s[i].value.key, i)
  }

  ghost predicate Distinct<K, V>(s: seq<Option<Entry<K, V>>>) {
    forall i, j :: 0 <= i < j < |s| && s[i].Some? && s[j].Some? ==> s[i].value.key != s[j].value.key
  }

  /** The slots hold exactly the bindings of the map. */
  ghost predicate Stores<K, V>(s: seq<Option<Entry<K, V>>>, m: map<K, V>) {
    && (forall i :: 0 <= i < |s| && s[i].Some? ==> s[i].value.key in m && m[s[i].value.key] == s[i].value.value)
    && (forall k :: k in m ==> Has(s, k))
  }

  ghost predicate Has<K, V>(s: seq<Option<Entry<K, V>>>, k: K) {
    exists i :: 0 <= i < |s| && s[i].Some? && s[i].value.key == k
  }

  ghost predicate Table<K, V>(hash: K -> nat, s: seq<Option<Entry<K, V>>>, m: map<K, V>) {
    Chained(hash, s) && Distinct(s) && Stores(s, m)
  }

  /** The walk for k from its home passed over occupied slots of other keys up to slot i. */
  ghost predicate Passed<K, V>(hash: K -> nat, s: seq<Option<Entry<K, V>>>, k: K, i: nat)
    requires i < |s|
  {
    forall j :: 0 <= j < |s| && Before(Home(hash, k, |s|), j, i, |s|) ==> s[j].Some? && s[j].value.key != k
  }

  /** More slots than bindings: one slot is empty, so every walk ends. */
  lemma {:induction false} SomeEmpty<K, V>(s: seq<Option<Entry<K, V>>>, keys: set<K>)
    requires Distinct(s) && |keys| < |s|
    requires forall i :: 0 <= i < |s| && s[i].Some? ==> s[i].value.key in keys
    ensures exists i :: 0 <= i < |s| && s[i].None?
    decreases |s|
  {
    var last := s[|s| - 1];
    if last.Some? {
      var t := s[..|s| - 1];
      SomeEmpty(t, keys - {last.value.key});
      var i :| 0 <= i < |t| && t[i].None?;
      assert s[i].None?;
    }
  }

  /** A walk that ends at an empty slot ends there because the key is not stored. */
  lemma EndsAbsent<K, V>(hash: K -> nat, s: seq<Option<Entry<K, V>>>, m: map<K, V>, k: K, i: nat)
    requires Table(hash, s, m) && i < |s| && Passed(hash, s, k, i) && s[i].None?
    ensures k !in m
  {
    forall j | 0 <= j < |s| && s[j].Some?
      ensures s[j].value.key != k
    {
      var h := Home(hash, k, |s|);
      assert Before(h, j, i, |s|) || Before(h, i, j, |s|);
      assert Reaches(hash, s, s[j].value.key, j);
    }
    assert !Has(s, k);
  }

  /** One step of the walk. */
  lemma StepOn<K, V>(hash: K -> nat, s: seq<Option<Entry<K, V>>>, k: K, i: nat, free: nat)
    requires i < |s| && free < |s| && Passed(hash, s, k, i) && s[i].Some? && s[i].value.key != k && s[free].None?
    ensures Passed(hash, s, k, After(i, |s|))
    ensures Steps(After(i, |s|), free, |s|) < Steps(i, free, |s|)
  {
    var h, i' := Home(hash, k, |s|), After(i, |s|);
    forall j | 0 <= j < |s| && Before(h, j, i', |s|)
      ensures s[j].Some? && s[j].value.key != k
    {
      assert j == i || Before(h, j, i, |s|);
    }
  }

  lemma InsertedChains<K, V>(hash: K -> nat, s: seq<Option<Entry<K, V>>>, k: K, v: V, i: nat, t: seq<Option<Entry<K, V>>>)
    requires Chained(hash, s) && i < |s| && Passed(hash, s, k, i)
    requires t == s[i := Some(Entry(k, v))]
    ensures Chained(hash, t)
  {
    forall q | 0 <= q < |t| && t[q].Some?
      ensures Reaches(hash, t, t[q].value.key, q)
    {
      if q != i {
        assert Reaches(hash, s, s[q].value.key, q);
      }
    }
  }

  lemma InsertedStores<K, V>(s: seq<Option<Entry<K, V>>>, m: map<K, V>, k: K, v: V, i: nat, t: seq<Option<Entry<K, V>>>, n: map<K, V>)
    requires Stores(s, m) && i < |s| && s[i].None? && k !in m
    requires t == s[i := Some(Entry(k, v))] && n == m[k := v]
    ensures Stores(t, n)
  {
    forall q | q in n
      ensures Has(t, q)
    {
      if q == k {
        assert t[i].Some? && t[i].value.key == k;
      } else {
        assert Has(s, q);
        var j :| 0 <= j < |s| && s[j].Some? && s[j].value.key == q;
        assert t[j].Some? && t[j].value.key == q;
      }
    }
  }

  lemma InsertedDistinct<K, V>(s: seq<Option<Entry<K, V>>>, m: map<K, V>, k: K, v: V, i: nat, t: seq<Option<Entry<K, V>>>)
    requires Distinct(s) && Stores(s, m) && i < |s| && k !in m && t == s[i := Some(Entry(k, v))]
    ensures Distinct(t)
  {
  }

  /** Putting a new key where its walk ended keeps the table. */
  lemma Inserted<K, V>(hash: K -> nat, s: seq<Option<Entry<K, V>>>, m: map<K, V>, k: K, v: V, i: nat, t: seq<Option<Entry<K, V>>>, n: map<K, V>)
    requires Table(hash, s, m) && i < |s| && Passed(hash, s, k, i) && s[i].None?
    requires t == s[i := Some(Entry(k, v))] && n == m[k := v]
    ensures Table(hash, t, n) && |n| == |m| + 1
  {
    EndsAbsent(hash, s, m, k, i);
    assert n.Keys == m.Keys + {k};
    InsertedChains(hash, s, k, v, i, t);
    InsertedStores(s, m, k, v, i, t, n);
    InsertedDistinct(s, m, k, v, i, t);
  }

  lemma ChangedStores<K, V>(s: seq<Option<Entry<K, V>>>, m: map<K, V>, v: V, i: nat, t: seq<Option<Entry<K, V>>>, n: map<K, V>)
    requires Distinct(s) && Stores(s, m) && i < |s| && s[i].Some?
    requires t == s[i := Some(Entry(s[i].value.key, v))] && n == m[s[i].value.key := v]
    ensures Stores(t, n)
  {
    forall q | q in n
      ensures Has(t, q)
    {
      assert Has(s, q);
      var j :| 0 <= j < |s| && s[j].Some? && s[j].value.key == q;
      assert t[j].Some? && t[j].value.key == q;
    }
  }

  lemma ChangedChains<K, V>(hash: K -> nat, s: seq<Option<Entry<K, V>>>, v: V, i: nat, t: seq<Option<Entry<K, V>>>)
    requires Chained(hash, s) && i < |s| && s[i].Some?
    requires t == s[i := Some(Entry(s[i].value.key, v))]
    ensures Chained(hash, t)
  {
    forall q | 0 <= q < |t| && t[q].Some?
      ensures Reaches(hash, t, t[q].value.key, q)
    {
      assert Reaches(hash, s, s[q].value.key, q);
    }
  }

  /** Changing the value of a stored key keeps the table. */
  lemma Changed<K, V>(hash: K -> nat, s: seq<Option<Entry<K, V>>>, m: map<K, V>, v: V, i: nat, t: seq<Option<Entry<K, V>>>, n: map<K, V>)
    requires Table(hash, s, m) && i < |s| && s[i].Some?
    requires t == s[i := Some(Entry(s[i].value.key, v))] && n == m[s[i].value.key := v]
    ensures Table(hash, t, n) && |n| == |m|
  {
    assert n.Keys == m.Keys;
    ChangedChains(hash, s, v, i, t);
    ChangedStores(s, m, v, i, t, n);
  }

  /** `pset_slot`, `seen_slot`: the walk ends, at the key if it is stored and at an empty slot if it is not. */
  method Slot<K(==), V>(hash: K -> nat, a: array<Option<Entry<K, V>>>, ghost m: map<K, V>, k: K) returns (i: nat)
    requires Table(hash, a[..], m) && |m| < a.Length
    ensures i < a.Length && Passed(hash, a[..], k, i)
    ensures k in m ==> a[i] == Some(Entry(k, m[k]))
    ensures k !in m ==> a[i].None?
  {
    ghost var s := a[..];
    SomeEmpty(s, m.Keys);
    ghost var free :| 0 <= free < |s| && s[free].None?;
    i := hash(k) % a.Length;
    while a[i].Some? && a[i].value.key != k
      invariant i < a.Length && Passed(hash, s, k, i)
      decreases Steps(i, free, a.Length)
    {
      StepOn(hash, s, k, i, free);
      i := After(i, a.Length);
    }
    if a[i].None? {
      EndsAbsent(hash, s, m, k, i);
    }
  }

  /** Puts a key that is not stored where its walk ends. */
  method Put<K(==), V>(hash: K -> nat, a: array<Option<Entry<K, V>>>, ghost m: map<K, V>, e: Entry<K, V>)
    requires Table(hash, a[..], m) && |m| < a.Length && e.key !in m
    modifies a
    ensures Table(hash, a[..], m[e.key := e.value]) && |m[e.key := e.value]| == |m| + 1
  {
    ghost var s := a[..];
    var j := Slot(hash, a, m, e.key);
    Inserted(hash, s, m, e.key, e.value, j, s[j := Some(e)], m[e.key := e.value]);
    a[j] := Some(e);
    assert a[..] == s[j := Some(e)];
  }

  method MoveOne<K(==), V>(hash: K -> nat, e: Option<Entry<K, V>>, t: array<Option<Entry<K, V>>>,
                           ghost s: seq<Option<Entry<K, V>>>, ghost i: nat, ghost done: map<K, V>, ghost m: map<K, V>)
    returns (ghost done': map<K, V>)
    requires i < |s| && e == s[i] && |m| < t.Length && Table(hash, t[..], done) && Partial(s, i, done, m)
    modifies t
    ensures Table(hash, t[..], done') && Partial(s, i + 1, done', m)
  {
    PartialNext(s, i, done, m);
    done' := done;
    if e.Some? {
      Put(hash, t, done, e.value);
      done' := done[e.value.key := e.value.value];
    }
  }

  /** The move to a larger table: every binding of the old slots, and no other, is in the new ones. */
  method Rehash<K(==), V>(hash: K -> nat, a: array<Option<Entry<K, V>>>, ghost m: map<K, V>, cap: nat)
    returns (t: array<Option<Entry<K, V>>>)
    requires Table(hash, a[..], m) && |m| < cap
    ensures fresh(t) && t.Length == cap && Table(hash, t[..], m)
  {
    ghost var s := a[..];
    t := new Option<Entry<K, V>>[cap](_ => None);
    ghost var done: map<K, V> := map[];
    EmptyTable(hash, t[..], s, m);
    var i := 0;
    while i < a.Length
      invariant i <= a.Length && fresh(t) && t.Length == cap && a[..] == s
      invariant Table(hash, t[..], done) && Partial(s, i, done, m)
    {
      done := MoveOne(hash, a[i], t, s, i, done, m);
      i := i + 1;
    }
    AllMoved(s, done, m, a.Length);
  }

  class Probe<K(==), V> {
    const hash: K -> nat
    var slots: array<Option<Entry<K, V>>>
    var n: nat
    ghost var bindings: map<K, V>

    /** At most half the slots are used. */
    ghost predicate Valid()
      reads this, slots
    {
      && Table(hash, slots[..], bindings)
      && n == |bindings| && 2 * n <= slots.Length
      && (slots.Length == 0 || (slots.Length >= FIRST_CAP && PowerOfTwo(slots.Length)))
    }

    constructor (h: K -> nat)
      ensures Valid() && hash == h && bindings == map[] && fresh(slots)
    {
      hash := h;
      slots := new Option<Entry<K, V>>[0];
      n := 0;
      bindings := map[];
    }

    /** `pset_find`, `seen_find`: the key's slot, or nothing exactly when the key was never added. */
    method Find(k: K) returns (r: Option<nat>)
      requires Valid()
      ensures r.Some? <==> k in bindings
      ensures r.Some? ==> r.value < slots.Length && slots[r.value] == Some(Entry(k, bindings[k]))
    {
      if slots.Length == 0 {
        return None;
      }
      var i := Slot(hash, slots, bindings, k);
      r := if slots[i].Some? then Some(i) else None;
    }

    /** The flag of a found path, set in place. */
    method Change(i: nat, v: V)
      requires Valid() && i < slots.Length && slots[i].Some?
      modifies this`bindings, slots
      ensures Valid() && bindings == old(bindings[slots[i].value.key := v])
    {
      Changed(hash, slots[..], bindings, v, i, slots[..][i := Some(Entry(slots[i].value.key, v))], bindings[slots[i].value.key := v]);
      bindings := bindings[slots[i].value.key := v];
      slots[i] := Some(Entry(slots[i].value.key, v));
      assert slots[..] == old(slots[..])[i := Some(Entry(old(slots[i].value.key), v))];
    }

    method Grow()
      requires Valid() && 2 * (n + 1) > slots.Length
      modifies this`slots
      ensures Valid() && fresh(slots) && 2 * (n + 1) <= slots.Length
    {
      var cap := if slots.Length > 0 then 2 * slots.Length else FIRST_CAP;
      CapDoubles(slots.Length, cap);
      slots := Rehash(hash, slots, bindings, cap);
    }

    /** `pset_add`, `seen_add`: a new key is added; a stored key keeps its value. */
    method Add(k: K, v: V)
      requires Valid()
      modifies this, slots
      ensures Valid() && (fresh(slots) || slots == old(slots))
      ensures bindings == if k in old(bindings) then old(bindings) else old(bindings)[k := v]
    {
      if 2 * (n + 1) > slots.Length {
        Grow();
      }
      var r := Find(k);
      if r.None? {
        Put(hash, slots, bindings, Entry(k, v));
        bindings := bindings[k := v];
        n := n + 1;
      }
    }
  }

  // ---- moving to the larger table

  /** The map holds the bindings of the first i slots. */
  ghost predicate Moved<K, V>(s: seq<Option<Entry<K, V>>>, i: nat, done: map<K, V>) {
    && i <= |s|
    && (forall j :: 0 <= j < i && s[j].Some? ==> s[j].value.key in done && done[s[j].value.key] == s[j].value.value)
    && (forall k :: k in done ==> Has(s[..i], k))
  }

  ghost predicate Below<K, V>(a: map<K, V>, b: map<K, V>) {
    forall k :: k in a ==> k in b && b[k] == a[k]
  }

  lemma Fewer<K, V>(a: map<K, V>, b: map<K, V>)
    requires Below(a, b)
    ensures |a| <= |b|
  {
    assert a.Keys <= b.Keys;
    Subset(a.Keys, b.Keys);
  }

  lemma Subset<K>(a: set<K>, b: set<K>)
    requires a <= b
    ensures |a| <= |b|
  {
    assert b == a + (b - a);
  }

  lemma NotYet<K, V>(s: seq<Option<Entry<K, V>>>, i: nat, done: map<K, V>)
    requires i < |s| && Moved(s, i, done) && Distinct(s) && s[i].Some?
    ensures s[i].value.key !in done
    ensures Moved(s, i + 1, done[s[i].value.key := s[i].value.value])
  {
    var k := s[i].value.key;
    assert k !in done by {
      assert !Has(s[..i], k);
    }
    var next := done[k := s[i].value.value];
    forall q | q in next
      ensures Has(s[..i + 1], q)
    {
      if q == k {
        assert s[..i + 1][i].value.key == k;
      } else {
        assert Has(s[..i], q);
        var j :| 0 <= j < |s[..i]| && s[..i][j].Some? && s[..i][j].value.key == q;
        assert s[..i + 1][j] == s[..i][j];
      }
    }
  }

  ghost predicate Partial<K, V>(s: seq<Option<Entry<K, V>>>, i: nat, done: map<K, V>, m: map<K, V>) {
    Moved(s, i, done) && Below(done, m) && Distinct(s) && Stores(s, m)
  }

  lemma EmptyTable<K, V>(hash: K -> nat, t: seq<Option<Entry<K, V>>>, s: seq<Option<Entry<K, V>>>, m: map<K, V>)
    requires Distinct(s) && Stores(s, m) && forall i :: 0 <= i < |t| ==> t[i].None?
    ensures Table(hash, t, map[]) && Partial(s, 0, map[], m)
  {
  }

  lemma PartialNext<K, V>(s: seq<Option<Entry<K, V>>>, i: nat, done: map<K, V>, m: map<K, V>)
    requires Partial(s, i, done, m) && i < |s|
    ensures |done| <= |m|
    ensures s[i].None? ==> Partial(s, i + 1, done, m)
    ensures s[i].Some? ==> s[i].value.key !in done && Partial(s, i + 1, done[s[i].value.key := s[i].value.value], m)
  {
    Fewer(done, m);
    if s[i].Some? {
      NotYet(s, i, done);
      BelowNext(s, i, done, m);
    } else {
      Skipped(s, i, done);
    }
  }

  lemma Skipped<K, V>(s: seq<Option<Entry<K, V>>>, i: nat, done: map<K, V>)
    requires i < |s| && Moved(s, i, done) && s[i].None?
    ensures Moved(s, i + 1, done)
  {
    forall q | q in done
      ensures Has(s[..i + 1], q)
    {
      assert Has(s[..i], q);
      var j :| 0 <= j < |s[..i]| && s[..i][j].Some? && s[..i][j].value.key == q;
      assert s[..i + 1][j] == s[..i][j];
    }
  }

  lemma BelowNext<K, V>(s: seq<Option<Entry<K, V>>>, i: nat, done: map<K, V>, m: map<K, V>)
    requires i < |s| && Stores(s, m) && Below(done, m) && s[i].Some?
    ensures Below(done[s[i].value.key := s[i].value.value], m)
  {
  }

  lemma AllMoved<K, V>(s: seq<Option<Entry<K, V>>>, done: map<K, V>, m: map<K, V>, i: nat)
    requires Partial(s, i, done, m) && i == |s|
    ensures done == m
  {
    forall k | k in m
      ensures k in done
    {
      assert Has(s, k);
    }
  }

  lemma CapDoubles(was: nat, cap: nat)
    requires was == 0 || (was >= FIRST_CAP && PowerOfTwo(was))
    requires cap == if was > 0 then 2 * was else FIRST_CAP
    ensures cap >= FIRST_CAP && PowerOfTwo(cap)
  {
    if was == 0 {
      assert PowerOfTwo(4) && PowerOfTwo(16);
      assert PowerOfTwo(64);
      assert PowerOfTwo(256);
    }
  }
}
