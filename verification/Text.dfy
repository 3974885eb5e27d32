/** Text as the tools cut it up and put it together: splitting at a separator, decimal numbers, and order. */
module Text {
  import opened Bytes

  // ---- split and join

  function Split(s: Bytes, c: byte): (r: seq<Bytes>)
    ensures |r| >= 1
  {
    if s == [] then [[]]
    else if s[0] == c then [[]] + Split(s[1..], c)
    else var r := Split(s[1..], c); [[s[0]] + r[0]] + r[1..]
  }

  function Join(parts: seq<Bytes>, c: byte): Bytes
    requires |parts| >= 1
  {
    if |parts| == 1 then parts[0] else parts[0] + [c] + Join(parts[1..], c)
  }

  lemma {:induction false} SplitOne(a: Bytes, c: byte)
    requires c !in a
    ensures Split(a, c) == [a]
  {
    if a != [] {
      SplitOne(a[1..], c);
      assert [a[0]] + a[1..] == a;
    }
  }

  lemma {:induction false} SplitFirst(a: Bytes, c: byte, rest: Bytes)
    requires c !in a
    ensures Split(a + [c] + rest, c) == [a] + Split(rest, c)
  {
    var s := a + [c] + rest;
    if a == [] {
      assert s[1..] == rest;
    } else {
      SplitFirst(a[1..], c, rest);
      assert s[1..] == a[1..] + [c] + rest;
      assert [a[0]] + a[1..] == a;
    }
  }

  /** Splitting undoes joining when no part holds the separator. */
  lemma {:induction false} SplitJoin(parts: seq<Bytes>, c: byte)
    requires |parts| >= 1 && forall i :: 0 <= i < |parts| ==> c !in parts[i]
    ensures Split(Join(parts, c), c) == parts
    decreases |parts|
  {
    if |parts| == 1 {
      SplitOne(parts[0], c);
    } else {
      SplitJoin(parts[1..], c);
      SplitFirst(parts[0], c, Join(parts[1..], c));
    }
  }

  lemma {:induction false} JoinEnd(parts: seq<Bytes>, c: byte)
    requires |parts| >= 1
    ensures Join(parts + [[]], c) == Join(parts, c) + [c]
    decreases |parts|
  {
    if |parts| > 1 {
      JoinEnd(parts[1..], c);
      assert (parts + [[]])[1..] == parts[1..] + [[]];
    } else {
      assert (parts + [[]])[1..] == [[]];
    }
  }

  lemma {:induction false} SplitFree(s: Bytes, c: byte, x: byte)
    ensures forall i :: 0 <= i < |Split(s, c)| ==> c !in Split(s, c)[i] && (x !in s ==> x !in Split(s, c)[i])
  {
    if s != [] {
      SplitFree(s[1..], c, x);
    }
  }

  function NonEmpty(ls: seq<Bytes>): seq<Bytes> {
    if ls == [] then [] else (if ls[0] == [] then [] else [ls[0]]) + NonEmpty(ls[1..])
  }

  lemma {:induction false} NonEmptyAll(ls: seq<Bytes>)
    requires forall i :: 0 <= i < |ls| ==> ls[i] != []
    ensures NonEmpty(ls + [[]]) == ls
  {
    if ls == [] {
      assert NonEmpty([[]][1..]) == [];
      assert (ls + [[]]) == [[]];
    } else {
      NonEmptyAll(ls[1..]);
      assert (ls + [[]])[1..] == ls[1..] + [[]];
    }
  }

  datatype Parts = Parts(found: bool, before: Bytes, after: Bytes)

  /** str.partition: cut at the first separator. */
  function Cut(s: Bytes, c: byte): Parts {
    if s == [] then Parts(false, [], [])
    else if s[0] == c then Parts(true, [], s[1..])
    else var r := Cut(s[1..], c); Parts(r.found, [s[0]] + r.before, r.after)
  }

  lemma {:induction false} CutFirst(a: Bytes, c: byte, rest: Bytes)
    requires c !in a
    ensures Cut(a + [c] + rest, c) == Parts(true, a, rest)
  {
    var s := a + [c] + rest;
    if a == [] {
      assert s[1..] == rest;
    } else {
      CutFirst(a[1..], c, rest);
      assert s[1..] == a[1..] + [c] + rest;
      assert [a[0]] + a[1..] == a;
    }
  }

  lemma {:induction false} CutNone(a: Bytes, c: byte)
    requires c !in a
    ensures Cut(a, c) == Parts(false, a, [])
  {
    if a != [] {
      CutNone(a[1..], c);
    }
  }

  // ---- decimal numbers

  predicate Digit(b: byte) { 48 <= b <= 57 }

  predicate Digits(s: Bytes) { forall i :: 0 <= i < |s| ==> Digit(s[i]) }

  function Show(n: nat): (r: Bytes)
    ensures |r| >= 1 && Digits(r)
  {
    if n < 10 then [48 + n] else Show(n / 10) + [48 + n % 10]
  }

  function Value(s: Bytes): nat
    requires Digits(s)
  {
    if s == [] then 0 else 10 * Value(s[..|s| - 1]) + (s[|s| - 1] - 48)
  }

  function Number(s: Bytes): Option<nat> {
    if s != [] && Digits(s) then Some(Value(s)) else None
  }

  lemma {:induction false} ShowRoundTrip(n: nat)
    ensures Number(Show(n)) == Some(n)
  {
    if n < 10 {
      assert Value([48 + n]) == 10 * Value([48 + n][..0]) + n;
    } else {
      ShowRoundTrip(n / 10);
      assert Show(n)[..|Show(n)| - 1] == Show(n / 10);
    }
  }

  // ---- order

  /** Bytewise order. */
  predicate Le(a: Bytes, b: Bytes) {
    a == [] || (b != [] && (a[0] < b[0] || (a[0] == b[0] && Le(a[1..], b[1..]))))
  }

  lemma {:induction false} LeTotal(a: Bytes, b: Bytes)
    ensures Le(a, b) || Le(b, a)
  {
    if a != [] && b != [] {
      LeTotal(a[1..], b[1..]);
    }
  }

  lemma {:induction false} LeTrans(a: Bytes, b: Bytes, c: Bytes)
    requires Le(a, b) && Le(b, c)
    ensures Le(a, c)
  {
    if a != [] && a[0] == b[0] && b[0] == c[0] {
      LeTrans(a[1..], b[1..], c[1..]);
    }
  }

  lemma {:induction false} LeAnti(a: Bytes, b: Bytes)
    requires Le(a, b) && Le(b, a)
    ensures a == b
  {
    if a != [] {
      LeAnti(a[1..], b[1..]);
      assert a == [a[0]] + a[1..] && b == [b[0]] + b[1..];
    }
  }
}
