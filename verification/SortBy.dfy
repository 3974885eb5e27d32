/** Sorting by a key, as Python's `sorted` does it: a stable arrangement in the order of the keys. */
module SortBy {
  import opened Bytes
  import opened Text

  /** Keys are pairs, compared one part after the other. */
  predicate PairLe(a: (Bytes, Bytes), b: (Bytes, Bytes)) {
    Le(a.0, b.0) && (a.0 == b.0 ==> Le(a.1, b.1))
  }

  lemma PairTotal(a: (Bytes, Bytes), b: (Bytes, Bytes))
    ensures PairLe(a, b) || PairLe(b, a)
  {
    LeTotal(a.0, b.0);
    LeTotal(a.1, b.1);
    if Le(a.0, b.0) && Le(b.0, a.0) {
      LeAnti(a.0, b.0);
    }
  }

  lemma PairTrans(a: (Bytes, Bytes), b: (Bytes, Bytes), c: (Bytes, Bytes))
    requires PairLe(a, b) && PairLe(b, c)
    ensures PairLe(a, c)
  {
    LeTrans(a.0, b.0, c.0);
    if a.0 == c.0 {
      LeAnti(a.0, b.0);
      LeTrans(a.1, b.1, c.1);
    }
  }

  function InsertBy<T>(x: T, s: seq<T>, key: T -> (Bytes, Bytes)): seq<T> {
    if s == [] then [x]
    else if PairLe(key(x), key(s[0])) then [x] + s
    else [s[0]] + InsertBy(x, s[1..], key)
  }

  function Sort<T>(s: seq<T>, key: T -> (Bytes, Bytes)): seq<T> {
    if s == [] then [] else InsertBy(s[0], Sort(s[1..], key), key)
  }

  ghost predicate SortedBy<T>(s: seq<T>, key: T -> (Bytes, Bytes)) {
    forall i, j :: 0 <= i < j < |s| ==> PairLe(key(s[i]), key(s[j]))
  }

  lemma {:induction false} InsertKeeps<T>(x: T, s: seq<T>, key: T -> (Bytes, Bytes))
    ensures multiset(InsertBy(x, s, key)) == multiset(s) + multiset{x}
  {
    if s != [] {
      assert s == [s[0]] + s[1..];
      InsertKeeps(x, s[1..], key);
    }
  }

  lemma SortedCons<T>(x: T, s: seq<T>, key: T -> (Bytes, Bytes))
    requires SortedBy(s, key) && forall j :: 0 <= j < |s| ==> PairLe(key(x), key(s[j]))
    ensures SortedBy([x] + s, key)
  {
  }

  lemma {:induction false} InsertSorted<T>(x: T, s: seq<T>, key: T -> (Bytes, Bytes))
    requires SortedBy(s, key)
    ensures SortedBy(InsertBy(x, s, key), key)
  {
    if s != [] {
      PairTotal(key(x), key(s[0]));
      if PairLe(key(x), key(s[0])) {
        forall j | 0 <= j < |s|
          ensures PairLe(key(x), key(s[j]))
        {
          if j > 0 {
            PairTrans(key(x), key(s[0]), key(s[j]));
          }
        }
        SortedCons(x, s, key);
      } else {
        InsertSorted(x, s[1..], key);
        InsertAbove(s[0], x, s[1..], key);
        SortedCons(s[0], InsertBy(x, s[1..], key), key);
      }
    }
  }

  lemma {:induction false} InsertAbove<T>(low: T, x: T, s: seq<T>, key: T -> (Bytes, Bytes))
    requires PairLe(key(low), key(x)) && forall j :: 0 <= j < |s| ==> PairLe(key(low), key(s[j]))
    ensures forall j :: 0 <= j < |InsertBy(x, s, key)| ==> PairLe(key(low), key(InsertBy(x, s, key)[j]))
  {
    if s != [] {
      InsertAbove(low, x, s[1..], key);
    }
  }

  lemma {:induction false} SortSorts<T>(s: seq<T>, key: T -> (Bytes, Bytes))
    ensures SortedBy(Sort(s, key), key) && multiset(Sort(s, key)) == multiset(s)
  {
    if s != [] {
      SortSorts(s[1..], key);
      InsertSorted(s[0], Sort(s[1..], key), key);
      InsertKeeps(s[0], Sort(s[1..], key), key);
      assert s == [s[0]] + s[1..];
    }
  }

  // ---- lists without repeats

  predicate NoRepeats(ls: seq<Bytes>) {
    forall i, j :: 0 <= i < j < |ls| ==> ls[i] != ls[j]
  }

  lemma SameMembers(a: seq<Bytes>, b: seq<Bytes>)
    requires multiset(a) == multiset(b)
    ensures forall x :: x in a <==> x in b
  {
    forall x
      ensures x in a <==> x in b
    {
      assert x in a <==> x in multiset(a);
      assert x in b <==> x in multiset(b);
    }
  }

  lemma {:induction false} CountOnce(s: seq<Bytes>, x: Bytes)
    requires NoRepeats(s)
    ensures multiset(s)[x] <= 1
  {
    if s != [] {
      CountOnce(s[1..], x);
      assert s == [s[0]] + s[1..];
    }
  }

  lemma NoRepeatsKept(a: seq<Bytes>, b: seq<Bytes>)
    requires NoRepeats(a) && multiset(a) == multiset(b)
    ensures NoRepeats(b)
  {
    forall i, j | 0 <= i < j < |b|
      ensures b[i] != b[j]
    {
      CountOnce(a, b[i]);
      TwiceCounts(b, i, j);
    }
  }

  lemma TwiceCounts(b: seq<Bytes>, i: nat, j: nat)
    requires i < j < |b|
    ensures b[i] == b[j] ==> multiset(b)[b[i]] >= 2
  {
    assert b == b[..i] + [b[i]] + b[i + 1..j] + [b[j]] + b[j + 1..];
  }
}
