/** Double-and-add over anything that adds like a commutative group up to an equivalence. */
module DoubleAndAdd {
  datatype Ops<!G> = Ops(on: G -> bool, eq: (G, G) -> bool, add: (G, G) -> G, zero: G)

  /** Names three elements a law is wanted for. */
  ghost predicate At<G>(a: G, b: G, c: G) { true }

  /** The laws, for three elements. */
  ghost predicate LawAt<G>(o: Ops<G>, a: G, b: G, c: G) {
    && (o.on(a) && o.on(b) ==> o.on(o.add(a, b)))
    && o.add(a, b) == o.add(b, a)
    && (o.on(a) ==> o.eq(o.add(o.zero, a), a))
    && o.eq(a, a)
    && (o.eq(a, b) ==> o.eq(b, a))
    && (o.on(b) && o.eq(a, b) && o.eq(b, c) ==> o.eq(a, c))
    && (o.on(a) && o.on(b) && o.on(c) && o.eq(a, b) ==> o.eq(o.add(a, c), o.add(b, c)))
    && (o.on(a) && o.on(b) && o.on(c) ==> o.eq(o.add(o.add(a, b), c), o.add(a, o.add(b, c))))
  }

  ghost predicate Law<G(!new)>(o: Ops<G>) {
    o.on(o.zero) && forall a, b, c {:trigger At(a, b, c)} :: LawAt(o, a, b, c)
  }

  lemma Closed<G(!new)>(o: Ops<G>, a: G, b: G)
    requires Law(o) && o.on(a) && o.on(b)
    ensures o.on(o.add(a, b))
  {
    assert At(a, b, b);
  }

  lemma Commutes<G(!new)>(o: Ops<G>, a: G, b: G)
    requires Law(o)
    ensures o.add(a, b) == o.add(b, a)
  {
    assert At(a, b, b);
  }

  lemma Neutral<G(!new)>(o: Ops<G>, a: G)
    requires Law(o) && o.on(a)
    ensures o.eq(o.add(o.zero, a), a) && o.eq(a, a)
  {
    assert At(a, a, a);
  }

  lemma Symmetric<G(!new)>(o: Ops<G>, a: G, b: G)
    requires Law(o) && o.eq(a, b)
    ensures o.eq(b, a)
  {
    assert At(a, b, b);
  }

  lemma Transitive<G(!new)>(o: Ops<G>, a: G, b: G, c: G)
    requires Law(o) && o.on(b) && o.eq(a, b) && o.eq(b, c)
    ensures o.eq(a, c)
  {
    assert At(a, b, c);
  }

  lemma Respects<G(!new)>(o: Ops<G>, a: G, b: G, c: G)
    requires Law(o) && o.on(a) && o.on(b) && o.on(c) && o.eq(a, b)
    ensures o.eq(o.add(a, c), o.add(b, c)) && o.eq(o.add(c, a), o.add(c, b))
  {
    assert At(a, b, c);
    Commutes(o, a, c);
    Commutes(o, b, c);
  }

  lemma Associates<G(!new)>(o: Ops<G>, a: G, b: G, c: G)
    requires Law(o) && o.on(a) && o.on(b) && o.on(c)
    ensures o.eq(o.add(o.add(a, b), c), o.add(a, o.add(b, c)))
  {
    assert At(a, b, c);
  }

  // ---- the n-fold sum

  function Fold<G>(o: Ops<G>, n: nat, a: G): G {
    if n == 0 then o.zero else o.add(Fold(o, n - 1, a), a)
  }

  lemma {:induction false} FoldOn<G(!new)>(o: Ops<G>, n: nat, a: G)
    requires Law(o) && o.on(a)
    ensures o.on(Fold(o, n, a))
  {
    if n > 0 {
      FoldOn(o, n - 1, a);
      Closed(o, Fold(o, n - 1, a), a);
    }
  }

  /** n times 2a is 2n times a. */
  lemma {:induction false} FoldDoubles<G(!new)>(o: Ops<G>, n: nat, a: G)
    requires Law(o) && o.on(a)
    ensures o.eq(Fold(o, n, o.add(a, a)), Fold(o, 2 * n, a))
    decreases n
  {
    if n == 0 {
      Neutral(o, o.zero);
    } else {
      // (n - 1) d + d = 2(n - 1) a + d = (2(n - 1) a + a) + a
      var d := o.add(a, a);
      var f, g := Fold(o, n - 1, d), Fold(o, 2 * n - 2, a);
      Closed(o, a, a);
      FoldOn(o, n - 1, d);
      FoldOn(o, 2 * n - 2, a);
      FoldDoubles(o, n - 1, a);
      Respects(o, f, g, d);
      Closed(o, g, d);
      Associates(o, g, a, a);
      assert Fold(o, 2 * n, a) == o.add(Fold(o, 2 * n - 1, a), a) == o.add(o.add(g, a), a);
      Symmetric(o, o.add(o.add(g, a), a), o.add(g, d));
      Transitive(o, o.add(f, d), o.add(g, d), Fold(o, 2 * n, a));
    }
  }

  // ---- the loop

  /** r + s pt is the sum asked for. */
  ghost predicate Progress<G(!new)>(o: Ops<G>, r: G, s: nat, pt: G, goal: G) {
    o.on(r) && o.on(pt) && o.eq(o.add(r, Fold(o, s, pt)), goal)
  }

  lemma Starts<G(!new)>(o: Ops<G>, s: nat, pt: G)
    requires Law(o) && o.on(pt)
    ensures Progress(o, o.zero, s, pt, Fold(o, s, pt))
  {
    FoldOn(o, s, pt);
    Neutral(o, Fold(o, s, pt));
  }

  /** One turn: an even s is halved, an odd one gives up one pt first. */
  lemma Continues<G(!new)>(o: Ops<G>, r: G, s: nat, pt: G, goal: G)
    requires Law(o) && Progress(o, r, s, pt, goal) && s > 0
    ensures Progress(o, if s % 2 == 1 then o.add(r, pt) else r, s / 2, o.add(pt, pt), goal)
  {
    var d, half := o.add(pt, pt), s / 2;
    var f, g := Fold(o, half, d), Fold(o, 2 * half, pt);
    Closed(o, pt, pt);
    FoldOn(o, half, d);
    FoldOn(o, 2 * half, pt);
    FoldDoubles(o, half, pt);
    if s % 2 == 0 {
      Respects(o, f, g, r);
      Closed(o, r, g);
      Transitive(o, o.add(r, f), o.add(r, g), goal);
    } else {
      // (r + pt) + f = (r + pt) + g = r + (pt + g) = r + (g + pt)
      var q := o.add(r, pt);
      Closed(o, r, pt);
      Respects(o, f, g, q);
      Closed(o, q, g);
      Associates(o, r, pt, g);
      Commutes(o, pt, g);
      Closed(o, g, pt);
      Closed(o, r, o.add(g, pt));
      assert Fold(o, s, pt) == o.add(g, pt);
      Transitive(o, o.add(q, f), o.add(q, g), o.add(r, o.add(g, pt)));
      Transitive(o, o.add(q, f), o.add(r, o.add(g, pt)), goal);
    }
  }

  lemma Ends<G(!new)>(o: Ops<G>, r: G, pt: G, goal: G)
    requires Law(o) && Progress(o, r, 0, pt, goal)
    ensures o.on(r) && o.eq(r, goal)
  {
    Neutral(o, r);
    Commutes(o, r, o.zero);
    Closed(o, r, o.zero);
    Symmetric(o, o.add(r, o.zero), r);
    Transitive(o, r, o.add(r, o.zero), goal);
  }

  /** Equal elements can stand for each other in a comparison with a sum. */
  lemma ComparesSums<G(!new)>(o: Ops<G>, a: G, a': G, r: G, b: G, b': G)
    requires Law(o) && o.on(a) && o.on(a') && o.on(r) && o.on(b) && o.on(b') && o.eq(a, a') && o.eq(b, b')
    ensures o.eq(a, o.add(r, b)) <==> o.eq(a', o.add(r, b'))
  {
    var s, s' := o.add(r, b), o.add(r, b');
    Respects(o, b, b', r);
    Closed(o, r, b);
    Closed(o, r, b');
    Symmetric(o, a, a');
    Symmetric(o, s, s');
    if o.eq(a, s) {
      Transitive(o, a', a, s);
      Transitive(o, a', s, s');
    }
    if o.eq(a', s') {
      Transitive(o, a, a', s');
      Transitive(o, a, s', s);
    }
  }
}
