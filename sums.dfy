/** Sums of rank values over the pages of a corpus, and counts of pages in
    a set. Sums run over a sequence of pages (the corpus's key order). The
    lemmas add up maps whose values differ by a constant or by a share on
    a set of pages, split a sum of two maps, scale a sum, and bound one
    non-negative value by the total. */
module Sums {
  import opened Graph

  /** The value of `p` in `m`, 0 when `p` has none. */
  function Get(m: map<Page, real>, p: Page): real
  {
    if p in m then m[p] else 0.0
  }

  /** The sum of the values of `m` at the pages `ps`. */
  function Total(ps: seq<Page>, m: map<Page, real>): real
  {
    if ps == [] then 0.0 else Total(ps[..|ps| - 1], m) + Get(m, ps[|ps| - 1])
  }

  /** How many entries of `ps` lie in `s`. */
  function CountIn(ps: seq<Page>, s: set<Page>): nat
  {
    if ps == [] then 0 else CountIn(ps[..|ps| - 1], s) + (if ps[|ps| - 1] in s then 1 else 0)
  }

  lemma ElemsSnoc(ps: seq<Page>)
    requires ps != []
    ensures Elems(ps) == Elems(ps[..|ps| - 1]) + {ps[|ps| - 1]}
  {
    assert ps == ps[..|ps| - 1] + [ps[|ps| - 1]];
  }

  /** Over distinct pages, the count of those in `s` is the size of the
      part of `s` they cover. */
  lemma {:induction false} CountInDistinct(ps: seq<Page>, s: set<Page>)
    requires Distinct(ps)
    ensures CountIn(ps, s) == |s * Elems(ps)|
  {
    if ps != [] {
      var init, last := ps[..|ps| - 1], ps[|ps| - 1];
      CountInDistinct(init, s);
      ElemsSnoc(ps);
      assert last !in Elems(init);
      if last in s {
        assert s * Elems(ps) == s * Elems(init) + {last};
      } else {
        assert s * Elems(ps) == s * Elems(init);
      }
    }
  }

  lemma CountInCovered(ps: seq<Page>, s: set<Page>)
    requires Distinct(ps) && s <= Elems(ps)
    ensures CountIn(ps, s) == |s|
  {
    CountInDistinct(ps, s);
    assert s * Elems(ps) == s;
  }

  /** `n` copies of `a` added up. */
  function Times(n: nat, a: real): real
  {
    if n == 0 then 0.0 else Times(n - 1, a) + a
  }

  lemma {:induction false} TimesIsProduct(n: nat, a: real)
    ensures Times(n, a) == n as real * a
  {
    if n > 0 {
      TimesIsProduct(n - 1, a);
      assert (n - 1) as real * a + a == n as real * a;
    }
  }

  lemma {:induction false} TimesZero(n: nat)
    ensures Times(n, 0.0) == 0.0
  {
    if n > 0 {
      TimesZero(n - 1);
    }
  }

  /** `n` shares of `x / n` make `x`. */
  lemma TimesShare(n: nat, x: real)
    requires n > 0
    ensures Times(n, x / n as real) == x
  {
    TimesIsProduct(n, x / n as real);
    MulDivCancel(n as real, x);
  }

  /** Raising every value on `ps` by `a` raises the total by `|ps|` times
      `a`. */
  lemma {:induction false} TotalConst(ps: seq<Page>, m1: map<Page, real>, m2: map<Page, real>, a: real)
    requires forall p :: p in ps ==> Get(m2, p) == Get(m1, p) + a
    ensures Total(ps, m2) == Total(ps, m1) + Times(|ps|, a)
  {
    if ps != [] {
      TotalConst(ps[..|ps| - 1], m1, m2, a);
    }
  }

  /** Raising every value on `ps` by `a`, and those on the pages of `s` by
      `b` more, raises the total by `|ps|` times `a` plus `b` per page in `s`. */
  lemma {:induction false} TotalShift(ps: seq<Page>, m1: map<Page, real>, m2: map<Page, real>, a: real, b: real, s: set<Page>)
    requires forall p :: p in ps ==> Get(m2, p) == Get(m1, p) + a + (if p in s then b else 0.0)
    ensures Total(ps, m2) == Total(ps, m1) + Times(|ps|, a) + Times(CountIn(ps, s), b)
  {
    if ps != [] {
      TotalShift(ps[..|ps| - 1], m1, m2, a, b, s);
    }
  }

  /** A map whose values are the sums of two maps' values totals the sum of
      their totals. */
  lemma {:induction false} TotalAdd(ps: seq<Page>, m1: map<Page, real>, m2: map<Page, real>, m: map<Page, real>)
    requires forall p :: p in ps ==> Get(m, p) == Get(m1, p) + Get(m2, p)
    ensures Total(ps, m) == Total(ps, m1) + Total(ps, m2)
  {
    if ps != [] {
      TotalAdd(ps[..|ps| - 1], m1, m2, m);
    }
  }

  /** With no negative value on `ps`, each value on `ps` is at most the
      total. */
  lemma {:induction false} TotalBoundsEach(ps: seq<Page>, m: map<Page, real>, p: Page)
    requires forall q :: q in ps ==> Get(m, q) >= 0.0
    requires p in ps
    ensures Get(m, p) <= Total(ps, m)
  {
    var init, last := ps[..|ps| - 1], ps[|ps| - 1];
    assert ps == init + [last];
    TotalNonNegative(init, m);
    if p != last {
      TotalBoundsEach(init, m, p);
    }
  }

  lemma {:induction false} TotalNonNegative(ps: seq<Page>, m: map<Page, real>)
    requires forall q :: q in ps ==> Get(m, q) >= 0.0
    ensures Total(ps, m) >= 0.0
  {
    if ps != [] {
      assert ps == ps[..|ps| - 1] + [ps[|ps| - 1]];
      TotalNonNegative(ps[..|ps| - 1], m);
    }
  }

  /** Fewer copies of a non-negative value add up to no more. */
  lemma {:induction false} TimesMono(m: nat, n: nat, a: real)
    requires m <= n && a >= 0.0
    ensures Times(m, a) <= Times(n, a)
  {
    if m < n {
      TimesMono(m, n - 1, a);
    }
  }

  /** At most `n` of `n` shares of a non-negative `x` make at most `x`. */
  lemma SharesAtMost(k: nat, n: nat, x: real)
    requires 0 < n && k <= n && x >= 0.0
    ensures Times(k, x / n as real) <= x
  {
    TimesMono(k, n, x / n as real);
    TimesShare(n, x);
  }

  /** With no values at all, the total is 0. */
  lemma {:induction false} TotalEmpty(ps: seq<Page>)
    ensures Total(ps, map[]) == 0.0
  {
    if ps != [] {
      TotalEmpty(ps[..|ps| - 1]);
    }
  }

  /** Dividing every value by `k` divides the total by `k`. */
  lemma {:induction false} TotalScale(ps: seq<Page>, m1: map<Page, real>, m2: map<Page, real>, k: real)
    requires k != 0.0
    requires forall p :: p in ps ==> Get(m2, p) == Get(m1, p) / k
    ensures Total(ps, m2) == Total(ps, m1) / k
  {
    if ps != [] {
      var init, last := ps[..|ps| - 1], ps[|ps| - 1];
      TotalScale(init, m1, m2, k);
      DivAdd(Total(init, m1), Get(m1, last), k);
    }
  }

  lemma DivAdd(x: real, y: real, k: real)
    requires k != 0.0
    ensures x / k + y / k == (x + y) / k
  {
  }

  lemma MulDivCancel(n: real, x: real)
    requires n != 0.0
    ensures n * (x / n) == x
  {
  }
}
