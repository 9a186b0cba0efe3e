/** Where the rank goes in a round of `iterate_pagerank`: the total it
    keeps or loses, and the bounds that keep every rank between 0 and 1. */
module Mass {
  import opened Graph
  import opened Sums
  import opened Iteration

  /** The inflow of every page, as a map. */
  function InflowMap(c: Corpus, d: real, rank: map<Page, real>, qs: seq<Page>): map<Page, real>
  {
    map p | p in c.links :: Inflow(c, d, rank, p, qs)
  }

  /** Every rank multiplied by the damping factor. */
  function Damped(d: real, rank: map<Page, real>): map<Page, real>
  {
    map q | q in rank :: d * rank[q]
  }

  lemma GetDamped(d: real, rank: map<Page, real>, q: Page)
    ensures Get(Damped(d, rank), q) == d * Get(rank, q)
  {
  }

  /** Multiplying every rank by `d` multiplies the total by `d`. */
  lemma {:induction false} DampedTotal(ps: seq<Page>, d: real, rank: map<Page, real>)
    ensures Total(ps, Damped(d, rank)) == d * Total(ps, rank)
  {
    if ps != [] {
      var init, last := ps[..|ps| - 1], ps[|ps| - 1];
      DampedTotal(init, d, rank);
      Distribute(d, Total(init, rank), Get(rank, last), Total(ps, rank));
    }
  }

  lemma Distribute(d: real, x: real, y: real, z: real)
    requires z == x + y
    ensures d * x + d * y == d * z
  {
  }

  /** Appending a page `q` with out-links adds its share
      `d * rank(q) / L` once for each of its links that is a page. */
  lemma ShareStep(c: Corpus, d: real, rank: map<Page, real>, qs: seq<Page>, q: Page)
    requires c.Valid() && q in c.links && c.links[q] != {}
    ensures Total(c.pages, InflowMap(c, d, rank, qs + [q]))
         == Total(c.pages, InflowMap(c, d, rank, qs))
            + Times(CountIn(c.pages, c.links[q]), d * Get(rank, q) / |c.links[q]| as real)
  {
    var out := c.links[q];
    var share := d * Get(rank, q) / |out| as real;
    InflowSnoc(c, d, rank, qs, q);
    assert forall p :: p in c.pages ==>
      Get(InflowMap(c, d, rank, qs + [q]), p)
        == Get(InflowMap(c, d, rank, qs), p) + 0.0 + (if p in out then share else 0.0);
    TotalShift(c.pages, InflowMap(c, d, rank, qs), InflowMap(c, d, rank, qs + [q]), 0.0, share, out);
    TimesZero(|c.pages|);
  }

  /** The pages `qs + [q]` pass on `d * rank(q)` more than the pages `qs`,
      when `q` has out-links, all inside the corpus. */
  lemma InflowStepMass(c: Corpus, d: real, rank: map<Page, real>, qs: seq<Page>, q: Page)
    requires c.Valid() && c.Closed() && q in c.links && c.links[q] != {}
    ensures Total(c.pages, InflowMap(c, d, rank, qs + [q]))
         == Total(c.pages, InflowMap(c, d, rank, qs)) + d * Get(rank, q)
  {
    ShareStep(c, d, rank, qs, q);
    CountInCovered(c.pages, c.links[q]);
    TimesShare(|c.links[q]|, d * Get(rank, q));
  }

  /** No linking pages pass on nothing. */
  lemma InflowNone(c: Corpus, d: real, rank: map<Page, real>)
    ensures Total(c.pages, InflowMap(c, d, rank, [])) == 0.0
  {
    assert forall p :: p in c.pages ==>
      Get(InflowMap(c, d, rank, []), p) == Get(map[], p) + 0.0;
    TotalConst(c.pages, map[], InflowMap(c, d, rank, []), 0.0);
    TotalEmpty(c.pages);
    TimesZero(|c.pages|);
  }

  /** The ranks of the pages that link somewhere. */
  function Linked(c: Corpus, rank: map<Page, real>): map<Page, real>
  {
    map q | q in rank && q in c.links && c.links[q] != {} :: rank[q]
  }

  /** The ranks of the dangling pages, which link nowhere. */
  function DanglingRanks(c: Corpus, rank: map<Page, real>): map<Page, real>
  {
    map q | q in rank && q in c.links && c.links[q] == {} :: rank[q]
  }

  /** A dangling page passes on nothing. */
  lemma DanglingPassesNothing(c: Corpus, d: real, rank: map<Page, real>, qs: seq<Page>, q: Page)
    requires q in c.links && c.links[q] == {}
    ensures InflowMap(c, d, rank, qs + [q]) == InflowMap(c, d, rank, qs)
  {
    InflowSnoc(c, d, rank, qs, q);
  }

  /** In a closed corpus, appending `q` adds its damped rank when it links
      somewhere and nothing when it is dangling. */
  lemma LinkedStepMass(c: Corpus, d: real, rank: map<Page, real>, qs: seq<Page>, q: Page)
    requires c.Valid() && c.Closed() && q in c.links
    ensures Total(c.pages, InflowMap(c, d, rank, qs + [q]))
         == Total(c.pages, InflowMap(c, d, rank, qs)) + Get(Damped(d, Linked(c, rank)), q)
  {
    DampedLinkedAt(c, d, rank, q);
    if c.links[q] == {} {
      DanglingPassesNothing(c, d, rank, qs, q);
    } else {
      InflowStepMass(c, d, rank, qs, q);
    }
  }

  lemma DampedLinkedAt(c: Corpus, d: real, rank: map<Page, real>, q: Page)
    requires q in c.links
    ensures Get(Damped(d, Linked(c, rank)), q) == if c.links[q] == {} then 0.0 else d * Get(rank, q)
  {
    GetDamped(d, Linked(c, rank), q);
    if c.links[q] != {} {
      assert Get(Linked(c, rank), q) == Get(rank, q);
    }
  }

  /** In a closed corpus, all that the pages `qs` pass on adds up to the
      damped ranks of those of them that link somewhere. */
  lemma {:induction false} InflowMass(c: Corpus, d: real, rank: map<Page, real>, qs: seq<Page>)
    requires c.Valid() && c.Closed()
    requires forall q :: q in qs ==> q in c.links
    ensures Total(c.pages, InflowMap(c, d, rank, qs)) == Total(qs, Damped(d, Linked(c, rank)))
  {
    if qs == [] {
      InflowNone(c, d, rank);
    } else {
      var init, q := qs[..|qs| - 1], qs[|qs| - 1];
      assert qs == init + [q];
      InflowMass(c, d, rank, init);
      LinkedStepMass(c, d, rank, init, q);
    }
  }

  /** Every rank belongs to a page that links somewhere or to a dangling
      page. */
  lemma SplitRanks(c: Corpus, rank: map<Page, real>)
    requires c.Valid()
    ensures Total(c.pages, rank) == Total(c.pages, Linked(c, rank)) + Total(c.pages, DanglingRanks(c, rank))
  {
    assert forall p :: p in c.pages ==>
      Get(rank, p) == Get(Linked(c, rank), p) + Get(DanglingRanks(c, rank), p);
    TotalAdd(c.pages, Linked(c, rank), DanglingRanks(c, rank), rank);
  }

  /** A round's total is the jump share `1 - d` plus the damped ranks of
      the pages that link somewhere. */
  lemma RoundLinkedMass(c: Corpus, d: real, rank: map<Page, real>)
    requires c.Valid() && c.Closed() && |c.pages| > 0
    ensures Total(c.pages, Round(c, d, rank)) == (1.0 - d) + Total(c.pages, Damped(d, Linked(c, rank)))
  {
    RoundIsJumpPlusInflow(c, d, rank);
    InflowMass(c, d, rank, c.pages);
  }

  /** The damped ranks of the pages that link somewhere total `d` times
      the mass not held by dangling pages. */
  lemma LinkedMass(c: Corpus, d: real, rank: map<Page, real>)
    requires c.Valid()
    ensures Total(c.pages, Damped(d, Linked(c, rank)))
         == d * (Total(c.pages, rank) - Total(c.pages, DanglingRanks(c, rank)))
  {
    DampedTotal(c.pages, d, Linked(c, rank));
    SplitRanks(c, rank);
    ScaleDifference(d, Total(c.pages, rank), Total(c.pages, Linked(c, rank)), Total(c.pages, DanglingRanks(c, rank)));
  }

  lemma ScaleDifference(d: real, x: real, y: real, z: real)
    requires x == y + z
    ensures d * y == d * (x - z)
  {
  }

  /** In a closed corpus, a round keeps `1 - d` for the random jumps and
      passes on `d` times the old mass, except the mass of the dangling
      pages, which passes to no one. */
  lemma RoundMassDangling(c: Corpus, d: real, rank: map<Page, real>)
    requires c.Valid() && c.Closed() && |c.pages| > 0
    ensures Total(c.pages, Round(c, d, rank))
         == (1.0 - d) + d * (Total(c.pages, rank) - Total(c.pages, DanglingRanks(c, rank)))
  {
    RoundLinkedMass(c, d, rank);
    LinkedMass(c, d, rank);
  }

  /** A round keeps `1 - d` for the random jumps and passes on `d` times
      the old mass, when no page is dangling. */
  lemma RoundMass(c: Corpus, d: real, rank: map<Page, real>)
    requires c.Valid() && c.Closed() && c.NoDangling() && |c.pages| > 0
    ensures Total(c.pages, Round(c, d, rank)) == (1.0 - d) + d * Total(c.pages, rank)
  {
    RoundMassDangling(c, d, rank);
    assert DanglingRanks(c, rank) == map[];
    TotalEmpty(c.pages);
  }

  /** A page whose links may leave the corpus passes on at most `d` times
      its rank to the pages of the corpus. */
  lemma InflowStepBound(c: Corpus, d: real, rank: map<Page, real>, qs: seq<Page>, q: Page)
    requires c.Valid() && q in c.links && d >= 0.0 && Get(rank, q) >= 0.0
    ensures Total(c.pages, InflowMap(c, d, rank, qs + [q]))
         <= Total(c.pages, InflowMap(c, d, rank, qs)) + d * Get(rank, q)
  {
    NonNegativeProduct(d, Get(rank, q));
    if c.links[q] == {} {
      DanglingPassesNothing(c, d, rank, qs, q);
    } else {
      ShareStep(c, d, rank, qs, q);
      SharesInCorpus(c, q, d * Get(rank, q));
    }
  }

  /** The shares of `x` over the links of `q` that land on pages of the
      corpus make at most `x`. */
  lemma SharesInCorpus(c: Corpus, q: Page, x: real)
    requires c.Valid() && q in c.links && c.links[q] != {} && x >= 0.0
    ensures Times(CountIn(c.pages, c.links[q]), x / |c.links[q]| as real) <= x
  {
    CountInDistinct(c.pages, c.links[q]);
    CardIntersection(c.links[q], Elems(c.pages));
    SharesAtMost(CountIn(c.pages, c.links[q]), |c.links[q]|, x);
  }

  lemma CardIntersection(a: set<Page>, b: set<Page>)
    ensures |a * b| <= |a|
  {
    assert (a * b) + (a - b) == a;
    assert (a * b) * (a - b) == {};
  }

  lemma NonNegativeProduct(x: real, y: real)
    requires x >= 0.0 && y >= 0.0
    ensures x * y >= 0.0
  {
  }

  /** With non-negative ranks, all that the pages `qs` pass on to the pages
      of the corpus is at most their damped ranks summed, whatever their
      links. */
  lemma {:induction false} InflowBound(c: Corpus, d: real, rank: map<Page, real>, qs: seq<Page>)
    requires c.Valid() && d >= 0.0
    requires forall q :: q in rank ==> rank[q] >= 0.0
    requires forall q :: q in qs ==> q in c.links
    ensures Total(c.pages, InflowMap(c, d, rank, qs)) <= Total(qs, Damped(d, rank))
  {
    if qs == [] {
      InflowNone(c, d, rank);
    } else {
      var init, q := qs[..|qs| - 1], qs[|qs| - 1];
      assert qs == init + [q];
      InflowBound(c, d, rank, init);
      InflowStepBound(c, d, rank, init, q);
      GetDamped(d, rank, q);
    }
  }

  /** With non-negative ranks, a round's total is at most `(1 - d) + d`
      times the old total. */
  lemma RoundBound(c: Corpus, d: real, rank: map<Page, real>)
    requires c.Valid() && |c.pages| > 0 && d >= 0.0
    requires forall q :: q in rank ==> rank[q] >= 0.0
    ensures Total(c.pages, Round(c, d, rank)) <= (1.0 - d) + d * Total(c.pages, rank)
  {
    RoundIsJumpPlusInflow(c, d, rank);
    InflowAtMostDamped(c, d, rank);
  }

  /** All the pages together pass on at most `d` times the total rank. */
  lemma InflowAtMostDamped(c: Corpus, d: real, rank: map<Page, real>)
    requires c.Valid() && d >= 0.0
    requires forall q :: q in rank ==> rank[q] >= 0.0
    ensures Total(c.pages, InflowMap(c, d, rank, c.pages)) <= d * Total(c.pages, rank)
  {
    InflowBound(c, d, rank, c.pages);
    DampedTotal(c.pages, d, rank);
  }

  lemma ScaleAtMostOne(d: real, t: real)
    requires 0.0 <= d && t <= 1.0
    ensures (1.0 - d) + d * t <= 1.0
  {
  }

  /** With `0 <= d <= 1`, a round of non-negative ranks totalling at most 1
      totals at most 1. */
  lemma RoundAtMostOne(c: Corpus, d: real, rank: map<Page, real>)
    requires c.Valid() && |c.pages| > 0 && 0.0 <= d <= 1.0
    requires forall q :: q in rank ==> rank[q] >= 0.0
    requires Total(c.pages, rank) <= 1.0
    ensures Total(c.pages, Round(c, d, rank)) <= 1.0
  {
    RoundBound(c, d, rank);
    ScaleAtMostOne(d, Total(c.pages, rank));
  }

  /** With `0 <= d <= 1` the ranks never total more than 1. */
  lemma {:induction false} IterateTotalAtMostOne(c: Corpus, d: real, k: nat)
    requires c.Valid() && |c.pages| > 0 && 0.0 <= d <= 1.0
    ensures Total(c.pages, Iterate(c, d, k)) <= 1.0
  {
    if k == 0 {
      UniformMass(c);
    } else {
      IterateTotalAtMostOne(c, d, k - 1);
      IterateNonNegative(c, d, k - 1);
      RoundAtMostOne(c, d, Iterate(c, d, k - 1));
    }
  }

  /** With `0 <= d <= 1` every rank lies between 0 and 1, after every
      round. */
  lemma IterateAtMostOne(c: Corpus, d: real, k: nat)
    requires c.Valid() && |c.pages| > 0 && 0.0 <= d <= 1.0
    ensures forall p :: p in Iterate(c, d, k) ==> 0.0 <= Iterate(c, d, k)[p] <= 1.0
  {
    var r := Iterate(c, d, k);
    IterateNonNegative(c, d, k);
    IterateTotalAtMostOne(c, d, k);
    forall p | p in r
      ensures r[p] <= 1.0
    {
      TotalBoundsEach(c.pages, r, p);
    }
  }

  /** The new ranks total the `1 - d` of the random jumps plus all that
      the pages pass on. */
  lemma RoundIsJumpPlusInflow(c: Corpus, d: real, rank: map<Page, real>)
    requires c.Valid() && |c.pages| > 0
    ensures Total(c.pages, Round(c, d, rank))
         == (1.0 - d) + Total(c.pages, InflowMap(c, d, rank, c.pages))
  {
    var n := |c.pages|;
    assert forall p :: p in c.pages ==>
      Get(Round(c, d, rank), p)
        == Get(InflowMap(c, d, rank, c.pages), p) + (1.0 - d) / n as real;
    TotalConst(c.pages, InflowMap(c, d, rank, c.pages), Round(c, d, rank), (1.0 - d) / n as real);
    TimesShare(n, 1.0 - d);
  }

  /** The starting ranks sum to 1. */
  lemma UniformMass(c: Corpus)
    requires c.Valid() && |c.pages| > 0
    ensures Total(c.pages, Uniform(c)) == 1.0
  {
    var n := |c.pages|;
    assert forall p :: p in c.pages ==>
      Get(Uniform(c), p) == Get(map[], p) + 1.0 / n as real;
    TotalConst(c.pages, map[], Uniform(c), 1.0 / n as real);
    TotalEmpty(c.pages);
    TimesShare(n, 1.0);
  }

  /** Without dangling pages the ranks sum to 1 after every round. */
  lemma {:induction false} IterateMass(c: Corpus, d: real, k: nat)
    requires c.Valid() && c.Closed() && c.NoDangling() && |c.pages| > 0
    ensures Total(c.pages, Iterate(c, d, k)) == 1.0
  {
    if k == 0 {
      UniformMass(c);
    } else {
      IterateMass(c, d, k - 1);
      RoundMass(c, d, Iterate(c, d, k - 1));
    }
  }

  // ----- non-negativity -----

  lemma {:induction false} InflowNonNegative(c: Corpus, d: real, rank: map<Page, real>, p: Page, qs: seq<Page>)
    requires 0.0 <= d
    requires forall q :: q in rank ==> rank[q] >= 0.0
    ensures Inflow(c, d, rank, p, qs) >= 0.0
  {
    if qs != [] {
      InflowNonNegative(c, d, rank, p, qs[..|qs| - 1]);
      var q := qs[|qs| - 1];
      if q in c.links && p in c.links[q] {
        assert d * Get(rank, q) >= 0.0;
      }
    }
  }

  /** With `0 <= d <= 1`, a round of non-negative ranks gives non-negative
      ranks. */
  lemma RoundNonNegative(c: Corpus, d: real, rank: map<Page, real>)
    requires |c.pages| > 0 && 0.0 <= d <= 1.0
    requires forall q :: q in rank ==> rank[q] >= 0.0
    ensures forall p :: p in Round(c, d, rank) ==> Round(c, d, rank)[p] >= 0.0
  {
    forall p | p in c.links
      ensures RoundAt(c, d, rank, p) >= 0.0
    {
      InflowNonNegative(c, d, rank, p, c.pages);
    }
  }

  /** With `0 <= d <= 1`, no rank is ever negative. */
  lemma {:induction false} IterateNonNegative(c: Corpus, d: real, k: nat)
    requires |c.pages| > 0 && 0.0 <= d <= 1.0
    ensures forall p :: p in Iterate(c, d, k) ==> Iterate(c, d, k)[p] >= 0.0
  {
    if k > 0 {
      IterateNonNegative(c, d, k - 1);
      RoundNonNegative(c, d, Iterate(c, d, k - 1));
    }
  }

  /** A dangling page passes on nothing, so its rank leaves the corpus:
      with `a -> b` and `b` dangling, one round keeps only `1 - d / 2`. */
  lemma DanglingLeaksMass(a: Page, b: Page, d: real)
    requires a != b
    ensures Total([a, b], Iterate(Corpus([a, b], map[a := {b}, b := {}]), d, 1)) == 1.0 - d / 2.0
  {
    var c := Corpus([a, b], map[a := {b}, b := {}]);
    var u := Uniform(c);
    assert Iterate(c, d, 1) == Round(c, d, u);
    assert Get(u, a) == 0.5 && Get(u, b) == 0.5;
    assert Contribution(c, d, u, a, a) == 0.0 && Contribution(c, d, u, b, a) == 0.0;
    assert Contribution(c, d, u, b, b) == 0.0;
    assert Contribution(c, d, u, a, b) == d * 0.5 / 1.0;
    InflowSnoc(c, d, u, [], a);
    InflowSnoc(c, d, u, [a], b);
    assert [] + [a] == [a] && [a] + [b] == [a, b];
    var r := Round(c, d, u);
    assert Get(r, a) == (1.0 - d) / 2.0;
    assert Get(r, b) == (1.0 - d) / 2.0 + d * 0.5 / 1.0;
    assert [a, b][..1] == [a] && [a][..0] == [];
    assert Total([a, b], r) == Total([a], r) + Get(r, b);
    assert Total([a], r) == Total([], r) + Get(r, a);
  }

  /** A link that leaves the corpus takes its share of the rank with it:
      with the single page `a` linking only to `x`, which is not a page,
      one round keeps only `1 - d`, although no page is dangling. */
  lemma OutsideLinkLeaksMass(a: Page, x: Page, d: real)
    requires a != x
    ensures Total([a], Iterate(Corpus([a], map[a := {x}]), d, 1)) == 1.0 - d
  {
    var c := Corpus([a], map[a := {x}]);
    var u := Uniform(c);
    assert Iterate(c, d, 1) == Round(c, d, u);
    assert Contribution(c, d, u, a, a) == 0.0;
    InflowSnoc(c, d, u, [], a);
    assert [] + [a] == [a];
    var r := Round(c, d, u);
    assert Get(r, a) == (1.0 - d) / 1.0;
    assert [a][..0] == [];
    assert Total([a], r) == Total([], r) + Get(r, a);
  }
}
