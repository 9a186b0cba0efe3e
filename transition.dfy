/** `transition_model`: the distribution over the next page the random
    surfer visits from a given page. */
module Transition {
  import opened Graph
  import opened Sums

  /** The distribution from `page` with damping factor `d`: uniform when
      `page` has no out-links; otherwise `(1 - d) / N` for every page plus
      `d / L` for each of the `L` pages it links to. */
  function Distribution(c: Corpus, page: Page, d: real): map<Page, real>
    requires page in c.links && |c.pages| > 0
  {
    var n := |c.pages| as real;
    var out := c.links[page];
    map p | p in c.links ::
      if out == {} then 1.0 / n
      else (1.0 - d) / n + (if p in out then d / |out| as real else 0.0)
  }

  /** The distribution's values add up to 1, for every damping factor. */
  lemma DistributionSumsToOne(c: Corpus, page: Page, d: real)
    requires c.Valid() && page in c.links && c.links[page] <= c.links.Keys
    ensures Total(c.pages, Distribution(c, page, d)) == 1.0
  {
    var dist := Distribution(c, page, d);
    var n := |c.pages|;
    var out := c.links[page];
    assert forall p :: p in c.pages ==> p in c.links;
    if out == {} {
      TimesShare(n, 1.0);
      assert forall p :: p in c.pages ==> Get(dist, p) == Get(map[], p) + 1.0 / n as real;
      TotalConst(c.pages, map[], dist, 1.0 / n as real);
      TotalEmpty(c.pages);
    } else {
      TimesShare(n, 1.0 - d);
      TimesShare(|out|, d);
      assert forall p :: p in c.pages ==>
        Get(dist, p) == (1.0 - d) / n as real + (if p in out then d / |out| as real else 0.0);
      TotalOverCorpus(c.pages, dist, (1.0 - d) / n as real, d / |out| as real, 1.0 - d, d, out);
    }
  }

  /** Over distinct pages, a baseline `a` everywhere plus `b` on each page
      of `s` totals `x + y`, when the `|ps|` baselines make `x` and the
      `|s|` extras make `y`. */
  lemma TotalOverCorpus(ps: seq<Page>, m: map<Page, real>, a: real, b: real, x: real, y: real, s: set<Page>)
    requires Distinct(ps) && s <= Elems(ps)
    requires Times(|ps|, a) == x && Times(|s|, b) == y
    requires forall p :: p in ps ==> Get(m, p) == a + (if p in s then b else 0.0)
    ensures Total(ps, m) == x + y
  {
    TotalShift(ps, map[], m, a, b, s);
    TotalEmpty(ps);
    CountInCovered(ps, s);
  }

  /** With `0 <= d <= 1` no page gets a negative probability. */
  lemma DistributionNonNegative(c: Corpus, page: Page, d: real)
    requires page in c.links && |c.pages| > 0 && 0.0 <= d <= 1.0
    ensures forall p :: p in Distribution(c, page, d) ==> Distribution(c, page, d)[p] >= 0.0
  {
  }

  /** The loop `for p in corpus: probability_distribution[p] = v` that
      both branches of `transition_model` start with. */
  method FillAll(c: Corpus, v: real) returns (dist: map<Page, real>)
    requires c.Valid()
    ensures dist.Keys == c.links.Keys
    ensures forall p :: p in dist ==> dist[p] == v
  {
    dist := map[];
    for i := 0 to |c.pages|
      invariant dist.Keys == Elems(c.pages[..i])
      invariant forall p :: p in dist ==> dist[p] == v
    {
      assert c.pages[..i + 1] == c.pages[..i] + [c.pages[i]];
      dist := dist[c.pages[i] := v];
    }
    assert c.pages[..|c.pages|] == c.pages;
  }

  /** Fills the distribution as `transition_model` does: the uniform value
      for a page without links; otherwise the baseline for every page, then
      the link share added to each linked page in turn. */
  method TransitionModel(c: Corpus, page: Page, d: real) returns (dist: map<Page, real>)
    requires c.Valid() && page in c.links && c.links[page] <= c.links.Keys
    ensures dist.Keys == c.links.Keys
    ensures c.links[page] == {} ==>
      forall p :: p in dist ==> dist[p] == 1.0 / |c.pages| as real
    ensures c.links[page] != {} ==>
      forall p :: p in dist ==>
        dist[p] == (1.0 - d) / |c.pages| as real
                   + (if p in c.links[page] then d / |c.links[page]| as real else 0.0)
    ensures dist == Distribution(c, page, d)
    ensures Total(c.pages, dist) == 1.0
  {
    var numPages := |c.pages|;
    if c.links[page] == {} {
      dist := FillAll(c, 1.0 / numPages as real);
    } else {
      var linkProb := d / |c.links[page]| as real;
      var uniformProb := (1.0 - d) / numPages as real;
      dist := FillAll(c, uniformProb);
      var rest := c.links[page];
      while rest != {}
        invariant rest <= c.links[page]
        invariant dist.Keys == c.links.Keys
        invariant forall p :: p in dist ==>
          dist[p] == uniformProb + (if p in c.links[page] - rest then linkProb else 0.0)
        decreases |rest|
      {
        var linkedPage :| linkedPage in rest;
        dist := dist[linkedPage := dist[linkedPage] + linkProb];
        rest := rest - {linkedPage};
      }
    }
    IsDistribution(c, page, d, dist);
  }

  /** A map with the values the two cases of `transition_model` give is
      the distribution, and so sums to 1. */
  lemma IsDistribution(c: Corpus, page: Page, d: real, dist: map<Page, real>)
    requires c.Valid() && page in c.links && c.links[page] <= c.links.Keys
    requires dist.Keys == c.links.Keys
    requires c.links[page] == {} ==>
      forall p :: p in dist ==> dist[p] == 1.0 / |c.pages| as real
    requires c.links[page] != {} ==>
      forall p :: p in dist ==>
        dist[p] == (1.0 - d) / |c.pages| as real
                   + (if p in c.links[page] then d / |c.links[page]| as real else 0.0)
    ensures dist == Distribution(c, page, d)
    ensures Total(c.pages, dist) == 1.0
  {
    var expected := Distribution(c, page, d);
    assert dist.Keys == expected.Keys;
    assert forall p :: p in dist ==> dist[p] == expected[p];
    DistributionSumsToOne(c, page, d);
  }
}
