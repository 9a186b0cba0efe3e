/** `sample_pagerank`: the random-surfer estimate. The weighted random
    draw of each step is an input here: `draws[i]` is the page the i-th
    call of `random.choices` returned. */
module Sampling {
  import opened Graph
  import opened Sums
  import opened Transition

  /** The visits of `p` in a walk that starts at `start` and then moves to
      each page of `draws` in turn. */
  function Visits(start: Page, draws: seq<Page>, p: Page): nat
  {
    (if p == start then 1 else 0) + CountIn(draws, {p})
  }

  /** The counter dictionary after the walk `draws` from the first page. */
  function VisitCounts(c: Corpus, draws: seq<Page>): map<Page, real>
    requires |c.pages| > 0
  {
    map p | p in c.links :: Visits(c.pages[0], draws, p) as real
  }

  /** The estimate `sample_pagerank` returns: the counts divided by `n`. */
  function SampleRanks(c: Corpus, draws: seq<Page>, n: nat): map<Page, real>
    requires |c.pages| > 0 && n > 0
  {
    map p | p in c.links :: Visits(c.pages[0], draws, p) as real / n as real
  }

  /** `random.choices` can return `next` from `current`: it is a page of
      positive probability in the transition model. */
  predicate Drawable(c: Corpus, d: real, current: Page, next: Page)
  {
    && |c.pages| > 0 && current in c.links
    && next in Distribution(c, current, d)
    && Distribution(c, current, d)[next] > 0.0
  }

  /** Every draw is one the transition model allows from the page before
      it, the first from the first page of the corpus. */
  predicate PossibleWalk(c: Corpus, d: real, draws: seq<Page>)
    requires |c.pages| > 0
  {
    forall i {:trigger Drawable(c, d, Before(c, draws, i), draws[i])} :: 0 <= i < |draws| ==> Drawable(c, d, Before(c, draws, i), draws[i])
  }

  /** The page the walk is on when it makes draw `i`. */
  function Before(c: Corpus, draws: seq<Page>, i: nat): Page
    requires |c.pages| > 0 && i <= |draws|
  {
    if i == 0 then c.pages[0] else draws[i - 1]
  }

  /** Before any step, the first page has count 1 and every other page 0. */
  lemma StartCounts(c: Corpus)
    requires |c.pages| > 0 && c.pages[0] in c.links
    ensures VisitCounts(c, []) == (map p | p in c.links :: 0.0)[c.pages[0] := 1.0]
  {
  }

  /** A possible walk never leaves the corpus. */
  lemma WalkInCorpus(c: Corpus, d: real, draws: seq<Page>)
    requires |c.pages| > 0 && PossibleWalk(c, d, draws)
    ensures forall i :: 0 <= i < |draws| ==> draws[i] in c.links
  {
    forall i | 0 <= i < |draws|
      ensures draws[i] in c.links
    {
      assert Drawable(c, d, Before(c, draws, i), draws[i]);
    }
  }

  /** A step to `next` adds one to the count of `next` and changes no other
      count. */
  lemma StepCounts(c: Corpus, draws: seq<Page>, next: Page)
    requires |c.pages| > 0 && next in c.links
    ensures VisitCounts(c, draws + [next])
         == VisitCounts(c, draws)[next := VisitCounts(c, draws)[next] + 1.0]
  {
    assert (draws + [next])[..|draws|] == draws;
  }

  /** The counts after the first `i + 1` draws are those after `i` with
      one more visit to draw `i`. */
  lemma PrefixCounts(c: Corpus, draws: seq<Page>, i: nat)
    requires |c.pages| > 0 && i < |draws| && draws[i] in c.links
    ensures VisitCounts(c, draws[..i + 1])
         == VisitCounts(c, draws[..i])[draws[i] := VisitCounts(c, draws[..i])[draws[i]] + 1.0]
  {
    assert draws[..i + 1] == draws[..i] + [draws[i]];
    StepCounts(c, draws[..i], draws[i]);
  }

  /** The counts total the `|draws|` steps plus the initial visit. */
  lemma {:induction false} VisitMass(c: Corpus, draws: seq<Page>)
    requires c.Valid() && |c.pages| > 0
    requires forall i :: 0 <= i < |draws| ==> draws[i] in c.links
    ensures Total(c.pages, VisitCounts(c, draws)) == (|draws| + 1) as real
  {
    if draws == [] {
      TotalShift(c.pages, map[], VisitCounts(c, []), 0.0, 1.0, {c.pages[0]});
      TotalEmpty(c.pages);
      TimesZero(|c.pages|);
      CountInCovered(c.pages, {c.pages[0]});
    } else {
      var init, next := draws[..|draws| - 1], draws[|draws| - 1];
      VisitMass(c, init);
      assert init + [next] == draws;
      StepCounts(c, init, next);
      TotalShift(c.pages, VisitCounts(c, init), VisitCounts(c, draws), 0.0, 1.0, {next});
      TimesZero(|c.pages|);
      CountInCovered(c.pages, {next});
    }
  }

  /** The estimate sums to `(n + 1) / n`, not to 1: the first page is
      credited once before the `n` steps. */
  lemma SampleMass(c: Corpus, draws: seq<Page>, n: nat)
    requires c.Valid() && |c.pages| > 0 && n > 0
    requires forall i :: 0 <= i < |draws| ==> draws[i] in c.links
    ensures Total(c.pages, SampleRanks(c, draws, n)) == (|draws| + 1) as real / n as real
  {
    VisitMass(c, draws);
    TotalScale(c.pages, VisitCounts(c, draws), SampleRanks(c, draws, n), n as real);
  }

  /** The loop `for p in corpus: page_ranks[p] = page_ranks[p] / n`. */
  method DivideAll(c: Corpus, counts: map<Page, real>, n: nat) returns (ranks: map<Page, real>)
    requires c.Valid() && counts.Keys == c.links.Keys && n > 0
    ensures ranks.Keys == counts.Keys
    ensures forall p :: p in ranks ==> ranks[p] == counts[p] / n as real
  {
    ranks := counts;
    for i := 0 to |c.pages|
      invariant ranks.Keys == counts.Keys
      invariant forall p :: p in ranks ==>
        ranks[p] == if p in c.pages[..i] then counts[p] / n as real else counts[p]
    {
      assert forall p :: p in c.pages[..i + 1] <==> p in c.pages[..i] || p == c.pages[i];
      ranks := ranks[c.pages[i] := ranks[c.pages[i]] / n as real];
    }
    assert c.pages[..|c.pages|] == c.pages;
  }

  /** One move of the surfer: the transition model's distribution from
      `current`, and the page `random.choices` draws from it, which is
      `draw`. */
  method Step(c: Corpus, d: real, current: Page, draw: Page) returns (nextPage: Page)
    requires c.Valid() && c.Closed() && Drawable(c, d, current, draw)
    ensures nextPage == draw && nextPage in c.links
  {
    var probabilities := TransitionModel(c, current, d);
    assert probabilities[draw] > 0.0;
    nextPage := draw;
  }

  /** The walk of `sample_pagerank`: starts with a count of 1 for the first
      page of the corpus, then adds one to the count of the page each of
      the `n` steps lands on. */
  method CountVisits(c: Corpus, d: real, n: nat, draws: seq<Page>) returns (pageRanks: map<Page, real>)
    requires c.Valid() && c.Closed() && |c.pages| > 0
    requires |draws| == n && PossibleWalk(c, d, draws)
    ensures pageRanks == VisitCounts(c, draws)
  {
    var currentSample := c.pages[0];
    pageRanks := map p | p in c.links :: 0.0;
    pageRanks := pageRanks[currentSample := 1.0];
    StartCounts(c);
    for i := 0 to n
      invariant currentSample == Before(c, draws, i)
      invariant pageRanks == VisitCounts(c, draws[..i])
    {
      assert Drawable(c, d, Before(c, draws, i), draws[i]);
      var nextPage := Step(c, d, currentSample, draws[i]);
      PrefixCounts(c, draws, i);
      pageRanks := pageRanks[nextPage := pageRanks[nextPage] + 1.0];
      currentSample := nextPage;
    }
    assert draws[..n] == draws;
  }

  /** The estimate's ranks need not lie between 0 and 1: in a corpus of one
      page, which links nowhere, every draw returns that page, and its rank
      is `(n + 1) / n`, above 1. */
  lemma OnePageRankAboveOne(a: Page, d: real, n: nat, draws: seq<Page>)
    requires n > 0 && |draws| == n
    requires PossibleWalk(Corpus([a], map[a := {}]), d, draws)
    ensures SampleRanks(Corpus([a], map[a := {}]), draws, n)[a] == (n + 1) as real / n as real
    ensures SampleRanks(Corpus([a], map[a := {}]), draws, n)[a] > 1.0
  {
    var c := Corpus([a], map[a := {}]);
    assert c.Valid();
    WalkInCorpus(c, d, draws);
    SampleMass(c, draws, n);
    assert [a][..0] == [];
    assert Total([a], SampleRanks(c, draws, n)) == Get(SampleRanks(c, draws, n), a);
    AboveOne(n);
  }

  lemma AboveOne(n: nat)
    requires n > 0
    ensures (n + 1) as real / n as real > 1.0
  {
    assert (n + 1) as real == n as real * 1.0 + 1.0;
  }

  /** `sample_pagerank`: the visit counts of the walk divided by `n`. */
  method SamplePagerank(c: Corpus, d: real, n: nat, draws: seq<Page>) returns (ranks: map<Page, real>)
    requires c.Valid() && c.Closed() && |c.pages| > 0
    requires n > 0 && |draws| == n && PossibleWalk(c, d, draws)
    ensures ranks.Keys == c.links.Keys
    ensures forall p :: p in ranks ==> ranks[p] == Visits(c.pages[0], draws, p) as real / n as real
    ensures Total(c.pages, ranks) == (n + 1) as real / n as real
  {
    var pageRanks := CountVisits(c, d, n, draws);
    ranks := DivideAll(c, pageRanks, n);
    assert ranks == SampleRanks(c, draws, n);
    WalkInCorpus(c, d, draws);
    SampleMass(c, draws, n);
  }
}
