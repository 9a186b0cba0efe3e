/** `iterate_pagerank`: the fixed-point estimate. Every round recomputes
    each page's rank from the ranks of the pages that link to it, until a
    round in which exactly all pages but one moved by at most 0.001. */
module Iteration {
  import opened Graph
  import opened Sums

  /** How far a rank may move in a round and still count as settled. */
  const Tolerance: real := 0.001

  /** What `q` passes on to `p` in a round: `d * rank(q) / L` when `q` is
      one of the `L`-link pages linking to `p`, else nothing. */
  function Contribution(c: Corpus, d: real, rank: map<Page, real>, q: Page, p: Page): real
  {
    if q in c.links && p in c.links[q] then d * Get(rank, q) / |c.links[q]| as real else 0.0
  }

  /** What the pages `qs` pass on to `p`. */
  function Inflow(c: Corpus, d: real, rank: map<Page, real>, p: Page, qs: seq<Page>): real
  {
    if qs == [] then 0.0
    else Inflow(c, d, rank, p, qs[..|qs| - 1]) + Contribution(c, d, rank, qs[|qs| - 1], p)
  }

  /** The new rank of `p`: `(1 - d) / N` plus what all pages pass on to it. */
  function RoundAt(c: Corpus, d: real, rank: map<Page, real>, p: Page): real
    requires |c.pages| > 0
  {
    (1.0 - d) / |c.pages| as real + Inflow(c, d, rank, p, c.pages)
  }

  /** One round of the recurrence, for every page. */
  function Round(c: Corpus, d: real, rank: map<Page, real>): map<Page, real>
    requires |c.pages| > 0
  {
    map p | p in c.links :: RoundAt(c, d, rank, p)
  }

  /** The starting ranks, `1 / N` for every page. */
  function Uniform(c: Corpus): map<Page, real>
    requires |c.pages| > 0
  {
    map p | p in c.links :: 1.0 / |c.pages| as real
  }

  /** The ranks after `k` rounds. */
  function Iterate(c: Corpus, d: real, k: nat): map<Page, real>
    requires |c.pages| > 0
  {
    if k == 0 then Uniform(c) else Round(c, d, Iterate(c, d, k - 1))
  }

  /** Every round has a rank for exactly the corpus's pages. */
  lemma IterateKeys(c: Corpus, d: real, k: nat)
    requires |c.pages| > 0
    ensures Iterate(c, d, k).Keys == c.links.Keys
  {
  }

  function Abs(x: real): real
  {
    if x < 0.0 then -x else x
  }

  /** `p` moved by at most the tolerance from `before` to `after`. */
  predicate Settled(before: map<Page, real>, after: map<Page, real>, p: Page)
  {
    Abs(Get(after, p) - Get(before, p)) <= Tolerance
  }

  /** How many of the pages `ps` settled. */
  function ConvergedCount(ps: seq<Page>, before: map<Page, real>, after: map<Page, real>): nat
  {
    if ps == [] then 0
    else ConvergedCount(ps[..|ps| - 1], before, after) + (if Settled(before, after, ps[|ps| - 1]) then 1 else 0)
  }

  /** The loop stops after round `k`: exactly `N - 1` pages settled in it. */
  predicate Stops(c: Corpus, d: real, k: nat)
    requires |c.pages| > 0 && k >= 1
  {
    ConvergedCount(c.pages, Iterate(c, d, k - 1), Iterate(c, d, k)) == |c.pages| - 1
  }

  /** Appending `q` to the linking pages adds what `q` passes on. */
  lemma InflowSnoc(c: Corpus, d: real, rank: map<Page, real>, qs: seq<Page>, q: Page)
    ensures forall p :: Inflow(c, d, rank, p, qs + [q])
                        == Inflow(c, d, rank, p, qs) + Contribution(c, d, rank, q, p)
  {
    assert (qs + [q])[..|qs|] == qs;
  }

  // ----- the stopping rule -----

  lemma {:induction false} ConvergedCountBound(ps: seq<Page>, before: map<Page, real>, after: map<Page, real>)
    ensures ConvergedCount(ps, before, after) <= |ps|
  {
    if ps != [] {
      ConvergedCountBound(ps[..|ps| - 1], before, after);
    }
  }

  /** All of `ps` settled exactly when the count reaches `|ps|`. */
  lemma {:induction false} AllSettled(ps: seq<Page>, before: map<Page, real>, after: map<Page, real>)
    ensures ConvergedCount(ps, before, after) == |ps|
        <==> forall p :: p in ps ==> Settled(before, after, p)
  {
    if ps != [] {
      var init, last := ps[..|ps| - 1], ps[|ps| - 1];
      AllSettled(init, before, after);
      ConvergedCountBound(init, before, after);
      assert ps == init + [last];
    }
  }

  /** A round in which every page settles does not stop the loop: the
      test asks for exactly `N - 1` settled pages. */
  lemma AllSettledDoesNotStop(c: Corpus, d: real, k: nat)
    requires |c.pages| > 0 && k >= 1
    requires forall p :: p in c.pages ==> Settled(Iterate(c, d, k - 1), Iterate(c, d, k), p)
    ensures !Stops(c, d, k)
  {
    AllSettled(c.pages, Iterate(c, d, k - 1), Iterate(c, d, k));
  }

  /** Two pages that link to each other start at their fixed point, so
      every round settles both and the loop never stops. */
  lemma {:induction false} TwoCycleNeverStops(a: Page, b: Page, d: real, k: nat)
    requires a != b
    ensures Iterate(Corpus([a, b], map[a := {b}, b := {a}]), d, k)
         == Uniform(Corpus([a, b], map[a := {b}, b := {a}]))
    ensures k >= 1 ==> !Stops(Corpus([a, b], map[a := {b}, b := {a}]), d, k)
  {
    var c := Corpus([a, b], map[a := {b}, b := {a}]);
    var u := Uniform(c);
    if k > 0 {
      TwoCycleNeverStops(a, b, d, k - 1);
      assert Get(u, a) == 0.5 && Get(u, b) == 0.5;
      assert Contribution(c, d, u, a, a) == 0.0 && Contribution(c, d, u, b, b) == 0.0;
      assert Contribution(c, d, u, b, a) == d * 0.5 / 1.0;
      assert Contribution(c, d, u, a, b) == d * 0.5 / 1.0;
      InflowSnoc(c, d, u, [], a);
      InflowSnoc(c, d, u, [a], b);
      assert [] + [a] == [a] && [a] + [b] == [a, b];
      assert Round(c, d, u) == u;
      AllSettledDoesNotStop(c, d, k);
    }
  }

  /** The stopping rule as designed: all pages but at most one settled. */
  predicate StopsAsDesigned(c: Corpus, d: real, k: nat)
    requires |c.pages| > 0 && k >= 1
  {
    ConvergedCount(c.pages, Iterate(c, d, k - 1), Iterate(c, d, k)) >= |c.pages| - 1
  }

  /** Under the designed rule, a round in which every page settles ends the
      loop, and so does every round that ends it under the rule as written. */
  lemma AllSettledStopsAsDesigned(c: Corpus, d: real, k: nat)
    requires |c.pages| > 0 && k >= 1
    ensures (forall p :: p in c.pages ==> Settled(Iterate(c, d, k - 1), Iterate(c, d, k), p))
            ==> StopsAsDesigned(c, d, k)
    ensures Stops(c, d, k) ==> StopsAsDesigned(c, d, k)
  {
    AllSettled(c.pages, Iterate(c, d, k - 1), Iterate(c, d, k));
  }

  /** Under the designed rule the two-page cycle stops after one round, with
      both ranks at 1/2. */
  lemma TwoCycleStopsAsDesigned(a: Page, b: Page, d: real)
    requires a != b
    ensures StopsAsDesigned(Corpus([a, b], map[a := {b}, b := {a}]), d, 1)
    ensures Iterate(Corpus([a, b], map[a := {b}, b := {a}]), d, 1)
         == map[a := 0.5, b := 0.5]
  {
    var c := Corpus([a, b], map[a := {b}, b := {a}]);
    TwoCycleNeverStops(a, b, d, 1);
    AllSettledStopsAsDesigned(c, d, 1);
  }

  // ----- the estimator -----

  /** The new rank of `p` as `iterate_pagerank` accumulates it: the random
      jump share, then the share of each linking page in corpus order. */
  method RankOf(c: Corpus, d: real, rank: map<Page, real>, p: Page) returns (value: real)
    requires |c.pages| > 0 && c.links.Keys <= rank.Keys
    ensures value == RoundAt(c, d, rank, p)
  {
    value := (1.0 - d) / |c.pages| as real;
    for j := 0 to |c.pages|
      invariant value == (1.0 - d) / |c.pages| as real + Inflow(c, d, rank, p, c.pages[..j])
    {
      var linkingPage := c.pages[j];
      assert c.pages[..j + 1][..j] == c.pages[..j];
      if linkingPage in c.links && p in c.links[linkingPage] {
        value := value + d * rank[linkingPage] / |c.links[linkingPage]| as real;
      }
    }
    assert c.pages[..|c.pages|] == c.pages;
  }

  /** One round: the new rank of every page. */
  method ComputeRound(c: Corpus, d: real, rank: map<Page, real>) returns (newPagerank: map<Page, real>)
    requires c.Valid() && |c.pages| > 0 && c.links.Keys <= rank.Keys
    ensures newPagerank == Round(c, d, rank)
  {
    newPagerank := map[];
    for i := 0 to |c.pages|
      invariant newPagerank.Keys == Elems(c.pages[..i])
      invariant forall p :: p in newPagerank ==> newPagerank[p] == RoundAt(c, d, rank, p)
    {
      assert c.pages[..i + 1] == c.pages[..i] + [c.pages[i]];
      var value := RankOf(c, d, rank, c.pages[i]);
      newPagerank := newPagerank[c.pages[i] := value];
    }
    assert c.pages[..|c.pages|] == c.pages;
  }

  /** Counts the pages whose rank moved by at most the tolerance. */
  method CountConverged(c: Corpus, before: map<Page, real>, after: map<Page, real>) returns (counter: nat)
    requires c.links.Keys <= before.Keys && c.links.Keys <= after.Keys
    requires c.Valid()
    ensures counter == ConvergedCount(c.pages, before, after)
  {
    counter := 0;
    for i := 0 to |c.pages|
      invariant counter == ConvergedCount(c.pages[..i], before, after)
    {
      var p := c.pages[i];
      assert c.pages[..i + 1][..i] == c.pages[..i];
      if Abs(after[p] - before[p]) <= Tolerance {
        counter := counter + 1;
      }
    }
    assert c.pages[..|c.pages|] == c.pages;
  }

  /** The loop does not stop in any round before round `k`. */
  predicate NoStopBefore(c: Corpus, d: real, k: nat)
    requires |c.pages| > 0
  {
    forall j :: 1 <= j < k ==> !Stops(c, d, j)
  }

  lemma NoStopExtend(c: Corpus, d: real, k: nat)
    requires |c.pages| > 0 && NoStopBefore(c, d, k) && (k >= 1 ==> !Stops(c, d, k))
    ensures NoStopBefore(c, d, k + 1)
  {
  }

  /** The round after round `k` of the loop: the new ranks, how many pages
      settled, which decides whether the loop stops there, and the number
      of the round. */
  method RunRound(c: Corpus, d: real, k: nat, pagerankDistribution: map<Page, real>)
    returns (newPagerank: map<Page, real>, counter: nat, next: nat)
    requires c.Valid() && |c.pages| > 0
    requires pagerankDistribution == Iterate(c, d, k)
    ensures next == k + 1
    ensures newPagerank == Iterate(c, d, next)
    ensures Stops(c, d, next) <==> counter == |c.pages| - 1
  {
    next := k + 1;
    IterateKeys(c, d, k);
    IterateKeys(c, d, next);
    newPagerank := ComputeRound(c, d, pagerankDistribution);
    counter := CountConverged(c, pagerankDistribution, newPagerank);
  }

  /** The result of the loop: the ranks of the round that stopped it and
      the number of rounds run, or the ranks after `maxRounds` rounds when
      none of them stopped it. */
  datatype Outcome =
    | Converged(ranks: map<Page, real>, rounds: nat)
    | RoundCapReached(last: map<Page, real>)

  /** `iterate_pagerank`, run for at most `maxRounds` rounds. */
  method IteratePagerank(c: Corpus, d: real, maxRounds: nat) returns (outcome: Outcome)
    requires c.Valid()
    // an empty corpus gives empty rounds whose count 0 is never N - 1 = -1
    ensures |c.pages| == 0 ==> outcome == RoundCapReached(map[])
    ensures outcome.Converged? ==>
      && |c.pages| > 0
      && 1 <= outcome.rounds <= maxRounds
      && outcome.ranks == Iterate(c, d, outcome.rounds)
      && Stops(c, d, outcome.rounds)
      && NoStopBefore(c, d, outcome.rounds)
    ensures outcome.RoundCapReached? && |c.pages| > 0 ==>
      && outcome.last == Iterate(c, d, maxRounds)
      && NoStopBefore(c, d, maxRounds + 1)
  {
    if |c.pages| == 0 {
      return RoundCapReached(map[]);
    }
    var n := |c.pages|;
    var pagerankDistribution := map p | p in c.links :: 1.0 / n as real;
    var newPagerank := pagerankDistribution;
    var rounds := 0;
    var stop := false;
    while !stop && rounds < maxRounds
      invariant rounds <= maxRounds
      invariant pagerankDistribution == Iterate(c, d, rounds)
      invariant NoStopBefore(c, d, rounds)
      invariant stop ==> 1 <= rounds && Stops(c, d, rounds) && newPagerank == pagerankDistribution
      invariant !stop && 1 <= rounds ==> !Stops(c, d, rounds)
      decreases maxRounds - rounds
    {
      var counter;
      NoStopExtend(c, d, rounds);
      newPagerank, counter, rounds := RunRound(c, d, rounds, pagerankDistribution);
      pagerankDistribution := newPagerank;
      if counter == n - 1 {
        stop := true;
      }
    }
    if stop {
      outcome := Converged(newPagerank, rounds);
    } else {
      NoStopExtend(c, d, rounds);
      outcome := RoundCapReached(pagerankDistribution);
    }
  }
}
