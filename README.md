# PageRank ranking engine, modelled in Dafny

This project models the ranking engine of `pagerank.py`. The engine ranks
a corpus of HTML pages by importance in two ways: by simulating a random
surfer, and by iterating the PageRank recurrence to a fixed point. Four
pieces are modelled:

- **Link filter** (module `Graph`). This is the second half of `crawl`. It
  takes the hyperlinks found in each page, removes each page's link to
  itself, and drops every target that is not a page of the corpus.
- **Transition model** (module `Transition`). This is the distribution over
  the surfer's next page. With damping factor `d` it gives `(1 - d) / N` to
  every page, plus `d / L` to each of the `L` pages the current page links
  to. If the current page links nowhere, the distribution is uniform.
- **Sampling estimator** (module `Sampling`). This is `sample_pagerank`: a
  walk of `n` steps from the first page of the corpus. It counts visits in
  a dictionary and divides the counts by `n`.
- **Iterative estimator** (module `Iteration`). This is `iterate_pagerank`.
  All pages start at `1 / N`. Each round sets every page to `(1 - d) / N`
  plus `d * rank(q) / |links(q)|` for each page `q` that links to it. The
  loop stops after a round in which exactly `N - 1` pages moved by at most
  0.001.

A corpus is a `Corpus` value: `pages` is the dictionary's key order and
`links` maps each page to its set of out-links. Floats are exact `real`s.
Module `Sums` holds sums of rank maps over the corpus's pages and the
counting lemmas the mass proofs share. Module `Mass` states where the rank
goes in a round of the iterative estimator: what total it keeps, what
dangling pages lose, and the bounds that keep every rank between 0 and 1.

The three pieces that update dictionaries in place are methods with loops:
`TransitionModel`, `CountVisits`/`DivideAll` and `ComputeRound`/`CountConverged`.
Each is proved against a function (`Distribution`, `VisitCounts`, `Round`,
`ConvergedCount`), and lemmas state the properties of those functions.

## Model

| member | source | states |
|---|---|---|
| Graph.Crawl | pagerank.py:39-46 | The filtered graph has a key for every page and nothing else. No page links to itself. Every link target is a page (closed universe). Every remaining link was found in the page. Every found link to another page is kept. |
| Graph.CrawlKeepsWellFormed | pagerank.py:42-46 | For a graph that is already closed and has no self-links, filtering its own link lists gives the same graph back: the filter removes exactly the self-links and the links out of the corpus. |
| Transition.FillAll | pagerank.py:64-65 | The filling loop gives every page of the corpus the same value and adds no other key. |
| Transition.TransitionModel | pagerank.py:51-77 | The keys are exactly the corpus's pages. A page with no links gives `1 / N` everywhere. Otherwise every page gets `(1 - d) / N`, plus `d / L` exactly when it is one of the `L` linked pages. The result equals `Distribution` and its values sum to 1. |
| Transition.IsDistribution | pagerank.py:63-75 | Any map holding the values of either branch of `transition_model` is the distribution, and its values sum to 1. |
| Transition.DistributionSumsToOne | pagerank.py:60-77 | For every damping factor and every page whose link targets are all pages, the distribution's values sum to 1. This covers the dangling case (`N` shares of `1 / N`) and the linked case (`N` shares of `(1 - d) / N` plus `L` shares of `d / L`). |
| Transition.DistributionNonNegative | pagerank.py:63-75 | With `0 <= d <= 1`, no page gets a negative probability. |
| Sampling.StartCounts | pagerank.py:90-92 | Before any step, the first key has count 1 and every other page has count 0. |
| Sampling.StepCounts | pagerank.py:98 | A step to page `next` adds exactly one to `next`'s count and leaves every other count unchanged. |
| Sampling.PrefixCounts | pagerank.py:93-100 | The counts after `i + 1` draws are the counts after `i` draws with one more visit to draw `i`. |
| Sampling.WalkInCorpus | pagerank.py:94-96 | Every page `random.choices` can return has positive probability in the transition model, so it is a page of the corpus. |
| Sampling.Step | pagerank.py:94-100 | One move computes the transition distribution from the current page. The drawn page, which has positive probability, becomes the next page. |
| Sampling.CountVisits | pagerank.py:90-100 | The counter dictionary after the `n` steps holds, for every page, its visit count in the walk (the start page's initial 1 included). |
| Sampling.DivideAll | pagerank.py:102-103 | Normalisation divides every count by `n` and keeps the keys. |
| Sampling.VisitMass | pagerank.py:92-100 | The counts total `n + 1`: one initial credit plus one per step. |
| Sampling.SampleMass | pagerank.py:102-105 | After dividing by `n`, the estimate sums to `(n + 1) / n`. |
| Sampling.OnePageRankAboveOne | pagerank.py:86-103 | In the corpus of one page `a` with no links, every walk of `n > 0` steps gives `a` the rank `(n + 1) / n`, which is above 1. |
| Sampling.SamplePagerank | pagerank.py:81-105 | The keys are the corpus's pages. Each page's rank is its visit count divided by `n`. The ranks sum to `(n + 1) / n`. |
| Iteration.InflowSnoc | pagerank.py:127-129 | Scanning one more linking page `q` adds exactly `q`'s contribution to each page's new rank. |
| Mass.InflowStepMass | pagerank.py:127-129 | In a closed corpus, a linking page with out-links passes on exactly `d` times its rank in total, spread over its links. |
| Mass.LinkedStepMass | pagerank.py:127-129 | In a closed corpus, one more linking page adds `d` times its rank to the total inflow when it has links, and nothing when it is dangling. |
| Mass.InflowMass | pagerank.py:127-129 | In a closed corpus, the pages pass on in total `d` times the ranks of the pages that have links. Dangling pages pass on nothing. |
| Mass.SplitRanks | pagerank.py:124-129 | The total rank is the ranks of the pages with links plus the ranks of the dangling pages. |
| Mass.DampedTotal | pagerank.py:129 | Damping every rank by `d` scales the total by `d`. |
| Mass.RoundIsJumpPlusInflow | pagerank.py:124-129 | A round's total is `1 - d` (the `N` shares of `(1 - d) / N`) plus everything passed along links. |
| Mass.RoundMassDangling | pagerank.py:124-129 | In a closed corpus, a round's ranks total `(1 - d) + d * (old total - old ranks of the dangling pages)`. |
| Mass.RoundMass | pagerank.py:124-129 | In a closed corpus with no dangling page, a round's ranks total `(1 - d) + d * (old total)`, so ranks summing to 1 stay at 1. |
| Mass.UniformMass | pagerank.py:119 | The starting ranks `1 / N` sum to 1. |
| Mass.IterateMass | pagerank.py:119-137 | In a closed corpus with no dangling page, the ranks sum to 1 after every round. |
| Mass.OutsideLinkLeaksMass | pagerank.py:127-129 | A link out of the corpus still counts in `len(links)`, so its share is lost. A single page `a` linking only to a non-page `x` is not dangling, yet one round leaves a total of `1 - d`. |
| Mass.DanglingLeaksMass | pagerank.py:127-129 | A dangling page passes its rank to no one. With `a -> b` and `b` dangling, one round leaves a total of `1 - d / 2`. |
| Mass.InflowStepBound | pagerank.py:127-129 | With `d >= 0` and a non-negative rank, one more linking page adds at most `d` times its rank to the corpus's total inflow, even if some of its links leave the corpus. |
| Mass.InflowBound | pagerank.py:127-129 | With `d >= 0` and non-negative ranks, the pages pass on in total at most their damped ranks summed. |
| Mass.InflowAtMostDamped | pagerank.py:127-129 | With `d >= 0` and non-negative ranks, everything passed along links totals at most `d` times the old total. |
| Mass.RoundBound | pagerank.py:124-129 | With `d >= 0` and non-negative ranks, a round's ranks total at most `(1 - d) + d * (old total)`, for any corpus. |
| Mass.RoundAtMostOne | pagerank.py:124-129 | With `0 <= d <= 1`, non-negative ranks totalling at most 1 still total at most 1 after a round. |
| Mass.IterateTotalAtMostOne | pagerank.py:114-137 | With `0 <= d <= 1`, the ranks never total more than 1, after any number of rounds. |
| Mass.IterateAtMostOne | pagerank.py:114-137 | With `0 <= d <= 1`, every rank lies between 0 and 1 after every round. |
| Mass.InflowNonNegative | pagerank.py:127-129 | With `d >= 0` and non-negative ranks, what the linking pages pass on is non-negative. |
| Mass.RoundNonNegative | pagerank.py:124-129 | With `0 <= d <= 1`, a round keeps ranks non-negative. |
| Mass.IterateNonNegative | pagerank.py:119-137 | With `0 <= d <= 1`, no rank is ever negative. |
| Iteration.ConvergedCountBound | pagerank.py:132-135 | The count of settled pages is at most the number of pages. |
| Iteration.AllSettled | pagerank.py:132-135 | The count equals the number of pages exactly when every page moved by at most 0.001. |
| Iteration.AllSettledDoesNotStop | pagerank.py:138-139 | A round in which all `N` pages settle does not stop the loop, because the test is equality with `N - 1`. |
| Iteration.TwoCycleNeverStops | pagerank.py:119-139 | For two pages linking to each other, every round leaves both ranks at `1 / 2`, so no round ever stops the loop. |
| Iteration.AllSettledStopsAsDesigned | pagerank.py:138 | Under the "all but at most one" rule, a round in which every page settles stops the loop, and so does every round the written rule stops. |
| Iteration.TwoCycleStopsAsDesigned | pagerank.py:138-139 | Under the "all but at most one" rule, the two-page cycle stops after one round with both ranks at `1 / 2`. |
| Iteration.RankOf | pagerank.py:126-129 | One page's new rank, accumulated over the linking pages in corpus order, equals the recurrence. |
| Iteration.ComputeRound | pagerank.py:124-129 | The rebuilt `new_pagerank` is one round of the recurrence for every page. |
| Iteration.CountConverged | pagerank.py:132-135 | The counter is the number of pages whose rank moved by at most 0.001. |
| Iteration.RunRound | pagerank.py:124-139 | One pass of the loop body gives the ranks of the next round. Its counter equals `N - 1` exactly when the loop stops after that round. |
| Iteration.IteratePagerank | pagerank.py:109-141 | If the loop stops, it returns the ranks of the first round whose settled count is exactly `N - 1`, and no earlier round stopped it. Otherwise no round up to the cap stops it, and the ranks are those after the last round. An empty corpus never stops. |

## Left out

- `main` and the globals `DAMPING` and `SAMPLES` (pagerank.py:6-21) are not part of this model. The damping factor and the sample count are parameters.
- The I/O half of `crawl` (pagerank.py:33-38) is left out: directory listing, file reading and the href regular expression. `Graph.Crawl` takes the files in reading order and the hrefs found in each.
- `random.choices` (pagerank.py:96) becomes the input sequence `draws`. Each draw must have positive probability under the transition model from the page before it, which is what a weighted choice can return. Statistical convergence towards the iterative ranks is not modelled.
- Floating point is left out: ranks are exact reals, and the `abs(...) <= 0.001` test is on exact reals.
- Sampling.SamplePagerank: requires `n > 0` and a non-empty corpus. The source raises ZeroDivisionError at line 103 or IndexError at line 90 in those cases.
- Transition.TransitionModel: requires every link target of `page` itself to be a page. Otherwise line 75 raises KeyError for that target. Targets of other pages are never looked up. `Graph.Crawl` guarantees this for every page.
- Sampling.SamplePagerank: requires a closed corpus. The source needs less: it raises KeyError only when the walk reaches a page that links outside the corpus. `Graph.Crawl` guarantees closure.
- Transition.TransitionModel: the order in which line 74 visits the linked pages is an arbitrary choice. The result does not depend on it.
- Iteration.IteratePagerank: adds a round cap `maxRounds` that the source does not have. A run that would loop forever ends with `RoundCapReached`. Termination is not modelled.
- Iteration.IteratePagerank: for an empty corpus it returns at once. In the source every round is empty and the count 0 never equals `N - 1 = -1`, so the loop never ends.
- Mass.IterateMass: ranks are shown to sum to 1 only in a closed corpus with no dangling page. A dangling page passes its rank to no one, so mass leaks (`Mass.DanglingLeaksMass`, and in general `Mass.RoundMassDangling`). A link out of the corpus loses its share too (`Mass.OutsideLinkLeaksMass`). So the promise that the values sum to 1 does not hold in general. What holds for every corpus is that the ranks total at most 1 and each lies between 0 and 1 (`Mass.IterateAtMostOne`).
- Sampling.SampleMass: the estimate sums to `(n + 1) / n`, not 1, because the start page is credited once before the `n` steps. The model keeps this as written.
- Sampling.SamplePagerank: the promise that every rank lies between 0 and 1 does not hold for the estimate as written, so no such bound is stated. In a corpus of one page with no links, that page's rank is `(n + 1) / n` (`Sampling.OnePageRankAboveOne`).

## Findings

| source | as written | input that shows it | evidently intended | confidence | as-written member | corrected member |
|---|---|---|---|---|---|---|
| pagerank.py:138 | the loop stops only when exactly `N - 1` pages settled in a round (`counter == n-1`) | two pages `a`, `b` linking to each other, any damping factor: both start at `1 / 2` and stay there, so every round settles both and the loop never ends | stop once all pages but at most one settled (`counter >= n-1`): this corpus then stops after one round with both ranks at `1 / 2` | high; not executed | Iteration.TwoCycleNeverStops | Iteration.TwoCycleStopsAsDesigned |

`Iteration.IteratePagerank` keeps the stopping test as written. The designed rule is `Iteration.StopsAsDesigned`.
