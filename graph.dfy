/** The link graph of a corpus of HTML pages, and the filtering step of
    `crawl` that turns the hyperlinks found in each page into that graph. */
module Graph {

  /** A page is named by its file name. */
  type Page = string

  /** The pages of a sequence, as a set. */
  function Elems(ps: seq<Page>): set<Page>
  {
    set p | p in ps
  }

  predicate Distinct(ps: seq<Page>)
  {
    forall i, j :: 0 <= i < j < |ps| ==> ps[i] != ps[j]
  }

  /** A corpus: the dictionary from page to out-links. `pages` is the
      dictionary's key order (insertion order), `links` its contents. */
  datatype Corpus = Corpus(pages: seq<Page>, links: map<Page, set<Page>>)
  {
    /** The key order lists every key exactly once. */
    predicate Valid()
    {
      Distinct(pages) && links.Keys == Elems(pages)
    }

    /** Every link target is itself a page of the corpus. */
    predicate Closed()
    {
      forall p, q :: p in links && q in links[p] ==> q in links
    }

    predicate NoSelfLinks()
    {
      forall p :: p in links ==> p !in links[p]
    }

    /** Every page has at least one out-link. */
    predicate NoDangling()
    {
      forall p :: p in links ==> links[p] != {}
    }
  }

  /** The second stage of `crawl`. `files` are the HTML files in the order
      they were read, `hrefs` the link targets found in each of them. Each
      page first loses its link to itself (and duplicates, being turned into
      a set), then every target that is not a page of the corpus. */
  function Crawl(files: seq<Page>, hrefs: map<Page, seq<Page>>): (c: Corpus)
    requires Distinct(files)
    requires forall f :: f in hrefs <==> f in files
    ensures c.Valid() && c.Closed() && c.NoSelfLinks()
    ensures c.pages == files && c.links.Keys == hrefs.Keys
    // nothing is invented: every remaining link was found in the page
    ensures forall f, l :: f in c.links && l in c.links[f] ==> l in hrefs[f]
    // nothing is lost: every found link to another page of the corpus remains
    ensures forall f, l :: f in hrefs && l in hrefs[f] && l != f && l in hrefs ==> l in c.links[f]
  {
    var found := map f | f in hrefs :: (set l | l in hrefs[f]) - {f};
    Corpus(files, map f | f in found :: set l | l in found[f] && l in found)
  }

  /** The graph a well-formed corpus describes is a fixed point of the
      filter: listing each page's links (in any order, with repetitions)
      and crawling them gives the corpus back. */
  lemma CrawlKeepsWellFormed(c: Corpus, hrefs: map<Page, seq<Page>>)
    requires c.Valid() && c.Closed() && c.NoSelfLinks()
    requires hrefs.Keys == c.links.Keys
    requires forall f :: f in hrefs ==> Elems(hrefs[f]) == c.links[f]
    ensures Crawl(c.pages, hrefs) == c
  {
    var r := Crawl(c.pages, hrefs);
    forall f | f in c.links
      ensures r.links[f] == c.links[f]
    {
      assert forall l :: l in c.links[f] ==> l in hrefs[f] by {
        assert Elems(hrefs[f]) == c.links[f];
      }
    }
  }
}
