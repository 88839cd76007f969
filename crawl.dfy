/** `crawl` of kakao_crawling.py: for each start URL, walk at most
    `MAX_LIST_PAGES` list pages, visit at most `MAX_PRODUCTS_PER_LIST`
    product links per page, and record each visit as a row or a failure. */
module Crawl {
  import opened Seqs
  import opened Browser
  import opened Selectors
  import opened ProductDetail

  const StartUrls := ["https://gift.kakao.com/page/26921?banner_id=1246&campaign_code=null"]
  const MaxListPages: nat := 1
  const MaxProductsPerList: nat := 3

  /** The outcome of one product visit: its row, or its URL in `failures`. */
  datatype Visit = Saved(row: Row) | Failed(link: string)

  /** The URL a visit was for. */
  function VisitedUrl(v: Visit): string {
    match v
    case Saved(row) => row.sourceUrl
    case Failed(link) => link
  }

  /** `all_rows`: the rows of the log, in visit order. */
  function Rows(log: seq<Visit>): seq<Row> {
    if |log| == 0 then []
    else Rows(log[..|log| - 1]) + (if log[|log| - 1].Saved? then [log[|log| - 1].row] else [])
  }

  /** `failures`: the failed URLs of the log, in visit order. */
  function Failures(log: seq<Visit>): seq<string> {
    if |log| == 0 then []
    else Failures(log[..|log| - 1]) + (if log[|log| - 1].Failed? then [log[|log| - 1].link] else [])
  }

  /** Every visit lands in exactly one of the two lists: a saved visit's row
      in `all_rows`, a failed visit's URL in `failures`, and nothing else. */
  lemma {:induction false} RowsAndFailuresPartition(log: seq<Visit>)
    ensures |Rows(log)| + |Failures(log)| == |log|
    ensures forall i :: 0 <= i < |log| && log[i].Saved? ==> log[i].row in Rows(log)
    ensures forall i :: 0 <= i < |log| && log[i].Failed? ==> log[i].link in Failures(log)
    ensures forall r :: r in Rows(log) ==> Saved(r) in log
    ensures forall u :: u in Failures(log) ==> Failed(u) in log
  {
    if |log| > 0 {
      var init, last := log[..|log| - 1], log[|log| - 1];
      RowsAndFailuresPartition(init);
      assert log == init + [last];
      forall i | 0 <= i < |log| && log[i].Saved?
        ensures log[i].row in Rows(log)
      {
        if i < |init| {
          assert log[i] == init[i];
        }
      }
      forall i | 0 <= i < |log| && log[i].Failed?
        ensures log[i].link in Failures(log)
      {
        if i < |init| {
          assert log[i] == init[i];
        }
      }
    }
  }

  /** Both lists keep visit order: the log of two stretches of visits gives
      the first stretch's entries, then the second's. */
  lemma {:induction false} RowsAndFailuresConcat(a: seq<Visit>, b: seq<Visit>)
    ensures Rows(a + b) == Rows(a) + Rows(b)
    ensures Failures(a + b) == Failures(a) + Failures(b)
    decreases |b|
  {
    if |b| == 0 {
      assert a + b == a;
    } else {
      var init, last := b[..|b| - 1], b[|b| - 1];
      RowsAndFailuresConcat(a, init);
      assert (a + b)[..|a + b| - 1] == a + init;
      assert (a + b)[|a + b| - 1] == last;
      assert Rows(a + b) == Rows(a + init) + (if last.Saved? then [last.row] else []);
      assert Failures(a + b) == Failures(a + init) + (if last.Failed? then [last.link] else []);
    }
  }

  /** An exception that escapes the `try` whose `finally` quits the driver
      ends the crawl without writing the CSV (`None`). */
  function Prepend(visits: seq<Visit>, rest: Option<seq<Visit>>): Option<seq<Visit>> {
    match rest
    case None => None
    case Some(more) => Some(visits + more)
  }

  lemma PrependNil(rest: Option<seq<Visit>>)
    ensures Prepend([], rest) == rest
  {
    if rest.Some? {
      assert [] + rest.value == rest.value;
    }
  }

  lemma PrependAssoc(a: seq<Visit>, b: seq<Visit>, rest: Option<seq<Visit>>)
    ensures Prepend(a, Prepend(b, rest)) == Prepend(a + b, rest)
  {
    if rest.Some? {
      assert a + (b + rest.value) == (a + b) + rest.value;
    }
  }

  // ----------------------------------------------------------- product visits

  /** One product visit: the visit's outcome, and the page the browser shows
      afterwards (the product page when it loaded, the error page when the
      load raised). `hint` is the category hint. */
  function VisitLink(site: Site, env: Env, cur: Page, link: string, hint: string): (Visit, Page) {
    if link in site.pages then
      match DetailRow(env, link, site.pages[link], hint, "")
      case Some(row) => (Saved(row), site.pages[link])
      case None => (Failed(link), site.pages[link])
    else (Failed(link), ErrorPage)
  }

  /** The product loop over `links`: the visits in order, and the page shown
      at the end. */
  function VisitAll(site: Site, env: Env, cur: Page, links: seq<string>, hint: string): (seq<Visit>, Page)
    decreases |links|
  {
    if |links| == 0 then ([], cur)
    else
      var (v, next) := VisitLink(site, env, cur, links[0], hint);
      var (rest, last) := VisitAll(site, env, next, links[1..], hint);
      ([v] + rest, last)
  }

  /** One product, in its own `try`: a raised exception records the URL as a failure. */
  method VisitProduct(d: Driver, env: Env, link: string, hint: string) returns (v: Visit)
    modifies d`current
    ensures v == VisitLink(d.site, env, old(d.current), link, hint).0
    ensures d.current == VisitLink(d.site, env, old(d.current), link, hint).1
  {
    var row := ParseProductDetail(d, env, link, hint, "");
    match row {
      case Some(r) => v := Saved(r);
      case None => v := Failed(link);
    }
  }

  /** `for idx, link in enumerate(product_links, 1)` */
  method VisitLinks(d: Driver, env: Env, links: seq<string>, hint: string) returns (visits: seq<Visit>)
    modifies d`current
    ensures visits == VisitAll(d.site, env, old(d.current), links, hint).0
    ensures d.current == VisitAll(d.site, env, old(d.current), links, hint).1
  {
    visits := [];
    assert links[0..] == links;
    for j := 0 to |links|
      invariant VisitAll(d.site, env, old(d.current), links, hint).0
             == visits + VisitAll(d.site, env, d.current, links[j..], hint).0
      invariant VisitAll(d.site, env, old(d.current), links, hint).1
             == VisitAll(d.site, env, d.current, links[j..], hint).1
    {
      assert links[j..][1..] == links[j + 1..];
      ghost var cur := d.current;
      var v := VisitProduct(d, env, links[j], hint);
      assert VisitAll(d.site, env, cur, links[j..], hint)
          == ([v] + VisitAll(d.site, env, d.current, links[j + 1..], hint).0,
              VisitAll(d.site, env, d.current, links[j + 1..], hint).1);
      visits := visits + [v];
    }
  }

  /** Each link is visited once, in order, and its visit is about that link. */
  lemma {:induction false} VisitAllSpec(site: Site, env: Env, cur: Page, links: seq<string>, hint: string)
    ensures |VisitAll(site, env, cur, links, hint).0| == |links|
    ensures forall k :: 0 <= k < |links| ==> VisitedUrl(VisitAll(site, env, cur, links, hint).0[k]) == links[k]
    decreases |links|
  {
    if |links| > 0 {
      var (v, next) := VisitLink(site, env, cur, links[0], hint);
      VisitAllSpec(site, env, next, links[1..], hint);
      if v.Saved? {
        DetailRowSpec(env, links[0], site.pages[links[0]], hint, "");
      }
    }
  }

  /** The page shown after the product loop is the last product page that
      loaded, not the list page: the pagination lookup that follows runs
      there. */
  lemma {:induction false} VisitAllEndsOnLastProduct(site: Site, env: Env, cur: Page, links: seq<string>, hint: string)
    requires |links| > 0
    ensures var last := links[|links| - 1];
            VisitAll(site, env, cur, links, hint).1 == if last in site.pages then site.pages[last] else ErrorPage
    decreases |links|
  {
    if |links| > 1 {
      var (v, next) := VisitLink(site, env, cur, links[0], hint);
      assert links[1..][|links[1..]| - 1] == links[|links| - 1];
      VisitAllEndsOnLastProduct(site, env, next, links[1..], hint);
    }
  }

  // -------------------------------------------------------------- pagination

  const NextSelectors := ["a.next", "button.next", "a[rel='next']", "[class*='next']", "[class*='Next']"]

  /** The pagination control: the first element of the first selector whose
      first element is displayed (`Some(Some(e))`), no control
      (`Some(None)`), or a lookup that raises (`None`; these lookups are
      outside any `try`). */
  function NextControl(lookups: seq<Lookup>): Option<Option<Element>>
    decreases |lookups|
  {
    if |lookups| == 0 then Some(None)
    else
      match lookups[0]
      case Raises => None
      case Found(els) =>
        if |els| > 0 && els[0].displayed then Some(Some(els[0])) else NextControl(lookups[1..])
  }

  /** The pagination loop over the selectors, with its `break`. */
  method FindNextControl(p: Page) returns (r: Option<Option<Element>>)
    ensures r == NextControl(FindAll(p, NextSelectors))
  {
    var lookups := FindAll(p, NextSelectors);
    var i := 0;
    while i < |lookups|
      invariant 0 <= i <= |lookups|
      invariant NextControl(lookups[i..]) == NextControl(lookups)
    {
      assert lookups[i..][1..] == lookups[i + 1..];
      match lookups[i] {
        case Raises => return None;
        case Found(els) =>
          if |els| > 0 && els[0].displayed {
            return Some(Some(els[0]));
          }
      }
      i := i + 1;
    }
    return Some(None);
  }

  /** The control chosen is the first element of selector `k`, where `k` is
      the first selector whose first element is displayed; there is no
      control exactly when no selector has a displayed first element. */
  lemma {:induction false} NextControlSpec(lookups: seq<Lookup>)
    ensures NextControl(lookups) == Some(None) <==>
      forall j :: 0 <= j < |lookups| ==> lookups[j].Found? && !(|lookups[j].elements| > 0 && lookups[j].elements[0].displayed)
    ensures NextControl(lookups).Some? && NextControl(lookups).value.Some? ==>
      exists k :: 0 <= k < |lookups| && lookups[k].Found? && |lookups[k].elements| > 0
                  && lookups[k].elements[0].displayed && NextControl(lookups).value.value == lookups[k].elements[0]
  {
    if |lookups| > 0 {
      NextControlSpec(lookups[1..]);
      assert forall j :: 1 <= j < |lookups| ==> lookups[j] == lookups[1..][j - 1];
      if lookups[0].Found? && !(|lookups[0].elements| > 0 && lookups[0].elements[0].displayed)
         && NextControl(lookups[1..]).Some? && NextControl(lookups[1..]).value.Some? {
        var k :| 0 <= k < |lookups[1..]| && lookups[1..][k].Found? && |lookups[1..][k].elements| > 0
                 && lookups[1..][k].elements[0].displayed && NextControl(lookups[1..]).value.value == lookups[1..][k].elements[0];
        assert lookups[k + 1] == lookups[1..][k];
      }
    }
  }

  // ------------------------------------------------------------- list pages

  /** The page loop from the shown page `cur`, with `pagesLeft` iterations
      to go: read the product links (none stops the loop), visit the first
      `maxProducts`, then follow the pagination control (none stops the
      loop). */
  function ListPages(site: Site, env: Env, cur: Page, pagesLeft: nat, maxProducts: nat): Option<seq<Visit>>
    decreases pagesLeft
  {
    if pagesLeft == 0 then Some([])
    else
      match LinksOutcome(cur)
      case None => None
      case Some(all) =>
        var links := Take(all, maxProducts);
        if links == [] then Some([])
        else
          var (visits, after) := VisitAll(site, env, cur, links, "");
          match NextControl(FindAll(after, NextSelectors))
          case None => None
          case Some(None) => Some(visits)
          case Some(Some(btn)) => Prepend(visits, ListPages(site, env, AfterClick(site, after, btn), pagesLeft - 1, maxProducts))
  }

  /** Every start URL: load it (a failed load ends the crawl), then walk its pages. */
  function CrawlStarts(site: Site, env: Env, starts: seq<string>, maxPages: nat, maxProducts: nat): Option<seq<Visit>>
    decreases |starts|
  {
    if |starts| == 0 then Some([])
    else if starts[0] !in site.pages then None
    else
      match ListPages(site, env, site.pages[starts[0]], maxPages, maxProducts)
      case None => None
      case Some(visits) => Prepend(visits, CrawlStarts(site, env, starts[1..], maxPages, maxProducts))
  }

  /** `crawl()` with the script's constants. */
  function CrawlOutcome(site: Site, env: Env): Option<seq<Visit>> {
    CrawlStarts(site, env, StartUrls, MaxListPages, MaxProductsPerList)
  }

  /** The page loop of one start URL, from the page the start URL showed. */
  method WalkPages(d: Driver, env: Env, maxPages: nat, maxProducts: nat) returns (r: Option<seq<Visit>>)
    modifies d`current
    ensures r == ListPages(d.site, env, old(d.current), maxPages, maxProducts)
  {
    var visits: seq<Visit> := [];
    var pageIdx := 0;
    var stop := false;
    PrependNil(ListPages(d.site, env, d.current, maxPages, maxProducts));
    while pageIdx < maxPages && !stop
      invariant pageIdx <= maxPages
      invariant ListPages(d.site, env, old(d.current), maxPages, maxProducts)
             == Prepend(visits, if stop then Some([]) else ListPages(d.site, env, d.current, maxPages - pageIdx, maxProducts))
      decreases maxPages - pageIdx, if stop then 0 else 1
    {
      var found := ExtractProductLinks(d.current);
      if found.None? {
        return None;
      }
      var links := Take(found.value, maxProducts);
      if links == [] {
        stop := true;
      } else {
        ghost var before := d.current;
        ghost var prev := visits;
        var pageVisits := VisitLinks(d, env, links, "");
        ghost var after := d.current;
        var next := FindNextControl(d.current);
        visits := visits + pageVisits;
        match next {
          case None => return None;
          case Some(None) =>
            assert ListPages(d.site, env, before, maxPages - pageIdx, maxProducts) == Some(pageVisits);
            assert visits + [] == prev + pageVisits;
            stop := true;
          case Some(Some(btn)) =>
            d.Click(btn);
            assert ListPages(d.site, env, before, maxPages - pageIdx, maxProducts)
                == Prepend(pageVisits, ListPages(d.site, env, d.current, maxPages - pageIdx - 1, maxProducts));
            PrependAssoc(prev, pageVisits, ListPages(d.site, env, d.current, maxPages - pageIdx - 1, maxProducts));
            pageIdx := pageIdx + 1;
        }
      }
    }
    if !stop {
      assert ListPages(d.site, env, d.current, 0, maxProducts) == Some([]);
    }
    assert visits + [] == visits;
    return Some(visits);
  }

  /** `crawl()`: the driver is quit on every path, including the ones where
      an exception escapes. */
  method RunCrawl(site: Site, env: Env, starts: seq<string>, maxPages: nat, maxProducts: nat)
    returns (log: Option<seq<Visit>>, d: Driver)
    ensures log == CrawlStarts(site, env, starts, maxPages, maxProducts)
    ensures d.site == site && !d.open
  {
    d := new Driver(site);
    var visits: seq<Visit> := [];
    assert starts[0..] == starts;
    PrependNil(CrawlStarts(site, env, starts, maxPages, maxProducts));
    for i := 0 to |starts|
      invariant d.site == site
      invariant CrawlStarts(site, env, starts, maxPages, maxProducts)
             == Prepend(visits, CrawlStarts(site, env, starts[i..], maxPages, maxProducts))
    {
      assert starts[i..][1..] == starts[i + 1..];
      var ok := d.Get(starts[i]);
      if !ok {
        d.Quit();
        return None, d;
      }
      var pages := WalkPages(d, env, maxPages, maxProducts);
      if pages.None? {
        d.Quit();
        return None, d;
      }
      PrependAssoc(visits, pages.value, CrawlStarts(site, env, starts[i + 1..], maxPages, maxProducts));
      visits := visits + pages.value;
    }
    d.Quit();
    assert visits + [] == visits;
    return Some(visits), d;
  }

  // ---------------------------------------------------------------- bounds

  /** One list walk visits at most `maxProducts` links per page. */
  lemma {:induction false} ListPagesBound(site: Site, env: Env, cur: Page, pagesLeft: nat, maxProducts: nat)
    requires ListPages(site, env, cur, pagesLeft, maxProducts).Some?
    ensures |ListPages(site, env, cur, pagesLeft, maxProducts).value| <= pagesLeft * maxProducts
    decreases pagesLeft
  {
    if pagesLeft > 0 {
      var all := LinksOutcome(cur).value;
      var links := Take(all, maxProducts);
      if links != [] {
        var (visits, after) := VisitAll(site, env, cur, links, "");
        VisitAllSpec(site, env, cur, links, "");
        assert |visits| <= maxProducts;
        match NextControl(FindAll(after, NextSelectors)) {
          case Some(None) =>
            assert maxProducts <= pagesLeft * maxProducts by {
              MulLe(1, pagesLeft, maxProducts);
            }
          case Some(Some(btn)) =>
            ListPagesBound(site, env, AfterClick(site, after, btn), pagesLeft - 1, maxProducts);
            assert (pagesLeft - 1) * maxProducts + maxProducts == pagesLeft * maxProducts;
        }
      }
    }
  }

  /** The whole crawl visits at most `maxPages * maxProducts` links per start URL. */
  lemma {:induction false} CrawlBound(site: Site, env: Env, starts: seq<string>, maxPages: nat, maxProducts: nat)
    requires CrawlStarts(site, env, starts, maxPages, maxProducts).Some?
    ensures |CrawlStarts(site, env, starts, maxPages, maxProducts).value| <= |starts| * (maxPages * maxProducts)
    decreases |starts|
  {
    if |starts| > 0 {
      var m := maxPages * maxProducts;
      var first := ListPages(site, env, site.pages[starts[0]], maxPages, maxProducts).value;
      var rest := CrawlStarts(site, env, starts[1..], maxPages, maxProducts).value;
      assert CrawlStarts(site, env, starts, maxPages, maxProducts).value == first + rest;
      ListPagesBound(site, env, site.pages[starts[0]], maxPages, maxProducts);
      CrawlBound(site, env, starts[1..], maxPages, maxProducts);
      AddBound(|first|, |rest|, |starts|, m);
    }
  }

  /** With the script's constants: at most three product visits in all. */
  lemma CrawlOutcomeBound(site: Site, env: Env)
    requires CrawlOutcome(site, env).Some?
    ensures |CrawlOutcome(site, env).value| <= 3
  {
    CrawlBound(site, env, StartUrls, MaxListPages, MaxProductsPerList);
  }

  /** A page with no product links ends the walk with nothing visited; a
      page whose links lead somewhere but that offers no pagination control
      ends the walk after its own visits. */
  lemma ListPagesStops(site: Site, env: Env, cur: Page, pagesLeft: nat, maxProducts: nat)
    requires pagesLeft > 0 && LinksOutcome(cur).Some?
    ensures Take(LinksOutcome(cur).value, maxProducts) == [] ==> ListPages(site, env, cur, pagesLeft, maxProducts) == Some([])
    ensures var links := Take(LinksOutcome(cur).value, maxProducts);
            var (visits, after) := VisitAll(site, env, cur, links, "");
            links != [] && (forall j :: 0 <= j < |NextSelectors| ==>
                              Find(after, NextSelectors[j]).Found?
                              && !(|Find(after, NextSelectors[j]).elements| > 0 && Find(after, NextSelectors[j]).elements[0].displayed))
            ==> ListPages(site, env, cur, pagesLeft, maxProducts) == Some(visits)
  {
    var links := Take(LinksOutcome(cur).value, maxProducts);
    var (visits, after) := VisitAll(site, env, cur, links, "");
    NextControlSpec(FindAll(after, NextSelectors));
  }
}
