/** Ordered selector fallback, and the product-link resolver built on it
    (`extract_product_links_from_list`, identical in both crawl scripts). */
module Selectors {
  import opened Text
  import opened Seqs
  import opened Browser

  /** The values a selector's elements yield, in element order: `extract`
      says what an element contributes (nothing, or one value). Written from
      the end, as the loop that builds it appends. */
  function Extracted<T>(elements: seq<Element>, extract: Element -> Option<T>): seq<T> {
    if |elements| == 0 then []
    else
      var init := Extracted(elements[..|elements| - 1], extract);
      match extract(elements[|elements| - 1])
      case Some(v) => init + [v]
      case None => init
  }

  /** First-hit resolution: the selectors are tried in order, one that raises
      is skipped, and the first whose elements yield at least one value wins;
      no later selector is consulted and nothing is merged across selectors. */
  function FirstHit<T>(lookups: seq<Lookup>, extract: Element -> Option<T>): seq<T> {
    if |lookups| == 0 then []
    else
      match lookups[0]
      case Raises => FirstHit(lookups[1..], extract)
      case Found(elements) =>
        var v := Extracted(elements, extract);
        if v != [] then v else FirstHit(lookups[1..], extract)
  }

  /** Selector `k` misses: it raises or yields nothing. */
  predicate Misses<T>(lookup: Lookup, extract: Element -> Option<T>) {
    lookup.Raises? || Extracted(lookup.elements, extract) == []
  }

  /** If selector `k` is the first to yield something, the result is exactly
      what selector `k` yields, whatever the later selectors would give. */
  lemma {:induction false} FirstHitIsFirst<T>(lookups: seq<Lookup>, extract: Element -> Option<T>, k: nat)
    requires k < |lookups| && !Misses(lookups[k], extract)
    requires forall j :: 0 <= j < k ==> Misses(lookups[j], extract)
    ensures FirstHit(lookups, extract) == Extracted(lookups[k].elements, extract)
  {
    if k > 0 {
      assert Misses(lookups[0], extract);
      FirstHitIsFirst(lookups[1..], extract, k - 1);
    }
  }

  /** The resolver finds nothing exactly when every selector misses. */
  lemma {:induction false} FirstHitEmptyIff<T>(lookups: seq<Lookup>, extract: Element -> Option<T>)
    ensures FirstHit(lookups, extract) == [] <==> forall j :: 0 <= j < |lookups| ==> Misses(lookups[j], extract)
  {
    if |lookups| > 0 {
      FirstHitEmptyIff(lookups[1..], extract);
      assert forall j :: 1 <= j < |lookups| ==> lookups[j] == lookups[1..][j - 1];
    }
  }

  /** Every value of an element list is one that `extract` gives for one of its elements. */
  lemma {:induction false} ExtractedFrom<T>(elements: seq<Element>, extract: Element -> Option<T>, v: T)
    requires v in Extracted(elements, extract)
    ensures exists i :: 0 <= i < |elements| && extract(elements[i]) == Some(v)
  {
    var init := elements[..|elements| - 1];
    if v in Extracted(init, extract) {
      ExtractedFrom(init, extract, v);
      var i :| 0 <= i < |init| && extract(init[i]) == Some(v);
      assert elements[i] == init[i];
    }
  }

  /** Every resolved value was extracted from an element of some selector. */
  lemma {:induction false} FirstHitFrom<T>(lookups: seq<Lookup>, extract: Element -> Option<T>, v: T)
    requires v in FirstHit(lookups, extract)
    ensures exists k, i :: 0 <= k < |lookups| && lookups[k].Found? && 0 <= i < |lookups[k].elements|
                           && extract(lookups[k].elements[i]) == Some(v)
  {
    match lookups[0]
    case Raises =>
      FirstHitFrom(lookups[1..], extract, v);
      var k, i :| 0 <= k < |lookups[1..]| && lookups[1..][k].Found? && 0 <= i < |lookups[1..][k].elements|
                  && extract(lookups[1..][k].elements[i]) == Some(v);
      assert lookups[k + 1] == lookups[1..][k];
    case Found(elements) =>
      if Extracted(elements, extract) != [] {
        ExtractedFrom(elements, extract, v);
      } else {
        FirstHitFrom(lookups[1..], extract, v);
        var k, i :| 0 <= k < |lookups[1..]| && lookups[1..][k].Found? && 0 <= i < |lookups[1..][k].elements|
                    && extract(lookups[1..][k].elements[i]) == Some(v);
        assert lookups[k + 1] == lookups[1..][k];
      }
  }

  /** The element loop of the scripts: visit each element in order and
      append what it contributes. */
  method ExtractAll<T>(elements: seq<Element>, extract: Element -> Option<T>) returns (acc: seq<T>)
    ensures acc == Extracted(elements, extract)
  {
    acc := [];
    for j := 0 to |elements|
      invariant acc == Extracted(elements[..j], extract)
    {
      assert elements[..j + 1][..j] == elements[..j];
      match extract(elements[j]) {
        case Some(v) => acc := acc + [v];
        case None =>
      }
    }
    assert elements[..|elements|] == elements;
  }

  /** The selector loop of the scripts: for each selector, in a `try`, append
      what its elements yield; stop once the collected list is non-empty; a
      selector that raises is skipped. */
  method CollectFirstHit<T>(lookups: seq<Lookup>, extract: Element -> Option<T>) returns (acc: seq<T>)
    ensures acc == FirstHit(lookups, extract)
  {
    acc := [];
    var i := 0;
    while i < |lookups|
      invariant 0 <= i <= |lookups|
      invariant acc == []
      invariant FirstHit(lookups[i..], extract) == FirstHit(lookups, extract)
    {
      assert lookups[i..][1..] == lookups[i + 1..];
      match lookups[i] {
        case Raises =>
        case Found(elements) =>
          acc := ExtractAll(elements, extract);
          if acc != [] {
            return;
          }
      }
      i := i + 1;
    }
  }

  /** The product-link selectors, in the order they are tried. */
  const LinkSelectors := [
    "a.link_thumb",
    "a[href*='/product/']",
    ".product_item a",
    ".item_thumb a",
    ".thumb_area a",
    "[class*='thumb'] a",
    ".product_link",
    "a[class*='product']"
  ]

  const ProductMarker := "/product/"

  /** An anchor contributes its `href` when that is non-empty and contains `/product/`. */
  function ProductHref(a: Element): (r: Option<string>)
    ensures r.Some? <==> Attr(a, "href") != "" && Contains(Attr(a, "href"), ProductMarker)
    ensures r.Some? ==> r.value == Attr(a, "href")
  {
    var href := Attr(a, "href");
    if href != "" && Contains(href, ProductMarker) then Some(href) else None
  }

  /** The links the page yields: first-hit resolution, then de-duplication in
      first-seen order. */
  function ProductLinks(p: Page): seq<string> {
    Dedup(FirstHit(FindAll(p, LinkSelectors), ProductHref))
  }

  /** `extract_product_links_from_list`. The dialog probe only prints. When
      nothing was found, the function dumps every anchor for debugging; that
      lookup sits outside any `try`, so when it raises the whole call raises
      (`None`). */
  function LinksOutcome(p: Page): Option<seq<string>> {
    var links := ProductLinks(p);
    if links == [] && Find(p, "a").Raises? then None else Some(links)
  }

  method ExtractProductLinks(p: Page) returns (r: Option<seq<string>>)
    ensures r == LinksOutcome(p)
  {
    var links := CollectFirstHit(FindAll(p, LinkSelectors), ProductHref);
    var uniq := DedupLoop(links);
    if uniq == [] && Find(p, "a").Raises? {
      return None;
    }
    return Some(uniq);
  }

  /** What the resolver returns: distinct links, each containing `/product/`,
      each the `href` of an element one of the selectors matched. */
  lemma ProductLinksSpec(p: Page)
    ensures Distinct(ProductLinks(p))
    ensures forall u :: u in ProductLinks(p) ==> Contains(u, ProductMarker)
    ensures forall u :: u in ProductLinks(p) ==>
      exists k, i :: 0 <= k < |LinkSelectors| && Find(p, LinkSelectors[k]).Found?
                     && 0 <= i < |Find(p, LinkSelectors[k]).elements|
                     && Attr(Find(p, LinkSelectors[k]).elements[i], "href") == u
  {
    var lookups := FindAll(p, LinkSelectors);
    var hits := FirstHit(lookups, ProductHref);
    DedupSpec(hits);
    forall u | u in ProductLinks(p)
      ensures Contains(u, ProductMarker)
      ensures exists k, i :: 0 <= k < |LinkSelectors| && Find(p, LinkSelectors[k]).Found?
                             && 0 <= i < |Find(p, LinkSelectors[k]).elements|
                             && Attr(Find(p, LinkSelectors[k]).elements[i], "href") == u
    {
      FirstHitFrom(lookups, ProductHref, u);
      var k, i :| 0 <= k < |lookups| && lookups[k].Found? && 0 <= i < |lookups[k].elements|
                  && ProductHref(lookups[k].elements[i]) == Some(u);
    }
  }

  /** A page on which the first selector, `a.link_thumb`, yields product links
      resolves to exactly those links (de-duplicated), whatever the other
      selectors match. */
  lemma FirstSelectorWins(p: Page)
    requires Find(p, LinkSelectors[0]).Found?
    requires Extracted(Find(p, LinkSelectors[0]).elements, ProductHref) != []
    ensures ProductLinks(p) == Dedup(Extracted(Find(p, LinkSelectors[0]).elements, ProductHref))
  {
    FirstHitIsFirst(FindAll(p, LinkSelectors), ProductHref, 0);
  }
}
