/** The category-specific part of `crawl` in kakao_crawling_category.py: open
    the category tab, read the category list, then visit every category (by
    its link, or by clicking its tab) and at most
    `MAX_PRODUCTS_PER_CATEGORY` of its products, with the category's name as
    the category hint. A failing product or category does not stop the crawl. */
module CategoryCrawl {
  import opened Text
  import opened Seqs
  import opened Browser
  import opened Selectors
  import opened ProductDetail
  import opened Crawl

  const CategoryBaseUrl := "https://gift.kakao.com/home?targetType=ALL&rankType=MANY_WISH&priceRange=20000_29999"
  const MaxProductsPerCategory: nat := 100

  // ------------------------------------------------------------ category tab

  const TabSelector := ".group_tab a.link_tab"
  const CategoryTabMarker := "카테고리"

  /** The first tab whose text contains the marker. */
  function FirstMarkedTab(tabs: seq<Element>): Option<Element>
    decreases |tabs|
  {
    if |tabs| == 0 then None
    else if Contains(tabs[0].text, CategoryTabMarker) then Some(tabs[0])
    else FirstMarkedTab(tabs[1..])
  }

  /** `category_tab_button`: the first tab whose text contains "카테고리",
      otherwise the second tab when there are at least two. */
  function ChooseTab(tabs: seq<Element>): Option<Element> {
    match FirstMarkedTab(tabs)
    case Some(t) => Some(t)
    case None => if |tabs| >= 2 then Some(tabs[1]) else None
  }

  /** The tab loop with its `break`, then the second-tab fallback. */
  method ChooseTabLoop(tabs: seq<Element>) returns (choice: Option<Element>)
    ensures choice == ChooseTab(tabs)
  {
    var i := 0;
    while i < |tabs|
      invariant 0 <= i <= |tabs|
      invariant FirstMarkedTab(tabs[i..]) == FirstMarkedTab(tabs)
    {
      assert tabs[i..][1..] == tabs[i + 1..];
      if Contains(tabs[i].text, CategoryTabMarker) {
        return Some(tabs[i]);
      }
      i := i + 1;
    }
    if |tabs| >= 2 {
      return Some(tabs[1]);
    }
    return None;
  }

  /** The chosen tab is the first marked one; with none marked it is the
      second tab; no tab is chosen exactly when none is marked and there are
      fewer than two. */
  lemma {:induction false} ChooseTabSpec(tabs: seq<Element>, k: nat)
    ensures ChooseTab(tabs).None? <==>
      (forall i :: 0 <= i < |tabs| ==> !Contains(tabs[i].text, CategoryTabMarker)) && |tabs| < 2
    ensures k < |tabs| && Contains(tabs[k].text, CategoryTabMarker)
            && (forall j :: 0 <= j < k ==> !Contains(tabs[j].text, CategoryTabMarker))
            ==> ChooseTab(tabs) == Some(tabs[k])
    ensures (forall i :: 0 <= i < |tabs| ==> !Contains(tabs[i].text, CategoryTabMarker)) && |tabs| >= 2
            ==> ChooseTab(tabs) == Some(tabs[1])
  {
    FirstMarkedTabSpec(tabs, k);
  }

  lemma {:induction false} FirstMarkedTabSpec(tabs: seq<Element>, k: nat)
    ensures FirstMarkedTab(tabs).None? <==> forall i :: 0 <= i < |tabs| ==> !Contains(tabs[i].text, CategoryTabMarker)
    ensures k < |tabs| && Contains(tabs[k].text, CategoryTabMarker)
            && (forall j :: 0 <= j < k ==> !Contains(tabs[j].text, CategoryTabMarker))
            ==> FirstMarkedTab(tabs) == Some(tabs[k])
    decreases |tabs|
  {
    if |tabs| > 0 {
      FirstMarkedTabSpec(tabs[1..], if k > 0 then k - 1 else 0);
      assert forall i :: 1 <= i < |tabs| ==> tabs[i] == tabs[1..][i - 1];
    }
  }

  /** The tab step sits in its own `try`: a lookup that raises clicks nothing. */
  function AfterTabStep(site: Site, p: Page): Page {
    match Find(p, TabSelector)
    case Raises => p
    case Found(tabs) =>
      match ChooseTab(tabs)
      case None => p
      case Some(t) => AfterClick(site, p, t)
  }

  // ----------------------------------------------------------- category list

  const CategorySelectors := [
    "ul.list_home_theme_type_category li a.link_item",
    ".list_home_theme_type_category a.link_item",
    "app-view-theme-excluding-brand a.link_item",
    ".group_home_theme a.link_item",
    ".area_theme a[aria-label]"
  ]

  /** `category_tabs`: the elements of the first selector that matches any;
      none when no selector matches. These lookups are outside any `try`, so
      one that raises ends the crawl (`None`). */
  function CategoryTabs(lookups: seq<Lookup>): Option<seq<Element>>
    decreases |lookups|
  {
    if |lookups| == 0 then Some([])
    else
      match lookups[0]
      case Raises => None
      case Found(els) => if els != [] then Some(els) else CategoryTabs(lookups[1..])
  }

  method FindCategoryTabs(p: Page) returns (r: Option<seq<Element>>)
    ensures r == CategoryTabs(FindAll(p, CategorySelectors))
  {
    var lookups := FindAll(p, CategorySelectors);
    var i := 0;
    while i < |lookups|
      invariant 0 <= i <= |lookups|
      invariant CategoryTabs(lookups[i..]) == CategoryTabs(lookups)
    {
      assert lookups[i..][1..] == lookups[i + 1..];
      match lookups[i] {
        case Raises => return None;
        case Found(els) =>
          if els != [] {
            return Some(els);
          }
      }
      i := i + 1;
    }
    return Some([]);
  }

  /** The first selector `k` that matches anything supplies the category
      list, whatever later selectors match. */
  lemma {:induction false} CategoryTabsFirstWins(lookups: seq<Lookup>, k: nat)
    requires k < |lookups| && lookups[k].Found? && lookups[k].elements != []
    requires forall j :: 0 <= j < k ==> lookups[j] == Found([])
    ensures CategoryTabs(lookups) == Some(lookups[k].elements)
    decreases k
  {
    if k > 0 {
      assert lookups[0] == Found([]);
      CategoryTabsFirstWins(lookups[1..], k - 1);
    }
  }

  /** The name and link read from a category tab. */
  datatype CategoryInfo = CategoryInfo(name: string, href: string)

  const UnknownCategory := "알 수 없음"

  /** `aria-label or "알 수 없음"` and `href or ""`. */
  function InfoOf(tab: Element): (info: CategoryInfo)
    ensures info.name != ""
    ensures Attr(tab, "aria-label") != "" ==> info.name == Attr(tab, "aria-label")
    ensures Attr(tab, "aria-label") == "" ==> info.name == UnknownCategory
    ensures info.href == Attr(tab, "href")
  {
    var aria := Attr(tab, "aria-label");
    assert |UnknownCategory| == 6;
    CategoryInfo(if aria != "" then aria else UnknownCategory, Attr(tab, "href"))
  }

  /** `category_info`, built by a loop over the tabs. */
  method CollectInfos(tabs: seq<Element>) returns (infos: seq<CategoryInfo>)
    ensures |infos| == |tabs|
    ensures forall i :: 0 <= i < |tabs| ==> infos[i] == InfoOf(tabs[i])
  {
    infos := [];
    for i := 0 to |tabs|
      invariant |infos| == i
      invariant forall j :: 0 <= j < i ==> infos[j] == InfoOf(tabs[j])
    {
      infos := infos + [InfoOf(tabs[i])];
    }
  }

  function Infos(tabs: seq<Element>): seq<CategoryInfo> {
    seq(|tabs|, i requires 0 <= i < |tabs| => InfoOf(tabs[i]))
  }

  // -------------------------------------------------------------- navigation

  const SiteOrigin := "https://gift.kakao.com"

  /** A category with a usable link is opened by that link. */
  predicate UsesHref(info: CategoryInfo) {
    info.href != "" && info.href != "#none"
  }

  /** A link not starting with `http` is taken as site-relative. */
  function NormalizeHref(href: string): string {
    if StartsWith(href, "http") then href else SiteOrigin + href
  }

  lemma StartsWithConcat(a: string, b: string, p: string)
    requires StartsWith(a, p)
    ensures StartsWith(a + b, p)
  {
    assert (a + b)[..|p|] == a[..|p|];
  }

  /** The normalised link always starts with `http`, normalising twice is
      normalising once, and an absolute link is kept as it is. */
  lemma NormalizeHrefSpec(href: string)
    ensures StartsWith(NormalizeHref(href), "http")
    ensures NormalizeHref(NormalizeHref(href)) == NormalizeHref(href)
    ensures StartsWith(href, "http") ==> NormalizeHref(href) == href
    ensures !StartsWith(href, "http") ==> NormalizeHref(href) == SiteOrigin + href
  {
    assert StartsWith(SiteOrigin, "http");
    StartsWithConcat(SiteOrigin, href, "http");
  }

  /** The tab to click for category `idx`: index `idx` of the first selector
      that matches more than `idx` elements (`Some(Some(e))`), none
      (`Some(None)`), or a lookup that raises (`None`). */
  function ClickTarget(lookups: seq<Lookup>, idx: nat): Option<Option<Element>>
    decreases |lookups|
  {
    if |lookups| == 0 then Some(None)
    else
      match lookups[0]
      case Raises => None
      case Found(els) => if idx < |els| then Some(Some(els[idx])) else ClickTarget(lookups[1..], idx)
  }

  method FindClickTarget(p: Page, idx: nat) returns (r: Option<Option<Element>>)
    ensures r == ClickTarget(FindAll(p, CategorySelectors), idx)
  {
    var lookups := FindAll(p, CategorySelectors);
    var i := 0;
    while i < |lookups|
      invariant 0 <= i <= |lookups|
      invariant ClickTarget(lookups[i..], idx) == ClickTarget(lookups, idx)
    {
      assert lookups[i..][1..] == lookups[i + 1..];
      match lookups[i] {
        case Raises => return None;
        case Found(els) =>
          if idx < |els| {
            return Some(Some(els[idx]));
          }
      }
      i := i + 1;
    }
    return Some(None);
  }

  /** The clicked tab comes from the first selector with more than `idx`
      matches; there is none exactly when every selector has at most `idx`. */
  lemma {:induction false} ClickTargetSpec(lookups: seq<Lookup>, idx: nat, k: nat)
    ensures ClickTarget(lookups, idx) == Some(None) <==>
      forall j :: 0 <= j < |lookups| ==> lookups[j].Found? && |lookups[j].elements| <= idx
    ensures k < |lookups| && lookups[k].Found? && idx < |lookups[k].elements|
            && (forall j :: 0 <= j < k ==> lookups[j].Found? && |lookups[j].elements| <= idx)
            ==> ClickTarget(lookups, idx) == Some(Some(lookups[k].elements[idx]))
    decreases |lookups|
  {
    if |lookups| > 0 {
      ClickTargetSpec(lookups[1..], idx, if k > 0 then k - 1 else 0);
      assert forall j :: 1 <= j < |lookups| ==> lookups[j] == lookups[1..][j - 1];
    }
  }

  /** The page category `idx` is read from, or `None` when the category is
      skipped (no tab to click) or fails (its page does not load, or a tab
      lookup raises); the shown page does not change then. In the click
      branch the tabs are looked up on the page the browser shows at that
      moment. */
  function Navigate(site: Site, cur: Page, idx: nat, info: CategoryInfo): Option<Page> {
    if UsesHref(info) then
      var url := NormalizeHref(info.href);
      if url in site.pages then Some(site.pages[url]) else None
    else
      match ClickTarget(FindAll(cur, CategorySelectors), idx)
      case Some(Some(tab)) => Some(AfterClick(site, cur, tab))
      case _ => None
  }

  // -------------------------------------------------------------- categories

  /** The page shown after a category could not be reached: the error page
      when its `driver.get` raised, otherwise the page as it was (no tab to
      click). */
  function AfterFailedNavigate(cur: Page, info: CategoryInfo): Page {
    if UsesHref(info) then ErrorPage else cur
  }

  /** One category, inside its own `try`: its visits (none when it is
      skipped or fails before its products) and the page shown afterwards. */
  function CategoryStep(site: Site, env: Env, cur: Page, idx: nat, info: CategoryInfo, maxProducts: nat): (seq<Visit>, Page) {
    match Navigate(site, cur, idx, info)
    case None => ([], AfterFailedNavigate(cur, info))
    case Some(p) =>
      match LinksOutcome(p)
      case None => ([], p)
      case Some(all) =>
        var links := Take(all, maxProducts);
        if links == [] then ([], p) else VisitAll(site, env, p, links, info.name)
  }

  /** Categories `idx..` in order. */
  function AllCategories(site: Site, env: Env, cur: Page, infos: seq<CategoryInfo>, idx: nat, maxProducts: nat): seq<Visit>
    decreases |infos| - idx
  {
    if idx >= |infos| then []
    else
      var (visits, next) := CategoryStep(site, env, cur, idx, infos[idx], maxProducts);
      visits + AllCategories(site, env, next, infos, idx + 1, maxProducts)
  }

  /** The whole category crawl; only a failed start page or a category-list
      lookup that raises ends it early (`None`). */
  function CategoryCrawlOutcome(site: Site, env: Env, maxProducts: nat): Option<seq<Visit>> {
    if CategoryBaseUrl !in site.pages then None
    else
      var p := AfterTabStep(site, site.pages[CategoryBaseUrl]);
      match CategoryTabs(FindAll(p, CategorySelectors))
      case None => None
      case Some(tabs) => Some(AllCategories(site, env, p, Infos(tabs), 0, maxProducts))
  }

  /** One iteration of the category loop. */
  method VisitCategory(d: Driver, env: Env, infos: seq<CategoryInfo>, idx: nat, maxProducts: nat) returns (visits: seq<Visit>)
    requires idx < |infos|
    modifies d`current
    ensures AllCategories(d.site, env, old(d.current), infos, idx, maxProducts)
         == visits + AllCategories(d.site, env, d.current, infos, idx + 1, maxProducts)
  {
    AllCategoriesStep(d.site, env, d.current, infos, idx, maxProducts);
    var info := infos[idx];
    visits := [];
    if UsesHref(info) {
      var ok := d.Get(NormalizeHref(info.href));
      if !ok {
        return;
      }
    } else {
      var target := FindClickTarget(d.current, idx);
      if target.None? || target.value.None? {
        return;
      }
      d.Click(target.value.value);
    }
    var found := ExtractProductLinks(d.current);
    if found.None? {
      return;
    }
    var links := Take(found.value, maxProducts);
    if links == [] {
      return;
    }
    visits := VisitLinks(d, env, links, info.name);
  }

  /** `crawl()` of the category script: the driver is quit on every path. */
  method RunCategoryCrawl(site: Site, env: Env, maxProducts: nat) returns (log: Option<seq<Visit>>, d: Driver)
    ensures log == CategoryCrawlOutcome(site, env, maxProducts)
    ensures d.site == site && !d.open
  {
    d := new Driver(site);
    var ok := d.Get(CategoryBaseUrl);
    if !ok {
      d.Quit();
      return None, d;
    }
    match Find(d.current, TabSelector) {
      case Raises =>
      case Found(tabButtons) =>
        var choice := ChooseTabLoop(tabButtons);
        if choice.Some? {
          d.Click(choice.value);
        }
    }
    ghost var listPage := d.current;
    assert listPage == AfterTabStep(site, site.pages[CategoryBaseUrl]);
    var tabs := FindCategoryTabs(d.current);
    if tabs.None? {
      d.Quit();
      return None, d;
    }
    var infos := CollectInfos(tabs.value);
    assert infos == Infos(tabs.value);
    var visits := CrawlCategories(d, env, infos, maxProducts);
    d.Quit();
    return Some(visits), d;
  }

  /** One category of `AllCategories`, taken off the front. */
  lemma AllCategoriesStep(site: Site, env: Env, cur: Page, infos: seq<CategoryInfo>, idx: nat, maxProducts: nat)
    requires idx < |infos|
    ensures AllCategories(site, env, cur, infos, idx, maxProducts)
         == CategoryStep(site, env, cur, idx, infos[idx], maxProducts).0
          + AllCategories(site, env, CategoryStep(site, env, cur, idx, infos[idx], maxProducts).1, infos, idx + 1, maxProducts)
  {
  }

  /** The `for idx, info in enumerate(category_infos)` loop. */
  method CrawlCategories(d: Driver, env: Env, infos: seq<CategoryInfo>, maxProducts: nat) returns (visits: seq<Visit>)
    requires d.open
    modifies d`current
    ensures d.open
    ensures visits == AllCategories(d.site, env, old(d.current), infos, 0, maxProducts)
  {
    ghost var start := d.current;
    visits := [];
    var idx := 0;
    while idx < |infos|
      invariant d.open
      invariant idx <= |infos|
      invariant AllCategories(d.site, env, start, infos, 0, maxProducts)
             == visits + AllCategories(d.site, env, d.current, infos, idx, maxProducts)
      decreases |infos| - idx
    {
      ghost var before := AllCategories(d.site, env, d.current, infos, idx, maxProducts);
      var step := VisitCategory(d, env, infos, idx, maxProducts);
      ghost var after := AllCategories(d.site, env, d.current, infos, idx + 1, maxProducts);
      assert visits + before == (visits + step) + after;
      visits := visits + step;
      idx := idx + 1;
    }
    assert visits + [] == visits;
  }

  // -------------------------------------------------------------- properties

  /** Every row saved in a category's product loop has that category's name
      as its category. */
  lemma {:induction false} VisitAllCategory(site: Site, env: Env, cur: Page, links: seq<string>, hint: string)
    requires hint != ""
    ensures forall v :: v in VisitAll(site, env, cur, links, hint).0 && v.Saved? ==> v.row.category == hint
    decreases |links|
  {
    if |links| > 0 {
      var (v, next) := VisitLink(site, env, cur, links[0], hint);
      VisitAllCategory(site, env, next, links[1..], hint);
      if v.Saved? {
        HintIsCategory(env, links[0], site.pages[links[0]], hint, "");
      }
    }
  }

  /** One category visits at most `maxProducts` links, and every row it
      saves carries the category's name. */
  lemma CategoryStepSpec(site: Site, env: Env, cur: Page, idx: nat, info: CategoryInfo, maxProducts: nat)
    requires info.name != ""
    ensures |CategoryStep(site, env, cur, idx, info, maxProducts).0| <= maxProducts
    ensures forall v :: v in CategoryStep(site, env, cur, idx, info, maxProducts).0 && v.Saved? ==> v.row.category == info.name
  {
    match Navigate(site, cur, idx, info) {
      case None =>
      case Some(p) =>
        match LinksOutcome(p) {
          case None =>
          case Some(all) =>
            var links := Take(all, maxProducts);
            VisitAllSpec(site, env, p, links, info.name);
            VisitAllCategory(site, env, p, links, info.name);
        }
    }
  }

  /** Over the whole category loop: at most `maxProducts` visits per
      category, and every saved row's category is the name of one of the
      categories. */
  lemma {:induction false} AllCategoriesSpec(site: Site, env: Env, cur: Page, infos: seq<CategoryInfo>, idx: nat, maxProducts: nat)
    requires forall k :: 0 <= k < |infos| ==> infos[k].name != ""
    ensures idx <= |infos| ==> |AllCategories(site, env, cur, infos, idx, maxProducts)| <= (|infos| - idx) * maxProducts
    ensures forall v :: v in AllCategories(site, env, cur, infos, idx, maxProducts) && v.Saved? ==>
      exists k :: idx <= k < |infos| && v.row.category == infos[k].name
    decreases |infos| - idx
  {
    if idx < |infos| {
      var (visits, next) := CategoryStep(site, env, cur, idx, infos[idx], maxProducts);
      CategoryStepSpec(site, env, cur, idx, infos[idx], maxProducts);
      AllCategoriesSpec(site, env, next, infos, idx + 1, maxProducts);
      var rest := AllCategories(site, env, next, infos, idx + 1, maxProducts);
      assert AllCategories(site, env, cur, infos, idx, maxProducts) == visits + rest;
      assert (|infos| - idx - 1) * maxProducts + maxProducts == (|infos| - idx) * maxProducts;
      forall v | v in visits + rest && v.Saved?
        ensures exists k :: idx <= k < |infos| && v.row.category == infos[k].name
      {
        if v in visits {
          assert v.row.category == infos[idx].name;
        } else {
          assert v in rest;
        }
      }
    }
  }

  /** The category crawl as a whole: at most `MAX_PRODUCTS_PER_CATEGORY`
      visits per category, and every row is labelled with a category name
      read from the category list. */
  lemma CategoryCrawlSpec(site: Site, env: Env)
    requires CategoryCrawlOutcome(site, env, MaxProductsPerCategory).Some?
    ensures var p := AfterTabStep(site, site.pages[CategoryBaseUrl]);
            var tabs := CategoryTabs(FindAll(p, CategorySelectors)).value;
            var log := CategoryCrawlOutcome(site, env, MaxProductsPerCategory).value;
            |log| <= |tabs| * MaxProductsPerCategory
            && forall v :: v in log && v.Saved? ==> exists k :: 0 <= k < |tabs| && v.row.category == InfoOf(tabs[k]).name
  {
    var p := AfterTabStep(site, site.pages[CategoryBaseUrl]);
    var tabs := CategoryTabs(FindAll(p, CategorySelectors)).value;
    AllCategoriesSpec(site, env, p, Infos(tabs), 0, MaxProductsPerCategory);
  }

  /** A category that is skipped or fails before its products adds nothing
      and leaves the shown page as it was: the loop goes on with the next
      category exactly as if this one were absent. */
  lemma FailedCategoryIsSkipped(site: Site, env: Env, cur: Page, infos: seq<CategoryInfo>, idx: nat, maxProducts: nat)
    requires idx < |infos| && Navigate(site, cur, idx, infos[idx]).None?
    ensures AllCategories(site, env, cur, infos, idx, maxProducts)
         == AllCategories(site, env, AfterFailedNavigate(cur, infos[idx]), infos, idx + 1, maxProducts)
  {
    assert CategoryStep(site, env, cur, idx, infos[idx], maxProducts) == ([], AfterFailedNavigate(cur, infos[idx]));
  }

  /** After a category whose products were visited, the browser shows the
      last product page, and that is the page on which the next category's
      tab is looked up when it is opened by clicking. */
  /** After a category whose `driver.get` raised, a following click-mode
      category looks for its tab on the error page, finds none, and is
      skipped. */
  lemma FailedLoadSkipsClickedTab(site: Site, env: Env, cur: Page, infos: seq<CategoryInfo>, idx: nat, maxProducts: nat)
    requires idx + 1 < |infos| && UsesHref(infos[idx]) && !UsesHref(infos[idx + 1])
    requires Navigate(site, cur, idx, infos[idx]).None?
    ensures AllCategories(site, env, cur, infos, idx, maxProducts)
         == AllCategories(site, env, ErrorPage, infos, idx + 2, maxProducts)
  {
    FailedCategoryIsSkipped(site, env, cur, infos, idx, maxProducts);
    ClickTargetOfNothing(FindAll(ErrorPage, CategorySelectors), idx + 1);
    FailedCategoryIsSkipped(site, env, ErrorPage, infos, idx + 1, maxProducts);
  }

  /** Selectors that all find nothing give no tab to click. */
  lemma {:induction false} ClickTargetOfNothing(lookups: seq<Lookup>, idx: nat)
    requires forall k :: 0 <= k < |lookups| ==> lookups[k] == Found([])
    ensures ClickTarget(lookups, idx) == Some(None)
    decreases |lookups|
  {
    if |lookups| > 0 {
      ClickTargetOfNothing(lookups[1..], idx);
    }
  }

  lemma ClickModeReadsLastProductPage(site: Site, env: Env, cur: Page, idx: nat, info: CategoryInfo, next: CategoryInfo, maxProducts: nat)
    requires Navigate(site, cur, idx, info).Some?
    requires LinksOutcome(Navigate(site, cur, idx, info).value).Some?
    requires var links := Take(LinksOutcome(Navigate(site, cur, idx, info).value).value, maxProducts);
             links != [] && links[|links| - 1] in site.pages
    requires !UsesHref(next)
    ensures var links := Take(LinksOutcome(Navigate(site, cur, idx, info).value).value, maxProducts);
            var shown := site.pages[links[|links| - 1]];
            CategoryStep(site, env, cur, idx, info, maxProducts).1 == shown
            && Navigate(site, shown, idx + 1, next) ==
               match ClickTarget(FindAll(shown, CategorySelectors), idx + 1)
               case Some(Some(tab)) => Some(AfterClick(site, shown, tab))
               case _ => None
  {
    var p := Navigate(site, cur, idx, info).value;
    var links := Take(LinksOutcome(p).value, maxProducts);
    VisitAllEndsOnLastProduct(site, env, p, links, info.name);
  }
}
