/** `parse_product_detail` (identical in both crawl scripts): one product page
    becomes one CSV row, or the call raises. */
module ProductDetail {
  import opened Text
  import opened Seqs
  import opened Browser
  import opened Fields
  import opened DetailImages
  import opened ImagePlan

  /** The calls the model does not look inside: `slugify`, the extension
      `os.path.splitext(urlparse(url).path)[1]`, and whether downloading a URL
      succeeds. */
  datatype Env = Env(slugOf: string -> string, extOf: string -> string, fetchOk: string -> bool)

  /** What `os.path.splitext` promises of an extension. */
  ghost predicate ExtensionsWellFormed(env: Env) {
    forall u :: IsExtension(env.extOf(u))
  }

  /** One CSV row; `crawled_at` (the clock) is not modelled. */
  datatype Row = Row(productId: string, name: string, price: Option<nat>, imagePath: string,
                     features: string, category: string, theme: string, sourceUrl: string)

  const OgImageSelector := "meta[property='og:image']"

  /** The planned images of page `p`: `og:image` first, then the de-duplicated
      detail images. */
  function PlanOf(og: string, p: Page): seq<Entry> {
    Plan(og, Dedup(DetailImageUrls(p)))
  }

  /** The row for product `url` showing page `p`, or `None` when the call
      raises: the `og:image` lookup and the breadcrumb lookups sit outside
      any `try`. A missing title, price or image is not an error. */
  function DetailRow(env: Env, url: string, p: Page, categoryHint: string, themeHint: string): Option<Row> {
    match Find(p, OgImageSelector)
    case Raises => None
    case Found(metas) =>
      var og := if |metas| > 0 then Attr(metas[0], "content") else "";
      var plan := PlanOf(og, p);
      match CategoryOf(categoryHint, p)
      case None => None
      case Some(category) =>
        var pid := GuessProductId(url, env.slugOf(url));
        var paths := SavedPaths(pid, plan, env.extOf, env.fetchOk);
        Some(Row(pid, TitleOf(p), PriceOf(p), MainPath(pid, plan, env.extOf, env.fetchOk),
                 Features(paths), category, themeHint, url))
  }

  /** `parse_product_detail(driver, url, category_hint, theme_hint)`: load the
      page (a failed load raises), then read the fields in the source's
      order. The dialog guard runs in between; its outcome is ignored and it
      does not change what the page answers. */
  method ParseProductDetail(d: Driver, env: Env, url: string, categoryHint: string, themeHint: string)
    returns (row: Option<Row>)
    modifies d`current
    ensures d.current == if url in d.site.pages then d.site.pages[url] else ErrorPage
    ensures row == if url in d.site.pages then DetailRow(env, url, d.site.pages[url], categoryHint, themeHint) else None
  {
    var ok := d.Get(url);
    if !ok {
      return None;
    }
    var p := d.current;
    var name := TitleOf(p);
    var price := PriceOf(p);
    var og := "";
    match Find(p, OgImageSelector) {
      case Raises => return None;
      case Found(metas) =>
        if |metas| > 0 {
          og := Attr(metas[0], "content");
        }
    }
    var found := CollectDetailImages(p);
    var plan := BuildPlan(og, found);
    var category := ResolveCategory(categoryHint, p);
    if category.None? {
      return None;
    }
    var pid := GuessProductId(url, env.slugOf(url));
    var paths, mainPath := SaveImages(pid, plan, env.extOf, env.fetchOk);
    var features := BuildFeatures(paths);
    row := Some(Row(pid, name, price, mainPath, features, category.value, themeHint, url));
  }

  /** The call raises exactly when the `og:image` lookup or a breadcrumb
      lookup raises; otherwise the row records the URL, its product id, the
      title and price of the page, and the theme hint as given. */
  lemma DetailRowSpec(env: Env, url: string, p: Page, categoryHint: string, themeHint: string)
    ensures DetailRow(env, url, p, categoryHint, themeHint).None?
        <==> Find(p, OgImageSelector).Raises? || CategoryOf(categoryHint, p).None?
    ensures DetailRow(env, url, p, categoryHint, themeHint).Some? ==>
      var row := DetailRow(env, url, p, categoryHint, themeHint).value;
      row.sourceUrl == url && row.productId == GuessProductId(url, env.slugOf(url))
      && row.name == TitleOf(p) && row.price == PriceOf(p) && row.theme == themeHint
      && Some(row.category) == CategoryOf(categoryHint, p)
  {
  }

  /** A non-empty category hint is the row's category. */
  lemma HintIsCategory(env: Env, url: string, p: Page, categoryHint: string, themeHint: string)
    requires categoryHint != ""
    requires DetailRow(env, url, p, categoryHint, themeHint).Some?
    ensures DetailRow(env, url, p, categoryHint, themeHint).value.category == categoryHint
  {
    HintWins(categoryHint, FindAll(p, BreadcrumbSelectors()));
  }

  /** `image_path` is set exactly when the page has a main image (its
      `og:image`, or else its first detail image) and downloading it
      succeeded; it is then that image's path. */
  lemma ImagePathSpec(env: Env, url: string, p: Page, categoryHint: string, themeHint: string)
    requires DetailRow(env, url, p, categoryHint, themeHint).Some?
    ensures var metas := Find(p, OgImageSelector).elements;
            var og := if |metas| > 0 then Attr(metas[0], "content") else "";
            var main := MainUrl(og, Dedup(DetailImageUrls(p)));
            var pid := GuessProductId(url, env.slugOf(url));
            DetailRow(env, url, p, categoryHint, themeHint).value.imagePath
            == if main != "" && env.fetchOk(main) then RelPath(pid, Main, env.extOf(main)) else ""
  {
    var metas := Find(p, OgImageSelector).elements;
    var og := if |metas| > 0 then Attr(metas[0], "content") else "";
    DedupSpec(DetailImageUrls(p));
    MainPathSpec(GuessProductId(url, env.slugOf(url)), og, Dedup(DetailImageUrls(p)), env.extOf, env.fetchOk);
  }

  /** `features` joins the saved paths of the detail images, in role order,
      and no two saved images share a path; this holds whenever the product
      id cannot fake a `/detail` segment, in particular for every id read
      from `/product/<digits>`. */
  lemma FeaturesSpec(env: Env, url: string, p: Page, categoryHint: string, themeHint: string)
    requires ExtensionsWellFormed(env)
    requires GoodProductId(GuessProductId(url, env.slugOf(url)))
    requires DetailRow(env, url, p, categoryHint, themeHint).Some?
    ensures var metas := Find(p, OgImageSelector).elements;
            var og := if |metas| > 0 then Attr(metas[0], "content") else "";
            var plan := PlanOf(og, p);
            var pid := GuessProductId(url, env.slugOf(url));
            DetailRow(env, url, p, categoryHint, themeHint).value.features
            == Join(SavedPaths(pid, Filter(plan, IsDetailEntry), env.extOf, env.fetchOk), "; ")
            && Distinct(SavedPaths(pid, plan, env.extOf, env.fetchOk))
  {
    var metas := Find(p, OgImageSelector).elements;
    var og := if |metas| > 0 then Attr(metas[0], "content") else "";
    var pid := GuessProductId(url, env.slugOf(url));
    DedupSpec(DetailImageUrls(p));
    PlanSpec(og, Dedup(DetailImageUrls(p)));
    FeaturesAreDetailPaths(pid, PlanOf(og, p), env.extOf, env.fetchOk);
    SavedPathsDistinct(pid, PlanOf(og, p), env.extOf, env.fetchOk);
  }
}
