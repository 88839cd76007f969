/** Detail-image URLs of a product page (`parse_product_detail`, identical in
    both crawl scripts): inside the description component's shadow root a
    two-stage filter (a script-side pre-filter, then a Python-side filter);
    when the component cannot be reached, a plain-DOM fallback chain. */
module DetailImages {
  import opened Text
  import opened Seqs
  import opened Browser
  import opened Selectors

  // ------------------------------------------------- script-side pre-filter

  /** Terms whose presence (case-sensitive) rejects an image in the script. */
  const PlaceholderTerms := ["1x1", "pixel", "transparent", "blank"]

  /** `img.src || img.getAttribute('data-original-src') || img.getAttribute('data-src')` */
  function ScriptSource(img: Element): string {
    FirstNonEmpty([Attr(img, "src"), Attr(img, "data-original-src"), Attr(img, "data-src")])
  }

  predicate StartsHttp(s: string) {
    StartsWith(s, "http://") || StartsWith(s, "https://")
  }

  /** `s` contains none of `terms`. */
  predicate Avoids(s: string, terms: seq<string>) {
    forall k :: 0 <= k < |terms| ==> !Contains(s, terms[k])
  }

  /** The pre-filter: the script source starts with `http://` or `https://`
      and contains none of the placeholder terms. */
  predicate ScriptAccepts(img: Element) {
    var s := ScriptSource(img);
    s != "" && StartsHttp(s) && Avoids(s, PlaceholderTerms)
  }

  function ScriptPick(img: Element): Option<Element> {
    if ScriptAccepts(img) then Some(img) else None
  }

  // ----------------------------------------------------- Python-side filter

  /** Terms whose presence in the lower-cased URL rejects a shadow-root image. */
  const DetailBlocklist := ["icon", "logo", "thumb_small", "btn_", "arrow",
                            "1x1", "1px", "pixel", "transparent", "blank", "placeholder"]

  /** `data-original-src`, then `data-src`, then `src`. */
  function DetailSource(img: Element): string {
    FirstNonEmpty([Attr(img, "data-original-src"), Attr(img, "data-src"), Attr(img, "src")])
  }

  /** `"http://" in src or "https://" in src` */
  predicate HasHttp(u: string) {
    Contains(u, "http://") || Contains(u, "https://")
  }

  predicate KeepDetailUrl(u: string) {
    u != "" && HasHttp(u) && Avoids(Lower(u), DetailBlocklist)
  }

  function DetailPick(img: Element): Option<string> {
    var u := DetailSource(img);
    if KeepDetailUrl(u) then Some(u) else None
  }

  /** The URLs read from the shadow root's `div._editor_contents` images. */
  function ShadowUrls(editor: seq<Element>): seq<string> {
    Extracted(Extracted(editor, ScriptPick), DetailPick)
  }

  // ---------------------------------------------------------- DOM fallback

  const FallbackSelectors := [
    "div._editor_contents img",
    "[imglazyload] img",
    "div[class*='editor'] img",
    ".wrap_editor img"
  ]

  const FallbackBlocklist := ["icon", "logo", "thumb_small", "btn_", "arrow"]

  /** `src`, then `data-original-src`. */
  function FallbackSource(img: Element): string {
    FirstNonEmpty([Attr(img, "src"), Attr(img, "data-original-src")])
  }

  predicate KeepFallbackUrl(u: string) {
    u != "" && HasHttp(u) && Avoids(Lower(u), FallbackBlocklist)
  }

  function FallbackPick(img: Element): Option<string> {
    var u := FallbackSource(img);
    if KeepFallbackUrl(u) then Some(u) else None
  }

  function FallbackUrls(p: Page): seq<string> {
    FirstHit(FindAll(p, FallbackSelectors), FallbackPick)
  }

  /** The detail-image URLs before de-duplication: the shadow-root reading
      when the component has a shadow root (none when its content container
      is missing), nothing when the root is null, and the fallback chain when
      the component cannot be found. */
  function DetailImageUrls(p: Page): seq<string> {
    match p.shadow
    case NoHost => FallbackUrls(p)
    case NullRoot => []
    case Root(None) => []
    case Root(Some(editor)) => ShadowUrls(editor)
  }

  /** The shadow-root reading: the script's loop, then the Python loop over
      the elements it returned. The three scroll cycles and the waits before
      it only give lazy images time to load; they are not modelled. */
  method ReadShadowImages(editor: seq<Element>) returns (urls: seq<string>)
    ensures urls == ShadowUrls(editor)
  {
    var valid := ExtractAll(editor, ScriptPick);
    urls := ExtractAll(valid, DetailPick);
  }

  method CollectDetailImages(p: Page) returns (urls: seq<string>)
    ensures urls == DetailImageUrls(p)
  {
    match p.shadow {
      case NoHost =>
        urls := CollectFirstHit(FindAll(p, FallbackSelectors), FallbackPick);
      case NullRoot =>
        urls := [];
      case Root(editor) =>
        if editor.Some? {
          urls := ReadShadowImages(editor.value);
        } else {
          urls := [];
        }
    }
  }

  // ------------------------------------------------------------- properties

  lemma {:induction false} ExtractedHas<T>(elements: seq<Element>, extract: Element -> Option<T>, i: nat)
    requires i < |elements| && extract(elements[i]).Some?
    ensures extract(elements[i]).value in Extracted(elements, extract)
  {
    var init := elements[..|elements| - 1];
    if i < |elements| - 1 {
      assert init[i] == elements[i];
      ExtractedHas(init, extract, i);
    }
  }

  /** Two extraction passes, the first a pure filter: a value comes out
      exactly when some element passes the filter and yields it. */
  lemma ExtractedTwiceIff<T>(elements: seq<Element>, pick: Element -> Option<Element>,
                             extract: Element -> Option<T>, v: T)
    requires forall e :: pick(e).Some? ==> pick(e).value == e
    ensures v in Extracted(Extracted(elements, pick), extract) <==>
      exists i :: 0 <= i < |elements| && pick(elements[i]).Some? && extract(elements[i]) == Some(v)
  {
    var valid := Extracted(elements, pick);
    if v in Extracted(valid, extract) {
      ExtractedFrom(valid, extract, v);
      var j :| 0 <= j < |valid| && extract(valid[j]) == Some(v);
      assert valid[j] in valid;
      ExtractedFrom(elements, pick, valid[j]);
    }
    if exists i :: 0 <= i < |elements| && pick(elements[i]).Some? && extract(elements[i]) == Some(v) {
      var i :| 0 <= i < |elements| && pick(elements[i]).Some? && extract(elements[i]) == Some(v);
      ExtractedHas(elements, pick, i);
      var j :| 0 <= j < |valid| && valid[j] == elements[i];
      ExtractedHas(valid, extract, j);
    }
  }

  /** A URL is read from the shadow root exactly when some image of the
      container passes the script's pre-filter and its preferred source is
      that URL and passes the Python filter. */
  lemma ShadowUrlsIff(editor: seq<Element>, u: string)
    ensures u in ShadowUrls(editor) <==>
      exists i :: 0 <= i < |editor| && ScriptAccepts(editor[i]) && DetailSource(editor[i]) == u && KeepDetailUrl(u)
  {
    ExtractedTwiceIff(editor, ScriptPick, DetailPick, u);
    assert forall i :: 0 <= i < |editor| ==>
      (ScriptPick(editor[i]).Some? && DetailPick(editor[i]) == Some(u)
       <==> ScriptAccepts(editor[i]) && DetailSource(editor[i]) == u && KeepDetailUrl(u));
  }

  lemma {:induction false} ExtractedPassesAll<T>(elements: seq<Element>, extract: Element -> Option<T>, keep: T -> bool)
    requires forall e :: extract(e).Some? ==> keep(extract(e).value)
    ensures forall v :: v in Extracted(elements, extract) ==> keep(v)
  {
    if |elements| > 0 {
      ExtractedPassesAll(elements[..|elements| - 1], extract, keep);
    }
  }

  /** The Python-side filter is a pure predicate, so filtering the shadow-root
      URLs again changes nothing: every URL kept contains `http://` or
      `https://` and, lower-cased, none of the blocklist terms. */
  lemma ShadowFilterIdempotent(editor: seq<Element>)
    ensures forall u :: u in ShadowUrls(editor) ==> KeepDetailUrl(u)
    ensures Filter(ShadowUrls(editor), KeepDetailUrl) == ShadowUrls(editor)
  {
    ExtractedPassesAll(Extracted(editor, ScriptPick), DetailPick, KeepDetailUrl);
    FilterKeepsAll(ShadowUrls(editor), KeepDetailUrl);
  }

  /** The pre-filter looks at `src` first: an image whose `src` is set but is
      not an absolute http(s) URL (a `data:` placeholder, say) is dropped,
      whatever its `data-original-src` holds. */
  lemma ScriptChecksSrcFirst(img: Element)
    requires Attr(img, "src") != "" && !StartsHttp(Attr(img, "src"))
    ensures !ScriptAccepts(img)
  {
  }

  /** Every URL the fallback chain yields passes the fallback filter; the
      chain stops at the first selector that yields any URL. */
  lemma FallbackSpec(p: Page, k: nat)
    ensures forall u :: u in FallbackUrls(p) ==> KeepFallbackUrl(u)
    ensures k < |FallbackSelectors| && Find(p, FallbackSelectors[k]).Found?
            && Extracted(Find(p, FallbackSelectors[k]).elements, FallbackPick) != []
            && (forall j :: 0 <= j < k ==> Misses(Find(p, FallbackSelectors[j]), FallbackPick))
            ==> FallbackUrls(p) == Extracted(Find(p, FallbackSelectors[k]).elements, FallbackPick)
  {
    forall u | u in FallbackUrls(p) ensures KeepFallbackUrl(u) {
      FirstHitFrom(FindAll(p, FallbackSelectors), FallbackPick, u);
    }
    var lookups := FindAll(p, FallbackSelectors);
    if k < |FallbackSelectors| && Find(p, FallbackSelectors[k]).Found?
       && Extracted(Find(p, FallbackSelectors[k]).elements, FallbackPick) != []
       && (forall j :: 0 <= j < k ==> Misses(Find(p, FallbackSelectors[j]), FallbackPick)) {
      FirstHitIsFirst(lookups, FallbackPick, k);
    }
  }

  /** The shadow-root blocklist extends the fallback's, so a URL the shadow
      filter keeps is one the fallback filter would keep. */
  lemma ShadowFilterStricter(u: string)
    requires KeepDetailUrl(u)
    ensures KeepFallbackUrl(u)
  {
    assert forall k :: 0 <= k < |FallbackBlocklist| ==> FallbackBlocklist[k] == DetailBlocklist[k];
  }
}
