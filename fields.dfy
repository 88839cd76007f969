/** The per-field helpers of `parse_product_detail` and the module-level
    helpers `parse_price_to_int` and `guess_product_id_from_url` (identical
    in kakao_crawling.py and kakao_crawling_category.py). */
module Fields {
  import opened Text
  import opened Seqs
  import opened Browser

  // ---------------------------------------------------------------- price

  /** `parse_price_to_int`: keep the ASCII digits; no digit means no price. */
  function ParsePrice(text: string): Option<nat> {
    var digits := Digits(text);
    if digits == "" then None else Some(DecimalValue(digits))
  }

  /** There is no price exactly when the text holds no ASCII digit; otherwise
      the price is the decimal value of the digits, read in order. */
  lemma ParsePriceSpec(text: string)
    ensures ParsePrice(text).None? <==> forall i :: 0 <= i < |text| ==> !IsDigit(text[i])
    ensures ParsePrice(text).Some? ==> ParsePrice(text).value == DecimalValue(Digits(text))
  {
    DigitsEmptyIff(text);
  }

  /** Printing a number and parsing it back gives the number. */
  lemma ParsePriceRoundTrip(n: nat)
    ensures ParsePrice(NatToString(n)) == Some(n)
  {
    DigitsOfDigits(NatToString(n));
    DecimalRoundTrip(n);
  }

  /** The digit filter on a formatted price drops the comma and the unit. */
  lemma DigitsOfFormattedPrice()
    ensures Digits("12,900원") == "12900"
  {
    DigitsCons('원', "");
    DigitsCons('0', "원");
    DigitsCons('0', "0원");
    DigitsCons('9', "00원");
    DigitsCons(',', "900원");
    DigitsCons('2', ",900원");
    DigitsCons('1', "2,900원");
  }

  lemma DecimalOfFormattedPrice()
    ensures AllDigits("12900") && DecimalValue("12900") == 12900
  {
    assert "12900"[..4] == "1290";
    assert "1290"[..3] == "129";
    assert "129"[..2] == "12";
    assert "12"[..1] == "1";
    assert "1"[..0] == "";
  }

  /** "12,900원" is 12900 and "무료" (free) has no price. */
  lemma ParsePriceExamples()
    ensures ParsePrice("12,900원") == Some(12900)
    ensures ParsePrice("무료") == None
    ensures ParsePrice("") == None
  {
    DigitsOfFormattedPrice();
    DecimalOfFormattedPrice();
    assert Digits("료") == "";
  }

  // ----------------------------------------------------------- product id

  const ProductPath := "/product/"

  /** The greedy `\d+` run at the front of `s`. */
  function LeadingDigits(s: string): (d: string)
    ensures AllDigits(d) && StartsWith(s, d)
    ensures |d| < |s| ==> !IsDigit(s[|d|])
  {
    if |s| > 0 && IsDigit(s[0]) then [s[0]] + LeadingDigits(s[1..]) else ""
  }

  /** A digit run followed by a non-digit (or by nothing) is read whole. */
  lemma {:induction false} LeadingDigitsOf(d: string, rest: string)
    requires AllDigits(d)
    requires |rest| > 0 ==> !IsDigit(rest[0])
    ensures LeadingDigits(d + rest) == d
  {
    if |d| > 0 {
      assert (d + rest)[1..] == d[1..] + rest;
      LeadingDigitsOf(d[1..], rest);
      assert [d[0]] + d[1..] == d;
    } else {
      assert d + rest == rest;
    }
  }

  /** `/product/\d+` matches at index `i`. */
  predicate MatchesAt(url: string, i: nat) {
    i <= |url| && StartsWith(url[i..], ProductPath) && |url| > i + |ProductPath| && IsDigit(url[i + |ProductPath|])
  }

  /** `re.search(r"/product/(\d+)", url)` scanning from index `i`: group 1 of
      the leftmost match. */
  function SearchFrom(url: string, i: nat): Option<string>
    decreases |url| + 1 - i
  {
    if i > |url| then None
    else if MatchesAt(url, i) then Some(LeadingDigits(url[i + |ProductPath|..]))
    else SearchFrom(url, i + 1)
  }

  /** `guess_product_id_from_url`; `slug` is `slugify(url)`, whose
      internals are not part of this model. */
  function GuessProductId(url: string, slug: string): string {
    match SearchFrom(url, 0)
    case Some(digits) => digits
    case None => Take(slug, 32)
  }

  lemma {:induction false} SearchFromLeftmost(url: string, i: nat, k: nat)
    requires i <= k && MatchesAt(url, k)
    requires forall j :: i <= j < k ==> !MatchesAt(url, j)
    ensures SearchFrom(url, i) == Some(LeadingDigits(url[k + |ProductPath|..]))
    decreases k - i
  {
    if i < k {
      SearchFromLeftmost(url, i + 1, k);
    }
  }

  lemma {:induction false} SearchFromNone(url: string, i: nat)
    requires forall j :: i <= j <= |url| ==> !MatchesAt(url, j)
    ensures SearchFrom(url, i) == None
    decreases |url| + 1 - i
  {
    if i <= |url| {
      SearchFromNone(url, i + 1);
    }
  }

  /** When `/product/` followed by a digit first occurs at index `k`, the id is
      the whole digit run after it: non-empty, all digits. */
  lemma ProductIdFromPath(url: string, slug: string, k: nat)
    requires MatchesAt(url, k)
    requires forall j :: 0 <= j < k ==> !MatchesAt(url, j)
    ensures GuessProductId(url, slug) == LeadingDigits(url[k + |ProductPath|..])
    ensures |GuessProductId(url, slug)| > 0 && AllDigits(GuessProductId(url, slug))
  {
    SearchFromLeftmost(url, 0, k);
  }

  /** Without such an occurrence the id is the slug cut to 32 characters;
      it depends on nothing but the URL. */
  lemma ProductIdFallback(url: string, slug: string)
    requires forall j :: 0 <= j <= |url| ==> !MatchesAt(url, j)
    ensures GuessProductId(url, slug) == Take(slug, 32)
    ensures |GuessProductId(url, slug)| <= 32
  {
    SearchFromNone(url, 0);
  }

  lemma MatchStartsWithSlashP(url: string, j: nat)
    requires MatchesAt(url, j)
    ensures url[j] == '/' && url[j + 1] == 'p'
  {
    assert url[j..][..|ProductPath|] == ProductPath;
    assert url[j..][..|ProductPath|][0] == url[j];
    assert url[j..][..|ProductPath|][1] == url[j + 1];
  }

  const ExampleUrl := "https://gift.kakao.com/product/123456?x=1"

  lemma ExampleHostHasNoMatch(url: string, j: nat)
    requires url == ExampleUrl && j < 22
    ensures !MatchesAt(url, j)
  {
    assert url[j] == '/' ==> j == 6 || j == 7;
    if MatchesAt(url, j) {
      MatchStartsWithSlashP(url, j);
      assert false;
    }
  }

  lemma ExampleFirstMatch(url: string)
    requires url == ExampleUrl
    ensures MatchesAt(url, 22)
    ensures forall j :: 0 <= j < 22 ==> !MatchesAt(url, j)
  {
    assert url[22..31] == ProductPath;
    forall j | 0 <= j < 22 ensures !MatchesAt(url, j) {
      ExampleHostHasNoMatch(url, j);
    }
  }

  lemma ExampleDigits(url: string)
    requires url == ExampleUrl
    ensures LeadingDigits(url[31..]) == "123456"
  {
    assert url[31..] == "123456" + "?x=1";
    LeadingDigitsOf("123456", "?x=1");
  }

  /** `.../product/123456?x=1` gives "123456". */
  lemma ProductIdExample(url: string, slug: string)
    requires url == ExampleUrl
    ensures GuessProductId(url, slug) == "123456"
  {
    ExampleFirstMatch(url);
    ProductIdFromPath(url, slug, 22);
    ExampleDigits(url);
  }

  // ---------------------------------------------------------------- title

  const TitleSelector := "h2.tit_subject"

  /** The name recorded when the title never becomes visible. */
  const NoTitle := "제목 없음"

  /** The visibility wait on `h2.tit_subject`: the first match must be
      displayed; any failure yields the sentinel instead of an exception. */
  function TitleOf(p: Page): string {
    match Find(p, TitleSelector)
    case Found(els) => if |els| > 0 && els[0].displayed then Strip(els[0].text) else NoTitle
    case Raises => NoTitle
  }

  /** The wait fails (and the name is the sentinel) when the lookup raises,
      finds nothing, or finds a hidden first match; otherwise the name is
      the stripped text of the first match. Either way it is stripped. */
  lemma TitleOfSpec(p: Page)
    ensures (Find(p, TitleSelector).Raises? || Find(p, TitleSelector).elements == []
             || !Find(p, TitleSelector).elements[0].displayed)
            ==> TitleOf(p) == NoTitle
    ensures (Find(p, TitleSelector).Found? && Find(p, TitleSelector).elements != []
             && Find(p, TitleSelector).elements[0].displayed)
            ==> TitleOf(p) == Strip(Find(p, TitleSelector).elements[0].text)
    ensures IsStripped(TitleOf(p))
  {
    match Find(p, TitleSelector)
    case Found(els) =>
      if |els| > 0 && els[0].displayed {
        StripIsStripped(els[0].text);
      } else {
        assert !IsSpace(NoTitle[0]) && !IsSpace(NoTitle[|NoTitle| - 1]);
      }
    case Raises =>
      assert !IsSpace(NoTitle[0]) && !IsSpace(NoTitle[|NoTitle| - 1]);
  }

  // ----------------------------------------------------------- price text

  const PriceSelector := "span.txt_total"

  /** The stripped text of the first `span.txt_total`, or "" when there is
      none or the lookup raises. */
  function PriceTextOf(p: Page): string {
    match Find(p, PriceSelector)
    case Found(els) => if |els| > 0 then Strip(els[0].text) else ""
    case Raises => ""
  }

  function PriceOf(p: Page): Option<nat> {
    var text := PriceTextOf(p);
    if text != "" then ParsePrice(text) else None
  }

  /** The price is absent when the price element is missing, when its lookup
      raises, or when its text has no digit; otherwise it is the value of
      that text's digits. */
  lemma PriceOfSpec(p: Page)
    ensures PriceOf(p).None? <==> forall i :: 0 <= i < |PriceTextOf(p)| ==> !IsDigit(PriceTextOf(p)[i])
    ensures Find(p, PriceSelector).Raises? || Find(p, PriceSelector).elements == [] ==> PriceOf(p).None?
    ensures PriceOf(p).Some? ==> PriceOf(p).value == DecimalValue(Digits(PriceTextOf(p)))
  {
    ParsePriceSpec(PriceTextOf(p));
  }

  // ------------------------------------------------------------- category

  /** The breadcrumb bases, in the order they are tried. */
  const BreadcrumbBases := [".breadcrumb", "nav.breadcrumb", "ul.breadcrumb"]

  function BreadcrumbSelector(base: string): string {
    base + " li, " + base + " a"
  }

  /** The combined `li` and `a` selector of each base, in the order tried. */
  function BreadcrumbSelectors(): seq<string> {
    seq(|BreadcrumbBases|, k requires 0 <= k < |BreadcrumbBases| => BreadcrumbSelector(BreadcrumbBases[k]))
  }

  /** `[el.text.strip() for el in bc if el.text.strip()]` */
  function Crumbs(els: seq<Element>): (r: seq<string>)
    ensures |r| <= |els|
    ensures forall i :: 0 <= i < |r| ==> r[i] != ""
  {
    if |els| == 0 then []
    else
      var init := Crumbs(els[..|els| - 1]);
      var t := Strip(els[|els| - 1].text);
      if t != "" then init + [t] else init
  }

  /** Each element's stripped text, in element order. */
  function StrippedTexts(els: seq<Element>): seq<string> {
    seq(|els|, i requires 0 <= i < |els| => Strip(els[i].text))
  }

  predicate NonEmpty(s: string) {
    s != ""
  }

  /** The crumbs are the elements' stripped texts, in element order, with
      the empty ones dropped; each is stripped. */
  lemma {:induction false} CrumbsSpec(els: seq<Element>)
    ensures Crumbs(els) == Filter(StrippedTexts(els), NonEmpty)
    ensures forall i :: 0 <= i < |Crumbs(els)| ==> IsStripped(Crumbs(els)[i])
    ensures forall j :: 0 <= j < |els| && Strip(els[j].text) != "" ==> Strip(els[j].text) in Crumbs(els)
  {
    if |els| > 0 {
      var init, last := els[..|els| - 1], els[|els| - 1];
      CrumbsSpec(init);
      assert StrippedTexts(els) == StrippedTexts(init) + [Strip(last.text)];
      FilterSnoc(StrippedTexts(init), Strip(last.text), NonEmpty);
      StripIsStripped(last.text);
      forall j | 0 <= j < |els| && Strip(els[j].text) != ""
        ensures Strip(els[j].text) in Crumbs(els)
      {
        if j < |init| {
          assert els[j] == init[j];
        }
      }
    }
  }

  /** The category after the breadcrumb search, starting from
      `category_hint or ""`: the first selector that matches any element
      decides; its second non-empty crumb is taken when the category is still
      empty; the search stops there even with fewer than two crumbs. `None`
      means a lookup raised, which aborts the whole product. */
  function BreadcrumbCategory(category: string, lookups: seq<Lookup>): Option<string> {
    if |lookups| == 0 then Some(category)
    else
      match lookups[0]
      case Raises => None
      case Found(els) =>
        if els == [] then BreadcrumbCategory(category, lookups[1..])
        else
          var crumbs := Crumbs(els);
          Some(if |crumbs| >= 2 && category == "" then crumbs[1] else category)
  }

  function CategoryOf(hint: string, p: Page): Option<string> {
    BreadcrumbCategory(hint, FindAll(p, BreadcrumbSelectors()))
  }

  /** The breadcrumb loop of `parse_product_detail`. */
  method ResolveCategory(hint: string, p: Page) returns (r: Option<string>)
    ensures r == CategoryOf(hint, p)
  {
    var lookups := FindAll(p, BreadcrumbSelectors());
    var category := hint;
    var i := 0;
    while i < |lookups|
      invariant 0 <= i <= |lookups|
      invariant BreadcrumbCategory(category, lookups[i..]) == CategoryOf(hint, p)
      invariant category == hint
    {
      assert lookups[i..][1..] == lookups[i + 1..];
      match lookups[i] {
        case Raises => return None;
        case Found(els) =>
          if els != [] {
            var crumbs := Crumbs(els);
            if |crumbs| >= 2 && category == "" {
              category := crumbs[1];
            }
            return Some(category);
          }
      }
      i := i + 1;
    }
    return Some(category);
  }

  /** A non-empty hint always survives the breadcrumb search (unless a
      lookup raises, which fails the product). */
  lemma {:induction false} HintWins(hint: string, lookups: seq<Lookup>)
    requires hint != ""
    ensures BreadcrumbCategory(hint, lookups) == None || BreadcrumbCategory(hint, lookups) == Some(hint)
  {
    if |lookups| > 0 && lookups[0].Found? && lookups[0].elements == [] {
      HintWins(hint, lookups[1..]);
    }
  }

  /** With no hint: the first selector `k` that matches anything decides,
      giving its second crumb, or "" when it has fewer than two, whatever
      the later selectors would give. */
  lemma {:induction false} FirstBreadcrumbDecides(lookups: seq<Lookup>, k: nat)
    requires k < |lookups| && lookups[k].Found? && lookups[k].elements != []
    requires forall j :: 0 <= j < k ==> lookups[j] == Found([])
    ensures BreadcrumbCategory("", lookups)
         == Some(if |Crumbs(lookups[k].elements)| >= 2 then Crumbs(lookups[k].elements)[1] else "")
  {
    if k > 0 {
      assert lookups[0] == Found([]);
      FirstBreadcrumbDecides(lookups[1..], k - 1);
    }
  }
}
