# Kakao gift crawler and describer, modelled in Dafny

The repository holds three scripts around the Kakao gift shop:

- `kakao_crawling.py` walks fixed list pages. It collects product links with
  a cascade of CSS selectors and visits each product page. Each page becomes
  one CSV row: id, title, price, main image, detail images, category, theme
  and URL. The images are downloaded as they are met.
- `kakao_crawling_category.py` opens the category home instead. It picks the
  "카테고리" tab, lists the category links, and crawls up to 100 products per
  category with the same product parser.
- `generate_description.py` reads the rows back. For each product in a
  configured range it turns `features` into image paths and keeps the images
  that fit a token budget. It then asks a language model for a description,
  which it writes into a `description` column.

The model works on values:

- A browser `Page` answers each CSS selector with a list of elements, or
  with an exception (`Raises`). It may show a dialog and may carry the
  shadow-rooted description component.
- A `Site` maps URLs to pages.
- The one piece of mutable state is the `Browser.Driver` class: the page it
  shows, and whether it is still open.

Every loop of the scripts is a Dafny `method` with a `while`/`for` loop. Each
method is proved equal to a recursive specification function. The properties
are lemmas about those functions: first-match-wins selector cascades,
de-duplication, the image plan, distinct file names, crawl bounds, the
`features` round trip and the token budget.

Calls the model does not look inside are parameters:

- `slugify`, the URL extension, and whether a download succeeds are
  `ProductDetail.Env`.
- The file system, PIL dimensions and base64 encoding are
  `Describe.FileInfo`.
- The prompt token count is `promptTokens`, and the language-model call is
  `llm`.

Modules, one per file:

- `Text`, `Seqs`: strings and sequences.
- `Browser`, `Dialog`: the browser and the dialog guard.
- `Selectors`: product-link extraction.
- `Fields`: price, product id, title and category.
- `DetailImages`, `ImagePlan`, `ProductDetail`: `parse_product_detail`.
- `Crawl`: the list crawl.
- `CategoryCrawl`: the category crawl.
- `Describe`: the describer.

## Model

| member | source | states |
|---|---|---|
| Text.ContainsIff | kakao_crawling.py:122 | `sub in s` holds exactly when `sub` occurs at some offset of `s` |
| Text.StripIsStripped | generate_description.py:107 | `strip()` leaves no surrounding white space and is the identity on stripped text |
| Text.StripSkipsLeadingSpace | generate_description.py:107 | leading white space does not change what `strip()` returns |
| Text.Split | generate_description.py:107 | `split(";")` gives at least one part, and no part contains the separator |
| Text.SplitNoSeparator | generate_description.py:107 | text without the separator splits into itself alone |
| Text.SplitAtFirst | generate_description.py:107 | splitting `a;b` gives `a`, then the parts of `b` |
| Text.JoinSplit | kakao_crawling.py:383 | joining the parts of a split with the separator gives back the text |
| Text.Digits | kakao_crawling.py:63 | the digits kept by `re.sub(r"[^0-9]", "", ·)` are all digits and no longer than the input |
| Text.DigitsEmptyIff | kakao_crawling.py:63-64 | nothing is kept exactly when the text has no digit |
| Text.DigitsOfDigits | kakao_crawling.py:63 | an all-digit text is kept whole |
| Text.NatToString | kakao_crawling.py:63-64 | the decimal rendering of a number is non-empty, all digits, without a leading zero |
| Text.DecimalRoundTrip | kakao_crawling.py:64 | `int()` of the decimal rendering of `n` is `n` |
| Text.NatToStringInjective | kakao_crawling.py:64 | distinct numbers render differently |
| Seqs.Take | kakao_crawling.py:436 | `links[:n]` keeps the prefix of exactly `n` items of a longer list, and all of a short list |
| Seqs.Filter | kakao_crawling.py:380-382 | filtering keeps only members that pass, and no more items than there were |
| Seqs.FilterKeepsAll | kakao_crawling.py:380-382 | a filter that every item passes changes nothing |
| Seqs.FilterIdempotent | kakao_crawling.py:380-382 | filtering twice is filtering once |
| Seqs.FilterLoop | kakao_crawling.py:379-382 | the append loop builds exactly the filtered list |
| Seqs.DedupSpec | kakao_crawling.py:312 | `dict.fromkeys` leaves distinct items, loses none, and keeps first-occurrence order |
| Seqs.DedupOfDistinct | kakao_crawling.py:312 | a list without repeats is unchanged |
| Seqs.DedupIdempotent | kakao_crawling.py:312 | de-duplicating twice is de-duplicating once |
| Seqs.DedupLoop | kakao_crawling.py:136-140 | the `uniq` append loop builds exactly the de-duplicated list |
| Browser.FirstNonEmpty | kakao_crawling.py:265-267 | an `a or b or c` chain is empty only when all are empty, and is otherwise the first non-empty value |
| Browser.Driver.constructor | kakao_crawling.py:418 | a fresh session is open, on the blank page, over the given site |
| Browser.Driver.Get | kakao_crawling.py:425 | `driver.get` shows the page at the URL when the site has it; otherwise the load raises and the browser shows its error page, on which every lookup finds nothing |
| Browser.Driver.Click | kakao_crawling.py:465 | a scripted click shows the page the element leads to |
| Browser.Driver.Quit | kakao_crawling.py:473-474 | `driver.quit()` closes the session |
| Dialog.HandleAlert | kakao_crawling.py:39-57 | the result is true exactly when a dialog shows and its `dismiss()` or `accept()` does not raise; a login dialog is dismissed, any other dialog is accepted, and nothing is done when no dialog shows or the probe fails |
| Dialog.LoginSentenceIsDismissed | kakao_crawling.py:45-47 | a dialog whose text merely contains "로그인" is dismissed |
| Selectors.FirstHitIsFirst | kakao_crawling.py:115-133 | the links come from the first selector that yields any |
| Selectors.FirstHitEmptyIff | kakao_crawling.py:115-133 | no link is found exactly when every selector yields none |
| Selectors.ExtractedFrom | kakao_crawling.py:120-123 | every extracted value comes from some element of the list |
| Selectors.FirstHitFrom | kakao_crawling.py:115-133 | every found link comes from some element of some selector's list |
| Selectors.ExtractAll | kakao_crawling.py:120-123 | the per-element loop builds exactly the extracted list |
| Selectors.CollectFirstHit | kakao_crawling.py:115-133 | the selector loop with `break` builds exactly the first hit |
| Selectors.ProductHref | kakao_crawling.py:120-122 | an anchor counts exactly when its href is non-empty and contains `/product/`; the link is that href |
| Selectors.ExtractProductLinks | kakao_crawling.py:97-150 | the extraction returns the de-duplicated first-hit links; a raising selector is skipped; the call raises only when nothing was found and the debug lookup of all anchors raises |
| Selectors.ProductLinksSpec | kakao_crawling.py:97-150 | the links are distinct, product links, and each comes from a selector's element |
| Selectors.FirstSelectorWins | kakao_crawling.py:115-133 | when the first selector yields links, they are the result, de-duplicated |
| Fields.ParsePriceSpec | kakao_crawling.py:62-64 | the price is missing exactly when the text has no digit; otherwise it is the value of its digits |
| Fields.ParsePriceRoundTrip | kakao_crawling.py:62-64 | parsing the decimal rendering of `n` gives `n` |
| Fields.ParsePriceExamples | kakao_crawling.py:62-64 | "12,900원" parses to 12900; "무료" and "" give no price |
| Fields.LeadingDigits | kakao_crawling.py:67 | `(\d+)` captures a digit prefix that is followed by no further digit |
| Fields.LeadingDigitsOf | kakao_crawling.py:67 | the capture of digits followed by a non-digit is exactly those digits |
| Fields.SearchFromLeftmost | kakao_crawling.py:67 | `re.search` takes the leftmost match |
| Fields.SearchFromNone | kakao_crawling.py:67-68 | no match position means no match |
| Fields.ProductIdFromPath | kakao_crawling.py:66-68 | the id is the digits after the first `/product/<digits>`, and is non-empty and all digits |
| Fields.ProductIdFallback | kakao_crawling.py:68 | without a match the id is the first 32 characters of the slug |
| Fields.MatchStartsWithSlashP | kakao_crawling.py:67 | a match starts with `/p` |
| Fields.ProductIdExample | kakao_crawling.py:66-68 | the id of `https://gift.kakao.com/product/123456?x=1` is "123456" |
| Fields.TitleOfSpec | kakao_crawling.py:159-168 | the name is "제목 없음" when the title lookup raises, finds nothing, or finds a hidden first match; otherwise it is the stripped text of the first match; either way it is stripped |
| Fields.PriceOfSpec | kakao_crawling.py:170-180 | the price is missing when the lookup raises, finds nothing, or shows no digit; otherwise it is the digits' value |
| Fields.CrumbsSpec | kakao_crawling.py:337 | the crumbs are exactly the elements' stripped texts in element order with the empty ones dropped; every crumb is stripped, and every non-empty stripped text is a crumb |
| Fields.ResolveCategory | kakao_crawling.py:331-340 | the breadcrumb loop with `break` computes the category |
| Fields.HintWins | kakao_crawling.py:339 | a non-empty hint is kept, unless a lookup raises |
| Fields.FirstBreadcrumbDecides | kakao_crawling.py:334-340 | without a hint, the first base with elements decides: its second crumb, or "" |
| DetailImages.ReadShadowImages | kakao_crawling.py:263-277 | the loop over the script's images builds exactly the filtered URLs |
| DetailImages.CollectDetailImages | kakao_crawling.py:196-309 | shadow images first; when there are none, the first fallback selector with images |
| DetailImages.ShadowUrlsIff | kakao_crawling.py:263-277 | a URL is kept exactly when an image's first non-empty source is it, has `http(s)://`, and has no placeholder term |
| DetailImages.ExtractedTwiceIff | kakao_crawling.py:236-277 | filtering the script's images and then extracting their URLs keeps a value exactly when some image passes the filter and yields that value |
| DetailImages.ShadowFilterIdempotent | kakao_crawling.py:271-277 | every kept URL passes the filter again |
| DetailImages.ScriptChecksSrcFirst | kakao_crawling.py:239-258 | an image whose `src` is set but not http is dropped in the page script, whatever its `data-*` sources |
| DetailImages.FallbackSpec | kakao_crawling.py:289-309 | fallback URLs pass the fallback filter and come from the first selector that yields any |
| DetailImages.ShadowFilterStricter | kakao_crawling.py:273-277 | a URL the shadow filter keeps, the fallback filter keeps too |
| ImagePlan.BuildPlan | kakao_crawling.py:311-327 | the plan is `main` first, then `detail1..n` over the de-duplicated images other than the main one |
| ImagePlan.WithoutSpec | kakao_crawling.py:325 | dropping the main URL keeps every other URL, and keeps them distinct |
| ImagePlan.WithoutFirst | kakao_crawling.py:315-325 | when the first detail image is the main one, dropping it leaves the rest |
| ImagePlan.WithoutAbsent | kakao_crawling.py:325 | dropping an absent URL changes nothing |
| ImagePlan.NumberedSpec | kakao_crawling.py:323-327 | detail entries are numbered consecutively and carry the URLs in order |
| ImagePlan.PlanShape | kakao_crawling.py:314-327 | a non-empty main URL is entry 0 as `main`; after it come the other images as `detail1`, `detail2`, ... in order |
| ImagePlan.PlanUrls | kakao_crawling.py:322-327 | over distinct detail images, an entry is a detail entry exactly when its URL is not the main one, and no two entries share a URL or a role |
| ImagePlan.PlanSpec | kakao_crawling.py:314-327 | a non-empty main URL is entry 0 as `main`; the others are `detail<k>`; roles never repeat |
| ImagePlan.MainFallback | kakao_crawling.py:314-316 | without `og:image` the first detail image is the main one; otherwise `og:image` is, and no detail repeats it |
| ImagePlan.SaveImages | kakao_crawling.py:343-371 | the download loop records exactly the saved paths and the main path |
| ImagePlan.BuildFeatures | kakao_crawling.py:378-383 | `features` is the `/detail` paths joined by "; " |
| ImagePlan.RelPathInjective | kakao_crawling.py:356-359 | two images of one product get the same path only when their roles are equal |
| ImagePlan.FileNameInjective | kakao_crawling.py:357 | file names of different roles differ |
| ImagePlan.SavedPathsDistinct | kakao_crawling.py:343-371 | with distinct roles, no two saved images share a path |
| ImagePlan.DigitIdIsGood | kakao_crawling.py:66-68 | an all-digit product id cannot fake a `/detail` segment |
| ImagePlan.MarksDetailIff | kakao_crawling.py:381 | a saved path contains `/detail` exactly when its role is a detail role |
| ImagePlan.MainPathUnmarked | kakao_crawling.py:381 | the main image's path of a well-formed product id never contains `/detail` |
| ImagePlan.FeaturesAreDetailPaths | kakao_crawling.py:378-383 | the `/detail` filter keeps exactly the saved detail images |
| ImagePlan.MainPathOfPlan | kakao_crawling.py:365-366 | the main path is that of entry 0 when it is `main` and downloaded, else "" |
| ImagePlan.MainPathSpec | kakao_crawling.py:314-376 | `image_path` is the main image's path when there is a main image and it downloaded, else "" |
| ProductDetail.ParseProductDetail | kakao_crawling.py:152-396 | the parser loads the URL and returns the row of that page; a failed load or a raising lookup is an exception |
| ProductDetail.DetailRowSpec | kakao_crawling.py:152-396 | the call raises exactly when the `og:image` or a breadcrumb lookup raises; the row carries URL, id, title, price and theme |
| ProductDetail.HintIsCategory | kakao_crawling.py:331 | a non-empty category hint is the row's category |
| ProductDetail.ImagePathSpec | kakao_crawling.py:186-190 | `image_path` is the main image's path when it downloaded, else "" |
| ProductDetail.FeaturesSpec | kakao_crawling.py:378-383 | `features` joins the saved detail paths in order, and no two saved images share a path |
| Crawl.RowsAndFailuresPartition | kakao_crawling.py:443-454 | every visit adds exactly one entry: a saved visit's row to `all_rows`, a failed visit's URL to `failures`; the two lists hold nothing else |
| Crawl.RowsAndFailuresConcat | kakao_crawling.py:443-454 | both lists keep visit order: later visits append after earlier ones |
| Crawl.VisitProduct | kakao_crawling.py:444-454 | one product visit computes its row or failure and the page then shown |
| Crawl.VisitLinks | kakao_crawling.py:443-454 | the product loop visits each link in turn |
| Crawl.VisitAllSpec | kakao_crawling.py:443-454 | one visit per link, in link order |
| Crawl.VisitAllEndsOnLastProduct | kakao_crawling.py:443-465 | after the loop the browser shows the last product's page, or the error page when that load failed; the next control is looked up there |
| Crawl.FindNextControl | kakao_crawling.py:456-461 | the selector loop finds the first displayed next control, or raises |
| Crawl.NextControlSpec | kakao_crawling.py:456-461 | no control exactly when no selector's first element is displayed; a found control is one |
| Crawl.WalkPages | kakao_crawling.py:434-472 | the page loop computes the list-page crawl from the shown page |
| Crawl.RunCrawl | kakao_crawling.py:414-474 | the crawl over the start URLs computes its log, and the session ends closed |
| Crawl.ListPagesBound | kakao_crawling.py:434-454 | one start URL yields at most pages times products visits |
| Crawl.CrawlBound | kakao_crawling.py:423-454 | the crawl yields at most starts times pages times products visits |
| Crawl.CrawlOutcomeBound | kakao_crawling.py:19-23 | with the configured constants the crawl visits at most 3 products |
| Crawl.ListPagesStops | kakao_crawling.py:436-440 | a page without links ends the walk |
| CategoryCrawl.ChooseTabLoop | kakao_crawling_category.py:434-444 | the tab loop picks the chosen tab |
| CategoryCrawl.ChooseTabSpec | kakao_crawling_category.py:437-446 | the first tab whose text has "카테고리", else the second of at least two tabs, else none |
| CategoryCrawl.FirstMarkedTabSpec | kakao_crawling_category.py:437-440 | no marked tab exactly when no tab text has the marker; otherwise the first marked one |
| CategoryCrawl.FindCategoryTabs | kakao_crawling_category.py:464-470 | the selector loop finds the category tabs, or raises |
| CategoryCrawl.CategoryTabsFirstWins | kakao_crawling_category.py:465-470 | the first selector with elements gives the category tabs |
| CategoryCrawl.InfoOf | kakao_crawling_category.py:475-480 | a category's name is its aria-label, or "알 수 없음", never empty; its href is the attribute |
| CategoryCrawl.CollectInfos | kakao_crawling_category.py:473-480 | one info per tab, in tab order |
| CategoryCrawl.NormalizeHrefSpec | kakao_crawling_category.py:491-493 | the URL starts with "http"; an absolute href is kept; a relative one gets the origin; normalising twice changes nothing |
| CategoryCrawl.FindClickTarget | kakao_crawling_category.py:498-503 | the click-mode selector loop finds the tab to click |
| CategoryCrawl.ClickTargetSpec | kakao_crawling_category.py:498-510 | no target exactly when no selector yields more than `idx` elements; otherwise the `idx`-th of the first that does |
| CategoryCrawl.VisitCategory | kakao_crawling_category.py:485-535 | one category inside its `try` adds its visits to the crawl and leaves the browser on the page the rest of the crawl starts from |
| CategoryCrawl.CrawlCategories | kakao_crawling_category.py:484-535 | the `enumerate(category_info)` loop computes the visits of every category in order, starting on the category-list page |
| CategoryCrawl.RunCategoryCrawl | kakao_crawling_category.py:412-538 | the category crawl computes its log, and the session ends closed |
| CategoryCrawl.VisitAllCategory | kakao_crawling_category.py:520-531 | every saved row of a category visit carries the category hint |
| CategoryCrawl.CategoryStepSpec | kakao_crawling_category.py:513-531 | a category yields at most 100 visits, each saved row under the category's name |
| CategoryCrawl.AllCategoriesSpec | kakao_crawling_category.py:484-535 | the remaining categories yield at most their count times 100 visits, each row under one of their names |
| CategoryCrawl.CategoryCrawlSpec | kakao_crawling_category.py:412-538 | the crawl yields at most tabs times 100 visits, each row under a tab's category name |
| CategoryCrawl.FailedCategoryIsSkipped | kakao_crawling_category.py:490-510 | a category that cannot be reached adds nothing; the next category starts from the error page after a failed `driver.get`, or from the unchanged page when there was no tab to click |
| CategoryCrawl.FailedLoadSkipsClickedTab | kakao_crawling_category.py:490-535 | after a category whose `driver.get` raised, a following click-mode category finds no tab on the error page and is skipped too |
| CategoryCrawl.ClickModeReadsLastProductPage | kakao_crawling_category.py:496-531 | a click-mode category after a visited one looks up its tab on the last product page |
| Describe.Tiles | generate_description.py:51 | `(n + 511) // 512` is the fewest 512-pixel tiles covering `n` |
| Describe.EstimateImageTokens | generate_description.py:41-55 | at least 85 tokens; 1000 for an unreadable image; 85 within one tile; otherwise 170 per covering 512-pixel tile plus 85 |
| Describe.EstimateSpec | generate_description.py:48-52 | 85 tokens exactly when both sides fit 512; otherwise at least 85 + 2 * 170 |
| Describe.EstimateMonotone | generate_description.py:48-52 | a larger image never costs fewer tokens |
| Describe.Pieces | generate_description.py:107 | the kept pieces are non-empty and stripped, and free of the separator |
| Describe.ParseFeatures | generate_description.py:104-107 | a missing or empty cell gives no paths; every path is non-empty, stripped and free of ';' |
| Describe.JoinRoundTrip | generate_description.py:104-107 | parsing paths joined by "; " gives them back |
| Describe.CleanRelPath | kakao_crawling.py:357-359 | a saved path is clean when the id and extension are |
| Describe.RowImagesRoundTrip | kakao_crawling.py:383 | the describer reads back from `features` exactly the saved detail paths |
| Describe.SuffixShape | generate_description.py:71 | `Path.suffix` is "" or a dot followed by non-separators |
| Describe.SuffixOfDotted | generate_description.py:71 | `Path.suffix` of a name followed by a dotted extension is that extension, or "" when it is a lone dot |
| Describe.RelPathSuffix | generate_description.py:66-71 | the suffix of a saved image is its extension, or ".jpg" when the URL had none |
| Describe.PrepareImageMessages | generate_description.py:57-101 | the image loop computes the budgeted messages |
| Describe.SpendBudget | generate_description.py:65-97 | the loop with `continue` and `break` computes the budgeted messages |
| Describe.BudgetSpec | generate_description.py:60-97 | the spent tokens never exceed the allowance once any are spent; each message comes from an existing, encodable .jpg/.jpeg/.png file; the messages are the usable files in input order up to the first one that overflows the allowance; without a stop, every usable file is sent |
| Describe.MimeSpec | generate_description.py:89 | .jpg and .jpeg are sent as image/jpeg, .png as image/png |
| Describe.BudgetAppend | generate_description.py:79-81 | once the budget stops, later files are ignored; otherwise a longer list continues where the shorter left off |
| Describe.ReadFeatures | generate_description.py:104-107 | the comprehension computes the parsed paths |
| Describe.StripPieces | generate_description.py:107 | the comprehension keeps the stripped non-empty pieces, in order |
| Describe.PrepareRequest | generate_description.py:103-111 | the request's images are the budgeted images of the parsed paths |
| Describe.DescribeRow | generate_description.py:103-130 | a row's description is the model's answer for that product and its budgeted images |
| Describe.CheckRange | generate_description.py:153-159 | START must lie in the rows, and END between START and the row count; a missing END means the row count |
| Describe.ConfiguredRange | generate_description.py:17-21 | with START 0 and END 1, a non-empty table processes row 0 only |
| Describe.InitialColumn | generate_description.py:163-166 | the output column has one entry per row, "" when the column was missing |
| Describe.DescribeRange | generate_description.py:144-188 | a bad range is an error; a row in range with a missing `name` ends `main` before anything is written, and the first such row is reported; otherwise rows in range get the model's answer for their images, and the rest keep their value |
| Describe.FillColumn | generate_description.py:169-186 | the row loop stops at the first row without a name exactly when one exists in `[lo, hi)`; otherwise each row in `[lo, hi)` gets its description and every other entry is unchanged |

## Left out

- I/O is not modelled: directory creation, image downloads, CSV reading and writing, `failures.txt`, and every `print`. A download's success is the parameter `Env.fetchOk`, and the same URL always gives the same answer.
- A load that times out, leaving a partly loaded page shown, is not modelled: every raising load shows the error page, whose lookups find nothing.
- Sleeps, `WebDriverWait` and scrolling are not modelled. The shadow-root scroll cycles only delay lookups. `scroll_to_load_more` is defined but never called.
- `build_driver` and its stealth options are not modelled; the model starts from a blank, open session.
- `slugify` and `os.path.splitext(urlparse(url).path)` are not modelled; they are the parameters `Env.slugOf` and `Env.extOf`. PIL, `os.path.exists`, `base64` and `tiktoken` are parameters too, and so is the language-model call.
- A lookup either raises as a whole or returns its elements. A stale element that raises after part of a loop has run is not modelled separately.
- `handle_alert` never changes what a page answers. Its result is ignored by every caller.
- The `crawled_at` timestamp is not modelled, since it comes from the clock.
- Text.Lower: lowers ASCII letters only; Python's `lower()` also lowers letters of other scripts.
- Fields.LeadingDigits: takes ASCII digits only; the pattern `\d` in `guess_product_id_from_url` also matches other Unicode decimal digits.
- Describe.SpendBudget: does not model the 50 MB request-size check (generate_description.py:75-85). It is floating-point arithmetic on file sizes. The model may therefore send images the source would stop at.
- Describe.BudgetSpec: states the token bound as "none spent, or within the allowance". A prompt longer than the allowance makes the allowance negative, and then nothing is spent.
- Describe.FullPath: `os.path.join` and `pathlib` are modelled as plain concatenation. Trailing-slash and `..` normalisation are not modelled.
- Describe.ParseFeatures: a `features` cell that pandas reads as a number is not modelled; cells are text or missing.
- ProductDetail.FeaturesSpec: assumes the product id has no `/` and does not start with "detail", and that `Env.extOf` gives what `os.path.splitext` gives (empty, or a dot and no further dot or `/`). An id read from `/product/<digits>` always qualifies (`ImagePlan.DigitIdIsGood`). For the fallback id these are assumptions about `Env.slugOf`: `slugify` yields lower-case letters, digits and `-`, and for these URLs starts with "http".
- Describe.RowImagesRoundTrip: makes the same assumptions as `ProductDetail.FeaturesSpec`, and in addition assumes that the product id has no `;` and that no `Env.extOf` answer contains `;` or ends in whitespace. These hold for `slugify` output and for extensions taken from a URL path.
- `img.src` is read as the attribute value; the browser's URL resolution is not modelled.
- The debug dump of anchors in `extract_product_links_from_list` is printed output only. The lookups it makes are modelled, including their exceptions.
- The prompt text and `load_prompt` are not modelled; only the prompt's token count enters the budget.
- product_visualizer_web.py is not part of this model. It is a viewer over the CSV.
