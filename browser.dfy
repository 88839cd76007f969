/** The browser as the crawler sees it through Selenium, abstracted as values.
    A page answers CSS-selector lookups with element lists (or an exception),
    may show a native dialog, and may carry the shadow-rooted product
    description component. A site maps locations to pages; the driver is the
    one piece of mutable state: the page it currently shows, and whether the
    session is still open. */
module Browser {
  import opened Seqs

  /** One DOM element: its attributes (as `get_attribute` returns them), its
      text, whether it is displayed, and the location a scripted click on it
      leads to (an abstraction of its click handler). */
  datatype Element = Element(attrs: map<string, string>, text: string, displayed: bool, opens: string)

  /** `el.get_attribute(name)`; a missing attribute reads as "", which every
      caller treats exactly like `None` (both are falsy). */
  function Attr(e: Element, name: string): string {
    if name in e.attrs then e.attrs[name] else ""
  }

  /** Python's `a or b or c` over strings: the first non-empty one, else "". */
  function FirstNonEmpty(values: seq<string>): (r: string)
    ensures r == "" <==> forall i :: 0 <= i < |values| ==> values[i] == ""
    ensures r != "" ==> exists i :: 0 <= i < |values| && values[i] == r && forall j :: 0 <= j < i ==> values[j] == ""
  {
    if |values| == 0 then ""
    else if values[0] != "" then values[0]
    else
      var r := FirstNonEmpty(values[1..]);
      assert r != "" ==> exists i :: 0 <= i < |values[1..]| && values[1..][i] == r && forall j :: 0 <= j < i ==> values[1..][j] == "";
      r
  }

  /** The outcome of `driver.find_elements(By.CSS_SELECTOR, selector)`: the
      matching elements in document order, or an exception. */
  datatype Lookup = Found(elements: seq<Element>) | Raises

  /** The product-description component `app-view-encapsuled-product-desc`:
      absent (finding it raises), present with a null `shadowRoot`, or
      present with a shadow root whose `div._editor_contents` container may be
      missing (`None`) or holds the listed `img` elements. */
  datatype Shadow = NoHost | NullRoot | Root(editor: Option<seq<Element>>)

  /** A native dialog: none, one showing the given text (`responds` is false
      when its `dismiss()` and `accept()` raise), or one whose probe fails
      with an error other than "no alert present". */
  datatype Alert = NoAlert | Showing(text: string, responds: bool) | Unreadable

  datatype Page = Page(lookups: map<string, Lookup>, alert: Alert, shadow: Shadow)

  /** The page of a fresh session, before any navigation. */
  const BlankPage := Page(map[], NoAlert, NoHost)

  /** The browser's error page, shown after a load that raised: it lists no
      elements, so every lookup on it finds nothing. */
  const ErrorPage := Page(map[], NoAlert, NoHost)

  /** A selector the page does not list matches nothing. */
  function Find(p: Page, selector: string): Lookup {
    if selector in p.lookups then p.lookups[selector] else Found([])
  }

  /** `find_elements` over an ordered selector list. */
  function FindAll(p: Page, selectors: seq<string>): (r: seq<Lookup>)
    ensures |r| == |selectors|
    ensures forall k :: 0 <= k < |r| ==> r[k] == Find(p, selectors[k])
  {
    seq(|selectors|, k requires 0 <= k < |selectors| => Find(p, selectors[k]))
  }

  /** The locations a session can reach. A location the site does not list
      fails to load. */
  datatype Site = Site(pages: map<string, Page>)

  /** The browser session: the site it browses, the page it shows, and
      whether it is still open (`driver.quit()` closes it). */
  class Driver {
    const site: Site
    var current: Page
    var open: bool

    constructor (site: Site)
      ensures this.site == site && current == BlankPage && open
    {
      this.site := site;
      current := BlankPage;
      open := true;
    }

    /** `driver.get(url)` followed by its readiness wait: on success the page
        at `url` is shown; on failure (`ok` false) the call raised and the
        browser shows its error page. */
    method Get(url: string) returns (ok: bool)
      modifies this`current
      ensures ok <==> url in site.pages
      ensures current == if ok then site.pages[url] else ErrorPage
    {
      ok := url in site.pages;
      current := if ok then site.pages[url] else ErrorPage;
    }

    /** `driver.execute_script("arguments[0].click();", e)`: shows the page
        the element leads to; a click that leads nowhere the site lists leaves
        the page as it is. */
    method Click(e: Element)
      modifies this`current
      ensures current == if e.opens in site.pages then site.pages[e.opens] else old(current)
    {
      if e.opens in site.pages {
        current := site.pages[e.opens];
      }
    }

    /** `driver.quit()` */
    method Quit()
      modifies this`open
      ensures !open
    {
      open := false;
    }
  }

  /** The page a click on `e` shows, as a value. */
  function AfterClick(site: Site, cur: Page, e: Element): Page {
    if e.opens in site.pages then site.pages[e.opens] else cur
  }
}
