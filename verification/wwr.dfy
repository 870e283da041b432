/** The We Work Remotely scraper (extractors/wwr.py): HTTP requests for a
    keyword search or a listing page, job sections and their list items,
    one five-column row per extractable item, and the page count taken
    from the pagination bar.

    A request is an oracle returning a `Response`: a status code with the
    parsed body, or `RequestFailed` where `requests.get` raises. */
module Wwr {
  import opened Options
  import opened Text
  import opened Html
  import opened JobRecords

  datatype Response = Response(status: int, body: Node) | RequestFailed

  const SearchBase: string := "https://weworkremotely.com/remote-jobs/search?&term="
  const SiteRoot: string := "https://weworkremotely.com"

  function SearchUrl(keyword: string): (url: string)
    ensures StartsWith(url, SiteRoot)
  {
    SearchBase + keyword
  }

  /* ---------------------------------------------------------------- */
  /* _extract_job_data                                                 */
  /* ---------------------------------------------------------------- */

  const TitleSelector: Selector := TagClass("h4", "new-listing__header__title")
  const CompanySelector: Selector := TagClass("p", "new-listing__company-name")
  const RegionSelector: Selector := TagClass("p", "new-listing__company-headquarters")
  const CategoriesSelector: Selector := TagClass("div", "new-listing__categories")
  const CategorySelector: Selector := TagClass("p", "new-listing__categories__category")
  const FlagSelector: Selector := TagClass("div", "tooltip--flag-logo")

  /** A category's stripped text, dropped when empty. */
  function CategoryText(p: Node): (r: Option<string>)
    ensures r.Some? ==> r.value != "" && IsStripped(r.value)
  {
    var t := Strip(TextOf(p));
    if t != "" then Some(t) else None
  }

  /** The categories of the first categories block, empty when there is none. */
  function Categories(job: Node): (cats: seq<string>)
    ensures forall c :: c in cats ==> c != "" && IsStripped(c)
    ensures Find(job, CategoriesSelector).None? ==> cats == []
  {
    match Find(job, CategoriesSelector)
    case None => []
    case Some(block) => FilterMap(CategoryText, FindAll(block, CategorySelector))
  }

  /** The fallback link: the href of the flag logo's next sibling. A text
      sibling raises (a string cannot be indexed by 'href'), a missing
      href raises, and an empty one is no link: each gives none. */
  function SiblingHref(next: Option<Node>): (r: Option<string>)
    ensures r.Some? ==> r.value != ""
    ensures r.Some? <==> next.Some? && HasAttr(next.value, "href")
  {
    match next
    case None => None
    case Some(n) => if HasAttr(n, "href") then Some(Attr(n, "href")) else None
  }

  /** The raw link: the first anchor's href; if the anchor has no href
      attribute at all the lookup raises and there is no link; if it is
      empty, or there is no anchor, the flag logo's next sibling is used. */
  function RawLink(job: Node, flag: Visit): (r: Option<string>)
    ensures r.Some? ==> r.value != ""
    ensures Find(job, Tag("a")).Some? && "href" !in Find(job, Tag("a")).value.attrs ==> r.None?
    ensures Find(job, Tag("a")).Some? && HasAttr(Find(job, Tag("a")).value, "href") ==>
      r == Some(Attr(Find(job, Tag("a")).value, "href"))
    ensures Find(job, Tag("a")).None? ==> r == SiblingHref(flag.next)
    ensures (Find(job, Tag("a")).Some? && "href" in Find(job, Tag("a")).value.attrs
             && !HasAttr(Find(job, Tag("a")).value, "href")) ==> r == SiblingHref(flag.next)
  {
    match Find(job, Tag("a"))
    case Some(a) =>
      if "href" !in a.attrs then None
      else if a.attrs["href"] != "" then Some(a.attrs["href"])
      else SiblingHref(flag.next)
    case None => SiblingHref(flag.next)
  }

  /** A site-relative link made absolute. */
  function Absolute(link: string): (url: string)
    ensures StartsWith(url, "http")
    ensures StartsWith(link, "http") ==> url == link
    ensures !StartsWith(link, "http") ==> url == SiteRoot + link
  {
    if StartsWith(link, "http") then link else SiteRoot + link
  }

  /** One list item's record: none when the title, company, region or
      flag logo is missing, or when there is no link. */
  function ExtractJobData(job: Node): (r: Option<WWRJob>)
    ensures r.Some? ==> && Find(job, TitleSelector).Some? && Find(job, CompanySelector).Some?
                        && Find(job, RegionSelector).Some? && Find(job, FlagSelector).Some?
    ensures r.Some? ==> StartsWith(r.value.link, "http") && r.value.salary == NotSpecified
    ensures r.Some? ==> r.value.section == ""
    ensures r.Some? ==> IsStripped(r.value.position) && IsStripped(r.value.company) && IsStripped(r.value.location)
    ensures r.Some? ==> forall c :: c in r.value.categories ==> c != "" && IsStripped(c)
  {
    FindVisitAgrees(job, FlagSelector);
    var title := Find(job, TitleSelector);
    var company := Find(job, CompanySelector);
    var region := Find(job, RegionSelector);
    var flag := FindVisit(job, FlagSelector);
    if title.None? || company.None? || region.None? || flag.None? then None
    else
      match RawLink(job, flag.value)
      case None => None
      case Some(link) =>
        Some(NewWWRJob(Strip(TextOf(title.value)), Strip(TextOf(company.value)), Strip(TextOf(region.value)),
                       NotSpecified, Absolute(link), Some(Categories(job))))
  }

  /* ---------------------------------------------------------------- */
  /* _get_jobs_from_soup                                               */
  /* ---------------------------------------------------------------- */

  /** "View all" links and featured ads are not jobs. */
  predicate Skipped(item: Node) {
    HasClass(item, "view-all") || HasClass(item, "feature--ad")
  }

  /** The text of the section heading's first anchor, or "". */
  function SectionName(section: Node): (name: string)
    ensures IsStripped(name)
    ensures Find(section, Tag("h2")).None? ==> name == ""
    ensures Find(section, Tag("h2")).Some? && Find(Find(section, Tag("h2")).value, Tag("a")).None? ==> name == ""
    ensures Find(section, Tag("h2")).Some? && Find(Find(section, Tag("h2")).value, Tag("a")).Some? ==>
      name == Strip(TextOf(Find(Find(section, Tag("h2")).value, Tag("a")).value))
  {
    match Find(section, Tag("h2"))
    case None => ""
    case Some(h) =>
      match Find(h, Tag("a"))
      case None => ""
      case Some(a) => Strip(TextOf(a))
  }

  /** A five-column row has the shape every WWR row has. */
  predicate IsWWRRow(row: seq<string>) {
    |row| == |WWRHeaders| && StartsWith(row[4], "http") && row[3] == NotSpecified
  }

  function ItemRow(name: string): Node -> Option<seq<string>> {
    item => if Skipped(item) then None
            else match ExtractJobData(item)
                 case Some(j) => Some(WWRToRow(SetSection(j, name)))
                 case None => None
  }

  /** The rows of one section's list items, in order. */
  function SectionRows(section: Node): (rows: seq<seq<string>>)
    ensures forall row :: row in rows ==> IsWWRRow(row)
  {
    var rows := FilterMap(ItemRow(SectionName(section)), FindAll(section, Tag("li")));
    forall row | row in rows
      ensures IsWWRRow(row)
    {
      var item :| item in FindAll(section, Tag("li")) && ItemRow(SectionName(section))(item) == Some(row);
    }
    rows
  }

  /** The rows of several sections, section after section. */
  function RowsOfSections(sections: seq<Node>): (rows: seq<seq<string>>)
    ensures forall row :: row in rows ==> IsWWRRow(row)
    ensures forall row :: row in rows <==> exists s :: s in sections && row in SectionRows(s)
  {
    if sections == [] then []
    else
      var rest := RowsOfSections(sections[1..]);
      assert forall s :: s in sections <==> s == sections[0] || s in sections[1..];
      SectionRows(sections[0]) + rest
  }

  const SectionSelector: Selector := TagClass("section", "jobs")

  /** `_get_jobs_from_soup`: the rows of every `section.jobs`, section after
      section; a row is in the result exactly when some section yields it. */
  function JobsFromSoup(doc: Node): (rows: seq<seq<string>>)
    ensures forall row :: row in rows ==> IsWWRRow(row)
    ensures FindAll(doc, SectionSelector) == [] ==> rows == []
    ensures forall row :: row in rows <==> exists s :: s in FindAll(doc, SectionSelector) && row in SectionRows(s)
  {
    RowsOfSections(FindAll(doc, SectionSelector))
  }

  /** A row of the page is the row of a list item, not skipped and
      extractable, in one of its job sections; and every such item yields
      its row. */
  lemma JobsFromSoupItems(doc: Node, row: seq<string>)
    ensures row in JobsFromSoup(doc) <==>
      exists s, item :: && s in FindAll(doc, SectionSelector) && item in FindAll(s, Tag("li"))
                        && !Skipped(item) && ExtractJobData(item).Some?
                        && row == WWRToRow(ExtractJobData(item).value)
  {
    if row in JobsFromSoup(doc) {
      var s :| s in FindAll(doc, SectionSelector) && row in SectionRows(s);
      SectionRowOrigin(s, row);
    }
    forall s, item | && s in FindAll(doc, SectionSelector) && item in FindAll(s, Tag("li"))
                     && !Skipped(item) && ExtractJobData(item).Some?
                     && row == WWRToRow(ExtractJobData(item).value)
      ensures row in JobsFromSoup(doc)
    {
      var j := ExtractJobData(item).value;
      ExtractableItemKept(s, item);
      WWRRowIgnoresSectionAndCategories(j, SectionName(s), j.categories);
    }
  }

  /* ---------------------------------------------------------------- */
  /* Requests                                                          */
  /* ---------------------------------------------------------------- */

  /** `scrape_page` and `scrape_keyword` on the response: no rows unless
      the request succeeded with status 200. */
  function ScrapeResponse(resp: Response): (rows: seq<seq<string>>)
    ensures resp.RequestFailed? || resp.status != 200 ==> rows == []
    ensures forall row :: row in rows ==> IsWWRRow(row)
  {
    match resp
    case RequestFailed => []
    case Response(status, body) => if status != 200 then [] else JobsFromSoup(body)
  }

  /** `scrape_keyword`: the search page for the keyword. */
  function ScrapeKeyword(keyword: string, request: string -> Response): (rows: seq<seq<string>>)
    ensures forall row :: row in rows ==> IsWWRRow(row)
    ensures request(SearchUrl(keyword)).RequestFailed? || request(SearchUrl(keyword)).status != 200 ==> rows == []
    ensures request(SearchUrl(keyword)).Response? && request(SearchUrl(keyword)).status == 200 ==>
      rows == JobsFromSoup(request(SearchUrl(keyword)).body)
  {
    ScrapeResponse(request(SearchUrl(keyword)))
  }

  function Max1(k: nat): nat {
    if k >= 1 then k else 1
  }

  /** `get_pages`: the number of `span.page` elements of the first
      pagination bar, and 1 whenever that cannot be determined. */
  function GetPages(resp: Response): (n: nat)
    ensures n >= 1
    ensures n > 1 ==> && resp.Response? && resp.status == 200
                      && Find(resp.body, TagClass("div", "pagination")).Some?
                      && n == |FindAll(Find(resp.body, TagClass("div", "pagination")).value, TagClass("span", "page"))|
    ensures resp.Response? && resp.status == 200 && Find(resp.body, TagClass("div", "pagination")).Some? ==>
      n == Max1(|FindAll(Find(resp.body, TagClass("div", "pagination")).value, TagClass("span", "page"))|)
  {
    match resp
    case RequestFailed => 1
    case Response(status, body) =>
      if status != 200 then 1
      else
        match Find(body, TagClass("div", "pagination"))
        case None => 1
        case Some(bar) =>
          var pages := FindAll(bar, TagClass("span", "page"));
          if pages != [] then |pages| else 1
  }

  /** The rows of each listing page: `requestPage(k)` is the response for
      page `k` of the listing, scraped as `scrape_page` does. */
  function Scraped(requestPage: nat -> Response): (page: nat -> seq<seq<string>>)
    ensures forall k: nat :: page(k) == ScrapeResponse(requestPage(k))
  {
    (k: nat) => ScrapeResponse(requestPage(k))
  }

  /** The rows of pages `i` to `n`, page after page. */
  function PagesFrom(page: nat -> seq<seq<string>>, i: nat, n: nat): (rows: seq<seq<string>>)
    ensures i > n ==> rows == []
    ensures i <= n ==> |rows| >= |page(i)| && rows[..|page(i)|] == page(i)
    decreases n + 1 - i
  {
    if i > n then [] else page(i) + PagesFrom(page, i + 1, n)
  }

  /** Every row of pages `i..n` is a row of one of those pages. */
  lemma {:induction false} PagesFromRows(page: nat -> seq<seq<string>>, i: nat, n: nat, row: seq<string>)
    requires row in PagesFrom(page, i, n)
    ensures exists k: nat :: i <= k <= n && row in page(k)
    decreases n + 1 - i
  {
    if row !in page(i) {
      PagesFromRows(page, i + 1, n, row);
    }
  }

  /** The page loop of `pages_save_to_csv`: the page count from page 1's
      pagination bar, then the rows of pages 1 to that count. Page 1 is
      requested twice: `countResponse` is what `get_pages` received, and
      `requestPage(1)` what the loop's own request received; the two may
      differ (one may fail while the other succeeds). */
  function AllPages(countResponse: Response, requestPage: nat -> Response): (rows: seq<seq<string>>)
    ensures forall row :: row in rows ==> IsWWRRow(row)
    ensures |rows| >= |ScrapeResponse(requestPage(1))| && rows[..|ScrapeResponse(requestPage(1))|] == ScrapeResponse(requestPage(1))
    ensures forall row :: row in rows <==>
      exists k: nat :: 1 <= k <= GetPages(countResponse) && row in ScrapeResponse(requestPage(k))
  {
    var page := Scraped(requestPage);
    var n := GetPages(countResponse);
    var rows := PagesFrom(page, 1, n);
    assert page(1) == ScrapeResponse(requestPage(1));
    forall row | row in rows
      ensures IsWWRRow(row)
      ensures exists k: nat :: 1 <= k <= n && row in ScrapeResponse(requestPage(k))
    {
      PagesFromRows(page, 1, n, row);
    }
    forall row, k: nat | 1 <= k <= n && row in ScrapeResponse(requestPage(k))
      ensures row in rows
    {
      PagesFromKeeps(page, 1, n, k, row);
    }
    rows
  }

  /** Every row of a page in `i..n` is among the rows of pages `i..n`. */
  lemma {:induction false} PagesFromKeeps(page: nat -> seq<seq<string>>, i: nat, n: nat, k: nat, row: seq<string>)
    requires i <= k <= n && row in page(k)
    ensures row in PagesFrom(page, i, n)
    decreases n + 1 - i
  {
    var rest := PagesFrom(page, i + 1, n);
    assert PagesFrom(page, i, n) == page(i) + rest;
    if i < k {
      PagesFromKeeps(page, i + 1, n, k, row);
      assert row in rest;
    }
  }

  /** The page rows split at any page: pages `i..m` then pages `m+1..n`. */
  lemma {:induction false} PagesFromSplit(page: nat -> seq<seq<string>>, i: nat, m: nat, n: nat)
    requires i <= m + 1 && m <= n
    ensures PagesFrom(page, i, n) == PagesFrom(page, i, m) + PagesFrom(page, m + 1, n)
    decreases m + 1 - i
  {
    if i <= m {
      PagesFromSplit(page, i + 1, m, n);
    }
  }

  /** The rows of pages `1..n` are those of pages `1..n-1` followed by
      those of page `n`: pages appear in page order. */
  lemma PagesInOrder(page: nat -> seq<seq<string>>, n: nat)
    requires n >= 1
    ensures PagesFrom(page, 1, n) == PagesFrom(page, 1, n - 1) + page(n)
  {
    PagesFromSplit(page, 1, n - 1, n);
    assert PagesFrom(page, n + 1, n) == [];
    assert page(n) + [] == page(n);
  }

  /** When the page count cannot be read, only the first page is scraped,
      whatever the loop's own request for it returns. */
  lemma SinglePageFallback(countResponse: Response, requestPage: nat -> Response)
    requires GetPages(countResponse) == 1
    ensures AllPages(countResponse, requestPage) == ScrapeResponse(requestPage(1))
  {
    assert PagesFrom(Scraped(requestPage), 2, 1) == [];
    assert ScrapeResponse(requestPage(1)) + [] == ScrapeResponse(requestPage(1));
  }

  /* ---------------------------------------------------------------- */
  /* Properties                                                        */
  /* ---------------------------------------------------------------- */

  /** The link rules of `_extract_job_data`: an absolute href of the first
      anchor is kept as it is, a relative one is prefixed with the site root. */
  lemma ExtractedLink(job: Node)
    requires ExtractJobData(job).Some?
    requires Find(job, Tag("a")).Some? && HasAttr(Find(job, Tag("a")).value, "href")
    ensures var href := Attr(Find(job, Tag("a")).value, "href");
      ExtractJobData(job).value.link == if StartsWith(href, "http") then href else SiteRoot + href
  {
  }

  /** Extraction needs the title, company, region and flag logo, and a link:
      an item whose first anchor has no href attribute is dropped even when
      the flag logo's sibling carries one. */
  lemma AnchorWithoutHrefDropped(job: Node)
    requires Find(job, Tag("a")).Some? && "href" !in Find(job, Tag("a")).value.attrs
    ensures ExtractJobData(job).None?
  {
    FindVisitAgrees(job, FlagSelector);
  }

  /** With all four required elements present and an anchor carrying a
      non-empty href, the item is extracted. */
  lemma ExtractionSucceeds(job: Node)
    requires Find(job, TitleSelector).Some? && Find(job, CompanySelector).Some?
    requires Find(job, RegionSelector).Some? && Find(job, FlagSelector).Some?
    requires Find(job, Tag("a")).Some? && HasAttr(Find(job, Tag("a")).value, "href")
    ensures ExtractJobData(job).Some?
  {
    FindVisitAgrees(job, FlagSelector);
    var flag := FindVisit(job, FlagSelector);
    var a := Find(job, Tag("a")).value;
    assert RawLink(job, flag.value) == Some(Attr(a, "href"));
  }

  /** An extracted record holds the stripped texts of the item's elements
      and the categories of its first categories block. */
  lemma ExtractedFields(job: Node)
    requires ExtractJobData(job).Some?
    ensures ExtractJobData(job).value.position == Strip(TextOf(Find(job, TitleSelector).value))
    ensures ExtractJobData(job).value.company == Strip(TextOf(Find(job, CompanySelector).value))
    ensures ExtractJobData(job).value.location == Strip(TextOf(Find(job, RegionSelector).value))
    ensures ExtractJobData(job).value.categories == Categories(job)
  {
  }

  /** The row of a list item is the five columns of its record; the section
      heading it sits under does not show in the row. */
  lemma ItemRowContent(item: Node, name: string)
    requires !Skipped(item) && ExtractJobData(item).Some?
    ensures var j := ExtractJobData(item).value;
      ItemRow(name)(item) == Some([j.position, j.company, j.location, NotSpecified, j.link])
    ensures ItemRow(name)(item) == ItemRow("")(item)
  {
    var j := ExtractJobData(item).value;
    WWRRowIgnoresSectionAndCategories(j, name, j.categories);
    WWRRowIgnoresSectionAndCategories(j, "", j.categories);
  }

  /** Every list item that is not skipped and extracts contributes its row
      to the section, labelled with the section's name. */
  lemma ExtractableItemKept(section: Node, item: Node)
    requires item in FindAll(section, Tag("li"))
    requires !Skipped(item) && ExtractJobData(item).Some?
    ensures WWRToRow(SetSection(ExtractJobData(item).value, SectionName(section))) in SectionRows(section)
  {
    var f := ItemRow(SectionName(section));
    var j := ExtractJobData(item).value;
    assert f(item) == Some(WWRToRow(SetSection(j, SectionName(section))));
    FilterMapKeeps(f, FindAll(section, Tag("li")), item);
  }

  /** Every row of a section comes from one of its list items that is not
      skipped and extracts. */
  lemma SectionRowOrigin(section: Node, row: seq<string>)
    requires row in SectionRows(section)
    ensures exists item :: && item in FindAll(section, Tag("li")) && !Skipped(item)
                           && ExtractJobData(item).Some?
                           && row == WWRToRow(ExtractJobData(item).value)
  {
    var f := ItemRow(SectionName(section));
    var item :| item in FindAll(section, Tag("li")) && f(item) == Some(row);
    WWRRowIgnoresSectionAndCategories(ExtractJobData(item).value, SectionName(section), []);
  }

  /** Sections contribute their rows in document order. */
  lemma {:induction false} RowsOfSectionsAppend(a: seq<Node>, b: seq<Node>)
    ensures RowsOfSections(a + b) == RowsOfSections(a) + RowsOfSections(b)
  {
    if a == [] {
      assert a + b == b;
    } else {
      var first := SectionRows(a[0]);
      var restA := RowsOfSections(a[1..]);
      var restB := RowsOfSections(b);
      ConsAppend(a, b);
      assert RowsOfSections(a + b) == first + RowsOfSections(a[1..] + b);
      RowsOfSectionsAppend(a[1..], b);
      assert RowsOfSections(a) == first + restA;
      AppendAssoc(first, restA, restB);
    }
  }
}
