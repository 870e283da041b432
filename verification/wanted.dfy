/** The Wanted scraper (extractors/wanted_job_search.py): a bounded retry
    loop around the browser, a scan of the page for bot detection, and one
    generic job record per job card, rendered with the reward as its only
    optional column.

    Browser attempts are an oracle: `outcome(k)` is the page content of
    attempt `k`, or none when that attempt raises. */
module Wanted {
  import opened Options
  import opened Text
  import opened Html
  import opened Sorting
  import opened JobRecords

  const SearchPrefix: string := "https://www.wanted.co.kr/search?query="
  const SearchSuffix: string := "&tab=position"
  const SiteRoot: string := "https://www.wanted.co.kr"

  /** `base_url.format(keyword)`. */
  function SearchUrl(keyword: string): (url: string)
    ensures StartsWith(url, SearchPrefix)
    ensures Contains(url, "position")
  {
    var url := SearchPrefix + keyword + SearchSuffix;
    assert url == (SearchPrefix + keyword + "&tab=") + "position";
    assert StartsWith("position", "position");
    ContainsSuffix(SearchPrefix + keyword + "&tab=", "position", "position");
    url
  }

  /* ---------------------------------------------------------------- */
  /* run_playwright                                                    */
  /* ---------------------------------------------------------------- */

  const DefaultMaxRetries: int := 3

  /** `run_playwright`: up to `maxRetries` attempts; the content of the first
      attempt that does not raise, or none when every attempt raises. Also
      returns how many attempts were made. */
  method RunPlaywright(outcome: nat -> Option<string>, maxRetries: int) returns (content: Option<string>, attempts: nat)
    ensures attempts <= if maxRetries < 0 then 0 else maxRetries
    ensures forall k: nat :: k < attempts - 1 ==> outcome(k).None?
    ensures content.Some? ==> attempts >= 1 && content == outcome(attempts - 1)
    ensures content.None? ==> forall k: nat :: k < maxRetries ==> outcome(k).None?
    ensures content.Some? <==> exists k: nat :: k < maxRetries && outcome(k).Some?
  {
    attempts := 0;
    while attempts < maxRetries
      invariant attempts <= if maxRetries < 0 then 0 else maxRetries
      invariant forall k: nat :: k < attempts ==> outcome(k).None?
    {
      var result := outcome(attempts);
      attempts := attempts + 1;
      if result.Some? {
        return result, attempts;
      }
    }
    return None, attempts;
  }

  /* ---------------------------------------------------------------- */
  /* _check_for_bot_detection                                          */
  /* ---------------------------------------------------------------- */

  const DetectionStrings: seq<string> :=
    ["captcha", "robot", "automated", "automation", "bot detection", "인증", "로봇", "자동화", "차단"]

  const CardProbe: Selector := TagClassInfix("div", "JobCard_container")
  const ListProbe: Selector := TagClassInfix("div", "JobList")

  /** A search page that shows neither job cards nor a job list. */
  predicate EmptyListing(doc: Node, url: string) {
    Find(doc, CardProbe).None? && Contains(url, "position") && Find(doc, ListProbe).None?
  }

  /** `_check_for_bot_detection`: scans the lower-cased content for each
      detection string in turn, then checks for an empty search page. */
  method CheckForBotDetection(content: string, doc: Node, url: string) returns (detected: bool)
    ensures detected <==> ContainsAny(Lower(content), DetectionStrings) || EmptyListing(doc, url)
  {
    var lowered := Lower(content);
    var i := 0;
    while i < |DetectionStrings|
      invariant i <= |DetectionStrings|
      invariant forall k :: 0 <= k < i ==> !Contains(lowered, DetectionStrings[k])
    {
      if Contains(lowered, DetectionStrings[i]) {
        return true;
      }
      i := i + 1;
    }
    if Find(doc, CardProbe).None? {
      if Contains(url, "position") && Find(doc, ListProbe).None? {
        return true;
      }
    }
    return false;
  }

  /** Every search URL names the position tab, so on a search page that
      shows neither cards nor a job list detection always fires. */
  lemma EmptySearchPageDetected(keyword: string, doc: Node)
    requires Find(doc, CardProbe).None? && Find(doc, ListProbe).None?
    ensures EmptyListing(doc, SearchUrl(keyword))
  {
  }

  /* ---------------------------------------------------------------- */
  /* scrape_keyword                                                    */
  /* ---------------------------------------------------------------- */

  const CardSelector: Selector := TagClassPrefix("div", "JobCard_container")
  const TitleSelector: Selector := TagClassPrefix("strong", "JobCard_title")
  const CompanySelector: Selector := TagClassPrefix("span", "JobCard_companyName")
  const RewardSelector: Selector := TagClassPrefix("span", "JobCard_reward")

  const NoTitle: string := "제목 없음"
  const NoCompany: string := "회사명 없음"
  const NoReward: string := "보상금 정보 없음"

  /** A site-relative href made absolute; anything else is kept as it is. */
  function CardLink(href: string): (link: string)
    ensures StartsWith(href, "/") ==> link == SiteRoot + href
    ensures !StartsWith(href, "/") ==> link == href
    ensures !StartsWith(link, "/")
  {
    if StartsWith(href, "/") then
      assert (SiteRoot + href)[0] == 'h';
      SiteRoot + href
    else href
  }

  /** The stripped text of the first element matching `sel`, or `default`. */
  function TextOr(card: Node, sel: Selector, default: string): (t: string)
    ensures Find(card, sel).None? ==> t == default
    ensures Find(card, sel).Some? ==> t == Strip(TextOf(Find(card, sel).value)) && IsStripped(t)
  {
    match Find(card, sel)
    case None => default
    case Some(e) => Strip(TextOf(e))
  }

  /** The record of one card: none when the card has no anchor. */
  function CardRecord(card: Node): (r: Option<JobData>)
    ensures r.Some? <==> Find(card, Tag("a")).Some?
    ensures r.Some? ==> Valid(r.value) && r.value.additionalInfo == []
    ensures r.Some? ==> r.value.location == NotSpecified && r.value.salary == NotSpecified
    ensures r.Some? ==> r.value.link == CardLink(Attr(Find(card, Tag("a")).value, "href"))
    ensures r.Some? ==> && r.value.position == TextOr(card, TitleSelector, NoTitle)
                        && r.value.company == TextOr(card, CompanySelector, NoCompany)
                        && r.value.reward == TextOr(card, RewardSelector, NoReward)
  {
    match Find(card, Tag("a"))
    case None => None
    case Some(a) =>
      var kwargs: seq<Entry> := [("reward", TextOr(card, RewardSelector, NoReward))];
      var j := NewJobData(TextOr(card, TitleSelector, NoTitle), TextOr(card, CompanySelector, NoCompany),
                          CardLink(Attr(a, "href")), kwargs);
      Some(j)
  }

  /** The row of one card, as `to_list` renders its record. */
  function CardRow(card: Node): (r: Option<seq<string>>)
    ensures r.Some? <==> Find(card, Tag("a")).Some?
    ensures r.Some? ==> |r.value| == 3 || |r.value| == 4
  {
    match CardRecord(card)
    case None => None
    case Some(j) => Some(ToRow(j))
  }

  /** `scrape_keyword` after the browser: no rows when there is no content
      or it is empty; otherwise one row per job card with an anchor, in
      document order. `parse` stands for the HTML parser. */
  function ScrapeContent(content: Option<string>, parse: string -> Node): (rows: seq<seq<string>>)
    ensures content.None? || content == Some("") ==> rows == []
    ensures forall row :: row in rows ==> |row| == 3 || |row| == 4
    ensures content.Some? && content.value != "" ==>
      forall row :: row in rows <==>
        exists card :: card in FindAll(parse(content.value), CardSelector) && CardRow(card) == Some(row)
  {
    if content.None? || content.value == "" then []
    else
      var doc := parse(content.value);
      forall row
        ensures row in FilterMap(CardRow, FindAll(doc, CardSelector)) <==>
          exists card :: card in FindAll(doc, CardSelector) && CardRow(card) == Some(row)
      {
        ScrapedRowsAreCardRows(doc, row);
      }
      FilterMap(CardRow, FindAll(doc, CardSelector))
  }

  /** `scrape_keyword`: the search page through `run_playwright` with its
      default of three attempts, then the card rows. `browse(url, k)` is
      the content of attempt `k` at `url`, or none when it raises. */
  method ScrapeKeyword(keyword: string, browse: (string, nat) -> Option<string>, parse: string -> Node)
    returns (rows: seq<seq<string>>)
    ensures (forall k: nat :: k < 3 ==> browse(SearchUrl(keyword), k).None?) ==> rows == []
    ensures forall k: nat :: k < 3 && FirstSuccess(browse, SearchUrl(keyword), k) ==>
      rows == ScrapeContent(browse(SearchUrl(keyword), k), parse)
    ensures forall row :: row in rows ==> |row| == 3 || |row| == 4
  {
    var url := SearchUrl(keyword);
    var attempt := (k: nat) => browse(url, k);
    var content, attempts := RunPlaywright(attempt, DefaultMaxRetries);
    if forall k: nat :: k < 3 ==> browse(url, k).None? {
      assert forall k: nat :: k < DefaultMaxRetries ==> attempt(k).None?;
      assert content.None?;
    }
    forall k: nat | k < 3 && FirstSuccess(browse, url, k)
      ensures content == browse(url, k)
    {
      assert attempt(k).Some?;
      assert content.Some?;
      FirstIsUnique(browse, url, k, attempts - 1);
    }
    rows := ScrapeContent(content, parse);
  }

  /** Attempt `k` is the first at `url` that does not raise. */
  predicate FirstSuccess(browse: (string, nat) -> Option<string>, url: string, k: nat) {
    browse(url, k).Some? && forall j: nat :: j < k ==> browse(url, j).None?
  }

  lemma FirstIsUnique(browse: (string, nat) -> Option<string>, url: string, k: nat, m: nat)
    requires FirstSuccess(browse, url, k) && FirstSuccess(browse, url, m)
    ensures k == m
  {
  }

  /* ---------------------------------------------------------------- */
  /* Properties                                                        */
  /* ---------------------------------------------------------------- */

  /** A card's row is its title, company, reward and link, except that a
      reward reading exactly 'Not specified' is left out; the header list
      of the same record names the same columns. */
  lemma CardRowShape(card: Node)
    requires Find(card, Tag("a")).Some?
    ensures var title := TextOr(card, TitleSelector, NoTitle);
      var company := TextOr(card, CompanySelector, NoCompany);
      var reward := TextOr(card, RewardSelector, NoReward);
      var link := CardLink(Attr(Find(card, Tag("a")).value, "href"));
      && CardRow(card) == Some(if reward != NotSpecified then [title, company, reward, link] else [title, company, link])
      && Headers(CardRecord(card).value) ==
           if reward != NotSpecified then ["Position", "Company", "Reward", "Link"] else ["Position", "Company", "Link"]
  {
    var j := CardRecord(card).value;
    RewardOnlyRow(j);
    RewardOnlyHeaders(j);
  }

  /** A card without an anchor yields no row even when it shows a title. */
  lemma CardWithoutAnchorSkipped(card: Node)
    requires Find(card, Tag("a")).None?
    ensures CardRow(card).None?
  {
  }

  /** Every card with an anchor contributes its row, and every row comes
      from such a card. */
  lemma ScrapedRowsAreCardRows(doc: Node, row: seq<string>)
    ensures row in FilterMap(CardRow, FindAll(doc, CardSelector)) <==>
      exists card :: card in FindAll(doc, CardSelector) && CardRow(card) == Some(row)
  {
    var cards := FindAll(doc, CardSelector);
    forall card | card in cards && CardRow(card) == Some(row)
      ensures row in FilterMap(CardRow, cards)
    {
      FilterMapKeeps(CardRow, cards, card);
    }
  }
}
