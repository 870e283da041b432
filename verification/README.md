# Job scraper normalisation pipeline, in Dafny

A model of the job scraper's pipeline: it turns scraped listing pages into rows and caches them per search keyword. The pipeline has four parts:

- **Job records** (`job_records.dfy`): the generic `JobData` record, `JobDataWWR` and `JobDataRemoteOK`. Each renders as a header list and a row list.
  - An optional field (location, salary, reward) is rendered only when it is not `'Not specified'`.
  - Extra keyword fields follow in ascending key order (`sorting.dfy`).
- **Extraction over an abstract document** (`html.dfy`). A page is a tree of elements and text nodes, each element with a name, a class list and attributes. `find`/`find_all` search descendants in document order.
  - RemoteOK (`remoteok.dfy`): a three-tier search for the job rows, then per-row extraction with its field fallbacks and link rules.
  - We Work Remotely (`wwr.dfy`): job sections and their list items.
  - Wanted (`wanted.dfy`): job cards.
- **Small state machines**:
  - the round-robin proxy cursor (`proxy.dfy`);
  - RemoteOK's browser retry loop, which flips proxy use between attempts;
  - Wanted's bounded retry loop;
  - the pagination count, which defaults to 1.
- **The web front end's decisions** (`app.dfy`): the `/search` route with its per-keyword cache, the CSV header choice, and the `/export` guards. The `Database` class is in `database.dfy`.

The Python string operations the scrapers use are in `text.dfy`: `strip`, `split(',')`, `", ".join`, `startswith`, `in`, `lower` and `title`. The shared `add_keywords_from_input` is `Text.AddKeywordsFromInput`; the three scrapers define it identically.

Everything outside the program is an oracle, passed in as a function parameter:
- **Browser and network**: one RemoteOK browser session is an `Attempt`; it tells Playwright failing to start (before any proxy is drawn) from a crash later in the session. A Wanted attempt yields content or nothing. A WWR request yields a `Response`.
- **HTML parser**: `parse`.
- **RemoteOK's epoch formatting**: `formatEpoch`.
- **The two scrapers, as seen from the front end**: a `Scraper`.
- **The clock**: the export `timestamp`.

RemoteOK's loop body is split in two:
1. `RemoteOK.Classify` condenses what a session observed into a `Verdict`: session failed, captcha unsolved, captcha blocked, table found, or no table.
2. `RemoteOK.AttemptStep` decides from that verdict whether to return or retry, and whether to flip proxy use.

`RemoteOK.Run` is the loop over the verdicts.

Two behaviours of the code are easy to misread; the model follows the code:
- **Unsolved manual captcha.** One might expect the loop to retry with proxy use toggled, as it does after an automatic block. The code (`extractors/remoteok.py:155-162`) retries without toggling, and on the last attempt ends the loop with no content.
- **A scraper that raises during a search.** One might expect only that source's rows to be lost. In the code (`main.py:76-91`) one `try` covers both scrapers. If the Wanted scraper raises, WWR is never started, the keyword gets no rows and nothing is cached.

## Model

| member | source | states |
|---|---|---|
| Text.Strip | extractors/wwr.py:45-47 | `strip()`: the result has no whitespace at either end and is the input with only whitespace cut from both ends |
| Text.StripOfStripped | main.py:112 | stripping an already stripped keyword leaves it unchanged |
| Text.StripKeeps | extractors/remoteok.py:433-434 | stripping removes only whitespace, so a non-space character such as the money bag survives it |
| Text.Lower | extractors/remoteok.py:131 | `lower()` keeps the length and lower-cases each character (ASCII letters only) |
| Text.Title | extractors/job_data.py:43 | `title()` keeps the length of the key |
| Text.IndexOf | main.py:65 | the position of the first occurrence of the separator |
| Text.Split | main.py:65 | `split(',')`: at least one part, no part holds the separator, and joining the parts with it gives back the input |
| Text.SplitJoin | main.py:65 | splitting a join of separator-free parts gives back the parts (the inverse of `Split`) |
| Text.ParseKeywords | main.py:65-70 | the keywords of an input: one stripped segment per comma-separated part, in input order |
| Text.ParsedKeywordsClean | main.py:65-70 | every parsed keyword is stripped and contains no comma |
| Text.AddKeywordsFromInput | extractors/remoteok.py:29-37 | keeps the keywords already held and appends one stripped, comma-free entry per comma-separated segment, in input order |
| Text.ParseJoinedRoundTrip | main.py:65-66 | joining stripped, comma-free keywords with ", " and parsing the result gives back the keywords |
| Text.FormatKeywordsRoundTrip | main.py:66 | re-submitting the displayed keyword string yields the same keywords as the original input |
| Options.FilterMap | extractors/remoteok.py:348-477 | the per-item loop that skips failing items: never more results than items, every result comes from some item, and nothing is dropped when every item succeeds |
| Options.FilterMapAppend | extractors/remoteok.py:348-477 | the surviving results keep document order: mapping a concatenation is the concatenation of the mappings |
| Options.FilterMapKeeps | extractors/wanted_job_search.py:146-174 | every item that yields a result contributes it |
| Options.Filter | extractors/remoteok.py:337-340 | the list comprehension: an element is kept exactly when it is in the input and passes the test |
| Options.FilterAppend | extractors/remoteok.py:337-340 | filtering a concatenation is the concatenation of the filtered parts, so kept elements stay in input order |
| Options.FilterSingle | extractors/remoteok.py:337-340 | a one-element list keeps its element exactly when it passes the test |
| Options.FilterHead | extractors/remoteok.py:293 | the first element kept is the earliest element of the input that passes the test |
| Options.FilterMapAll | extractors/remoteok.py:348-477 | when every item succeeds, the results line up one for one with the items |
| Html.FindAll | extractors/remoteok.py:299 | `find_all`: exactly the descendants that match the selector |
| Html.Find | extractors/remoteok.py:293 | `find`: a found element matches the selector and lies inside the searched element (that it is the first match in document order is `Html.FindFirst`) |
| Html.FindFirst | extractors/remoteok.py:293 | `find` returns the first matching descendant in document order: no earlier descendant matches |
| Html.FindAllChildren | extractors/remoteok.py:299 | `find_all` visits in pre-order: the first child if it matches, then its matching descendants, then those of the later children |
| Html.FindAllLeaf | extractors/remoteok.py:299 | an element without children, or a text node, has no matching descendants |
| Html.FindNoneIffNoMatch | extractors/remoteok.py:293-296 | `find` returns nothing exactly when no descendant matches |
| Html.FindVisit | extractors/wwr.py:38 | the flag logo looked up together with its next sibling is an element that matches |
| Html.FindVisitAgrees | extractors/wwr.py:38-58 | looking up the next sibling does not change which element is found: the same one `find` returns |
| Sorting.LessIrreflexive | extractors/job_data.py:42 | Python's string `<` is irreflexive |
| Sorting.LessTransitive | extractors/job_data.py:42 | Python's string `<` is transitive |
| Sorting.LessTotal | extractors/job_data.py:42 | two different strings are ordered one way or the other |
| Sorting.Insert | extractors/job_data.py:42 | inserting a fresh key into a sorted list keeps it sorted and adds exactly that entry |
| Sorting.SortByKey | extractors/job_data.py:42-59 | `sorted()` over the extra fields: keys strictly ascending, and the same entries (a permutation) |
| JobRecords.KwargOrDefaultSpec | extractors/job_data.py:23-25 | a field takes the passed value when given, and 'Not specified' otherwise |
| JobRecords.ExtraKwargs | extractors/job_data.py:28-29 | `additional_info` holds exactly the keyword arguments other than location, salary and reward, with distinct names |
| JobRecords.NewJobData | extractors/job_data.py:8-29 | the constructor: position, company and link as given; location, salary and reward as passed, defaulting to 'Not specified'; every other argument in `additional_info` |
| JobRecords.PresentOptionals | extractors/job_data.py:35-40 | the optional columns rendered: exactly the fields not equal to 'Not specified', in the fixed order Location, Salary, Reward |
| JobRecords.SortedExtras | extractors/job_data.py:42-43 | the extra fields in strictly ascending key order, all of them and nothing else |
| JobRecords.Headers | extractors/job_data.py:31-45 | `get_headers`: "Position", "Company", the present optional names, the title-cased extra names in key order, then "Link" |
| JobRecords.ToRow | extractors/job_data.py:47-61 | `to_list`: position, company, the present optional values, the extra values in key order, then link |
| JobRecords.HeadersRowAligned | extractors/job_data.py:31-61 | headers and row have the same length, and at every index the header names the field whose value the row holds |
| JobRecords.OptionalsRenderedIffSpecified | extractors/job_data.py:35-40 | each of Location, Salary and Reward is rendered exactly when its value is not 'Not specified' |
| JobRecords.RewardOnlyRow | extractors/wanted_job_search.py:171-172 | a record with only a reward renders as [position, company, reward, link], without the reward when it reads 'Not specified' |
| JobRecords.RewardOnlyHeaders | extractors/job_data.py:31-45 | the header list of such a record names the same columns |
| JobRecords.NewWWRJob | extractors/job_data_wwr.py:9-29 | the WWR constructor keeps the five fields, stores no categories when none are given, and starts with an empty section |
| JobRecords.SetSection | extractors/job_data_wwr.py:31-33 | `set_section` changes the section and nothing else |
| JobRecords.WWRToRow | extractors/job_data_wwr.py:35-47 | `to_list` is always [position, company, location, salary, link], as long as the five headers |
| JobRecords.WWRRowIgnoresSectionAndCategories | extractors/job_data_wwr.py:31-43 | the rendered row depends on neither the section nor the categories |
| JobRecords.WWRAsJobData | extractors/job_data_wwr.py:21-27 | the base-class record a WWR job builds: location and salary as given, reward defaulted, no extras |
| JobRecords.WWRRowVersusInherited | extractors/job_data_wwr.py:35-43 | the override agrees with the inherited `to_list` exactly when location and salary are both specified |
| JobRecords.SalaryOrDefault | extractors/job_data_remoteok.py:25 | a falsy (empty) salary is stored as 'Not specified', any other salary as it is |
| JobRecords.NewRemoteOKJob | extractors/job_data_remoteok.py:9-26 | the corrected constructor keeps every field the rendering reads, and the stored salary is never empty |
| JobRecords.RemoteOKToRow | extractors/job_data_remoteok.py:28-39 | eight entries aligned with the eight headers; the tags joined by ", " or "" without tags; the ad column "광고" exactly for an ad and "" otherwise |
| JobRecords.TagsColumnRoundTrip | extractors/job_data_remoteok.py:32 | the tags column can be read back: splitting it at commas and stripping recovers stripped, comma-free tags |
| Database.Empty | database.py:13-16 | a new database contains no key |
| Database.Get | database.py:18-20 | `db[key]`: the stored list, or [] for a missing key |
| Database.GetOr | database.py:48-50 | `get(key, default)`: the stored value when present, `default` exactly when the key is absent |
| Database.Set | database.py:22-25 | after `db[k] = v` the key is present and maps to `v`, and every other key's membership and value are unchanged |
| Database.Clear | database.py:31-34 | after `clear()` no key is contained |
| Database.Keys | database.py:36-38 | `keys()` holds exactly the contained keys |
| Database.Values | database.py:40-42 | `values()` holds exactly the lists stored under some key |
| Database.Items | database.py:44-46 | `items()` holds exactly the stored (key, value) pairs |
| Database.GetAgreesWithGetOr | database.py:18-50 | indexing agrees with `get` given an empty-list default |
| Database.SetOverrides | database.py:22-25 | a later store under the same key overrides an earlier one |
| Database.SetCommutes | database.py:22-25 | stores under different keys commute |
| Proxy.Initial | extractors/remoteok.py:17-27 | a new scraper holds the three default proxies with the cursor at 0 |
| Proxy.GetProxy | extractors/remoteok.py:39-46 | with no proxies: none, cursor unchanged. Otherwise exactly the proxy under the cursor, and the cursor moves to (cursor+1) mod n, staying in range |
| Proxy.NextIsSuccessorMod | extractors/remoteok.py:45 | stepping the cursor and wrapping at the end is the successor modulo the list length |
| Proxy.Ahead | extractors/remoteok.py:45 | the cursor position after several steps stays within the list |
| Proxy.Draws | extractors/remoteok.py:39-46 | k successive `get_proxy` calls give k results and keep the pool valid |
| Proxy.DrawsStep | extractors/remoteok.py:39-46 | k+1 draws are one draw followed by k more |
| Proxy.DrawsCompose | extractors/remoteok.py:39-46 | drawing j and then k proxies is drawing j+k |
| Proxy.DrawsAt | extractors/remoteok.py:44-45 | the i-th of k draws is the proxy i places after the cursor, and the cursor ends k places on |
| Proxy.AheadWithinRound | extractors/remoteok.py:45 | within one round the cursor advances by plain addition, wrapping at most once |
| Proxy.FullRound | extractors/remoteok.py:39-46 | n calls on n proxies visit every proxy exactly once, starting at the cursor, and return the cursor to where it was |
| Proxy.DrawsEmpty | extractors/remoteok.py:41-42 | with no proxies every draw yields none and the cursor never moves |
| RemoteOK.SearchUrl | extractors/remoteok.py:273 | the search URL is on the RemoteOK site |
| RemoteOK.Classify | extractors/remoteok.py:127-238 | how one session ends: Playwright failing to start, and only that, is a start failure; a later crash and only that is a failed session; the captcha is unsolved exactly when a manual solve left the page blocked, and blocked exactly when an automatic run saw the block and saved its screenshot; any other loaded page is judged by whether the job table is on it, returning the page |
| RemoteOK.AttemptStep | extractors/remoteok.py:155-266 | a found table returns the page at once; a missing table or an automatic block flips proxy use and retries, or on the last attempt returns the page (missing table) or nothing (block); an unsolved manual captcha retries without flipping; a start failure or a failed session retries without flipping until the last attempt, which returns nothing |
| RemoteOK.Run | extractors/remoteok.py:52-268 | the attempt loop: at least one and at most as many attempts as sessions, at most one proxy per attempt (none for an attempt where Playwright did not start), and content only from a session that found the table, or from the last session |
| RemoteOK.RunAgain | extractors/remoteok.py:179-250 | a retry continues with the remaining sessions, flipping proxy use when the step says so; this attempt's proxy heads the proxies drawn |
| RemoteOK.EarlierSessionsContinued | extractors/remoteok.py:155-250 | every attempt before the last one made continued the loop and did not find the table |
| RemoteOK.RunFinish | extractors/remoteok.py:234-257 | a returning session ends the loop after one attempt with its result |
| RemoteOK.RunDraws | extractors/remoteok.py:56-59 | the proxies the loop uses are successive `get_proxy` results, one per proxied attempt in which Playwright started, and the cursor ends where those draws leave it |
| RemoteOK.Verdicts | extractors/remoteok.py:52 | one verdict per session, in attempt order |
| RemoteOK.RunPlaywright | extractors/remoteok.py:48-268 | `run_playwright` with its default retry count: 1 to 3 attempts, proxies drawn in rotation (only by attempts where Playwright started), and content only from a loaded page that was neither blocked nor left unsolved and that showed the job table, or from the third attempt |
| RemoteOK.ReturnedVerdict | extractors/remoteok.py:226-257 | a verdict that returns a page comes from a loaded, unblocked session and carries its page; it is a table found exactly when the page has the job table |
| RemoteOK.AllBlocked | extractors/remoteok.py:169-187 | when every session is blocked automatically the loop makes every attempt, returns nothing, and proxies every other attempt |
| RemoteOK.AlwaysBlocked | extractors/remoteok.py:169-187 | `run_playwright` without manual solving on sessions that are always blocked: three attempts, no content, two proxies drawn when it started proxied and one otherwise |
| RemoteOK.AllFailed | extractors/remoteok.py:259-268 | when every started session fails the loop makes every attempt, returns nothing, and draws a proxy on every attempt or on none |
| RemoteOK.AllCrashed | extractors/remoteok.py:259-268 | `run_playwright` with every session crashing after Playwright started: three attempts, no content, three proxies drawn exactly when it started proxied |
| RemoteOK.FailedDraws | extractors/remoteok.py:52-58 | when every session fails, before or after Playwright started, the loop makes every attempt, returns nothing, and a proxied loop draws one proxy per session that started |
| RemoteOK.NeverStartedRun | extractors/remoteok.py:52-58 | a loop in which Playwright never starts draws no proxy and leaves the rotation where it was |
| RemoteOK.NeverStarted | extractors/remoteok.py:52-58 | `run_playwright` when Playwright fails to start on every attempt: three attempts, no content, no proxy drawn even when proxied, rotation unchanged |
| RemoteOK.AlternationsHalf | extractors/remoteok.py:248 | flipping proxy use after each attempt proxies half of them, rounding up when the first is proxied |
| RemoteOK.NeverFound | extractors/remoteok.py:239-257 | when no page shows the table the loop flips after every attempt, makes every attempt, proxies every other one and returns the last page |
| RemoteOK.TableNeverFound | extractors/remoteok.py:239-257 | `run_playwright` on unblocked pages that never show the table: three attempts, the third page returned, two proxies drawn when it started proxied and one otherwise |
| RemoteOK.FetchPage | extractors/remoteok.py:277-283 | the direct fetch comes first and is the result whenever it yields content; only when it yields nothing does the proxied fetch run, from where the direct one left the rotation, and its content is the result; attempts add up, proxies are drawn in rotation across both |
| RemoteOK.ThenProxied | extractors/remoteok.py:281-283 | a proxied fetch after a direct one: the content is the proxied one, attempts add up and proxies continue the rotation |
| RemoteOK.FetchedContentOrigin | extractors/remoteok.py:277-283 | content fetched comes from a loaded session of one of the two fetches, one that was neither blocked nor left unsolved |
| RemoteOK.NoToggleNoDraw | extractors/remoteok.py:56-59 | a loop that starts direct and never flips (start failures, failed sessions, found tables) draws no proxy |
| RemoteOK.DirectFetchDrawsNothing | extractors/remoteok.py:278 | a direct fetch whose sessions only fail to start, crash or find the table leaves the proxy rotation untouched |
| RemoteOK.MaxFrom | extractors/remoteok.py:303-309 | the table scan keeps the first table with strictly the most rows, and none when every count is 0 |
| RemoteOK.RowCounts | extractors/remoteok.py:306 | one row count per table, in table order |
| RemoteOK.MostRows | extractors/remoteok.py:296-314 | the fallback picks the first table with the most `tr` rows, and no table when every table has no row |
| RemoteOK.Board | extractors/remoteok.py:293-314 | the job table is the one with id "jobsboard" when there is one; otherwise it is the fallback scan over all tables (the first with most rows); no table is chosen only when there is no jobsboard |
| RemoteOK.JobRows | extractors/remoteok.py:316-344 | with a table, a row is kept exactly when it is one of the table's `tr` and has class job or sw-insert, or a data-id or data-slug; without one, all `tr.job` of the page when there are any, else exactly the page's `tr` that have a data-id or data-slug |
| RemoteOK.AdUrl | extractors/remoteok.py:361-367 | an ad's link is "" exactly when its anchor or href is missing; an href starting with "http" is kept as is, any other is prefixed with the site |
| RemoteOK.RowUrl | extractors/remoteok.py:361-373 | an ad's link is its anchor's (`AdUrl`); a non-ad's link is the job page named by data-slug, falling back to data-id, and "" exactly when it has neither; any link found starts with "http" |
| RemoteOK.CompanyCell | extractors/remoteok.py:381-385 | the cell found matches one of the two cell selectors |
| RemoteOK.CellFallbackUnreachable | extractors/remoteok.py:384-385 | the second cell lookup never finds anything the first missed |
| RemoteOK.TextOr | extractors/remoteok.py:392-401 | the stripped text of the element when there is one, and the default when there is none |
| RemoteOK.AdTitle | extractors/remoteok.py:394-397 | an ad's title is the stripped text of its first `strong`, else of its first `a`, else "광고" |
| RemoteOK.JobTitle | extractors/remoteok.py:400-401 | a listing's title is the stripped text of its `h2[itemprop=title]`, "제목 없음" when there is none |
| RemoteOK.AdCompany | extractors/remoteok.py:406-411 | an ad's company is the stripped text of its second `a` when it has two or more, else of its first `span`, else "광고주" |
| RemoteOK.JobCompany | extractors/remoteok.py:414-415 | a listing's company is the stripped text of its `h3[itemprop=name]`, "회사명 없음" when there is none |
| RemoteOK.Location | extractors/remoteok.py:418-429 | a listing's location is the stripped text of the first `div.location` when that is non-empty, and "정보 없음" when there is no location or it is blank |
| RemoteOK.SalaryOf | extractors/remoteok.py:432-435 | the salary is non-empty exactly when some location element shows the money bag, and then it is the stripped text of the first such element |
| RemoteOK.Tags | extractors/remoteok.py:438-446 | no tags cell gives no tags; otherwise a string is a tag exactly when some `div.tag` of the cell has an `h3` whose stripped text it is |
| RemoteOK.Posted | extractors/remoteok.py:449-460 | no data-epoch gives ""; a data-epoch that formats gives the formatted date; one that does not gives the stripped text of the row's `time` element, or "" without one |
| RemoteOK.ExtractRow | extractors/remoteok.py:348-472 | a row yields a record exactly when it has a link and a company/position cell; the record's link is the row's link (`RowUrl`), an ad's record is `AdJob` of the cell and a listing's is `ListingJob`; the link starts with "http", the ad flag is the row's sw-insert class, texts are stripped, and an ad gets the default location and salary |
| RemoteOK.AdJob | extractors/remoteok.py:392-472 | an ad's record: the given link, ad flag set, the ad's title and company (`AdTitle`, `AdCompany`), "정보 없음" location, salary 'Not specified', no tags, no date |
| RemoteOK.ListingJob | extractors/remoteok.py:392-472 | an ordinary listing's record: the given link, ad flag clear, title, company and location read by `JobTitle`, `JobCompany` and `Location`, the salary of the first money-bag location or 'Not specified', the row's `Tags` and its `Posted` date |
| RemoteOK.RenderedRowShape | extractors/remoteok.py:463-473 | every rendered row has eight columns, an "http" link, an ad column of "광고" or "", and a salary that is 'Not specified' or shows the money bag |
| RemoteOK.PageRows | extractors/remoteok.py:346-480 | never more rows than candidate rows, each of the eight-column shape, and every job row that extracts contributes its rendered row |
| RemoteOK.PageRowsAreExtractedRows | extractors/remoteok.py:346-480 | a row is on the page exactly when some job row extracts to a record rendering to it |
| RemoteOK.EveryRowExtracted | extractors/remoteok.py:346-480 | when every job row extracts, the page has one row per job row, in order |
| RemoteOK.ScrapeKeyword | extractors/remoteok.py:270-484 | no rows when both fetches give no content; when a fetch gives content, the rows are exactly those of that page (`PageRows`); every row has eight columns and an "http" link; the rotation is the one the fetch leaves |
| RemoteOK.ScrapedRowsComplete | extractors/remoteok.py:270-484 | every job row of a fetched page that extracts appears among the rows returned |
| RemoteOK.ConstructAsWritten | extractors/remoteok.py:463-472 | as written, construction gives a row exactly when the keyword names fit the constructor |
| RemoteOK.ScrapeKeywordAsWritten | extractors/remoteok.py:270-484 | the scraper as written moves the proxy rotation exactly as the corrected one does |
| RemoteOK.CallSiteRejected | extractors/remoteok.py:463-472 | the call site's keyword names do not fit the declared constructor |
| RemoteOK.AsWrittenRendersNothing | extractors/remoteok.py:463-477 | as written, no row gets past construction |
| RemoteOK.AsWrittenAlwaysEmpty | extractors/remoteok.py:270-484 | as written, `scrape_keyword` returns no rows, whatever the pages |
| RemoteOK.OneRowExample | extractors/remoteok.py:293-473 | on a page with one ordinary job row the corrected scraper returns one row and the scraper as written none |
| Wwr.SearchUrl | extractors/wwr.py:134-136 | the keyword search URL is on the We Work Remotely site |
| Wwr.CategoryText | extractors/wwr.py:53 | a category is kept only as non-empty stripped text |
| Wwr.Categories | extractors/wwr.py:50-53 | the categories are non-empty stripped texts, none without a categories block |
| Wwr.SiblingHref | extractors/wwr.py:58 | the fallback link exists exactly when the flag logo has a next sibling with a non-empty href |
| Wwr.RawLink | extractors/wwr.py:56-62 | the first anchor's non-empty href is the link; without an anchor, or when its href is blank, the flag logo's next sibling's href is used instead; an anchor without an href attribute raises and so gives no link; any link found is non-empty |
| Wwr.Absolute | extractors/wwr.py:64-65 | a link not starting with "http" gets the site prefix, so every link starts with "http" |
| Wwr.ExtractJobData | extractors/wwr.py:31-75 | a record needs the title, company, region and flag logo; its link starts with "http", its salary is 'Not specified', its texts are stripped, and its section is empty |
| Wwr.SectionName | extractors/wwr.py:90-93 | the section name is the stripped text of the anchor in the section's `h2`, and "" when there is no `h2` or it holds no anchor |
| Wwr.SectionRows | extractors/wwr.py:98-109 | every row of a section has five columns, an "http" link and salary 'Not specified' |
| Wwr.RowsOfSections | extractors/wwr.py:89-109 | a row comes from several sections exactly when it is a row of one of them, each of the WWR shape |
| Wwr.JobsFromSoup | extractors/wwr.py:77-114 | a row is returned exactly when it is a row of one of the page's `section.jobs`; no rows without a jobs section; every row has the WWR shape |
| Wwr.JobsFromSoupItems | extractors/wwr.py:77-114 | a row is returned exactly when some item of some jobs section is not skipped, extracts, and renders to it |
| Wwr.ScrapeResponse | extractors/wwr.py:116-151 | no rows on a failed request or a status other than 200 |
| Wwr.ScrapeKeyword | extractors/wwr.py:134-151 | a failed request or a status other than 200 gives no rows; a 200 response gives exactly the rows of its page (`JobsFromSoup`); every row has the WWR shape |
| Wwr.GetPages | extractors/wwr.py:153-173 | at least 1; more than 1 only on a 200 response with a pagination bar, and then the number of its `span.page` elements |
| Wwr.Scraped | extractors/wwr.py:116-132 | each listing page is scraped as `scrape_page` does |
| Wwr.PagesFrom | extractors/wwr.py:181-184 | the rows of pages i to n begin with the rows of page i |
| Wwr.PagesFromRows | extractors/wwr.py:181-184 | every row of pages i to n comes from one of those pages |
| Wwr.PagesFromKeeps | extractors/wwr.py:181-184 | every row of a page in the range i to n appears in the rows of that range |
| Wwr.AllPages | extractors/wwr.py:153-184 | `get_pages`' request and the loop's request for page 1 are separate responses; the page count comes from the former; the rows start with the rows of the loop's page 1, a row is returned exactly when it is a row of some page from 1 to that count, and every row has the WWR shape |
| Wwr.PagesFromSplit | extractors/wwr.py:181-184 | the rows of a page range split at any page into the two sub-ranges |
| Wwr.PagesInOrder | extractors/wwr.py:181-184 | pages are concatenated in page order: pages 1..n are pages 1..n-1 followed by page n |
| Wwr.SinglePageFallback | extractors/wwr.py:153-184 | when the page count cannot be read, only the first page is scraped, whatever the loop's own request for it returns |
| Wwr.ExtractedLink | extractors/wwr.py:56-65 | an absolute href of the first anchor is kept, a relative one is prefixed with the site |
| Wwr.AnchorWithoutHrefDropped | extractors/wwr.py:56-75 | an item whose first anchor has no href attribute is dropped |
| Wwr.ExtractionSucceeds | extractors/wwr.py:40-71 | an item with the four required elements and an anchor with a non-empty href is extracted |
| Wwr.ExtractedFields | extractors/wwr.py:45-70 | the record holds the stripped texts of the title, company and region, and the item's categories |
| Wwr.ItemRowContent | extractors/wwr.py:105-109 | an item's row is the five columns of its record, whatever section it sits under |
| Wwr.ExtractableItemKept | extractors/wwr.py:100-109 | every item that is not skipped and extracts contributes its row |
| Wwr.SectionRowOrigin | extractors/wwr.py:100-109 | every row of a section comes from one of its items that is not skipped and extracts |
| Wwr.RowsOfSectionsAppend | extractors/wwr.py:89-109 | sections contribute their rows in document order |
| Wanted.SearchUrl | extractors/wanted_job_search.py:130 | the search URL is on the Wanted site and names the position tab |
| Wanted.RunPlaywright | extractors/wanted_job_search.py:31-74 | at most `max_retries` attempts; the content of the first attempt that does not raise; none exactly when every attempt raises |
| Wanted.CheckForBotDetection | extractors/wanted_job_search.py:76-94 | detection fires exactly when a detection string occurs in the lower-cased content, or the page shows neither cards nor a job list on a position URL |
| Wanted.EmptySearchPageDetected | extractors/wanted_job_search.py:89-92 | on a search page with neither cards nor a job list, detection always fires |
| Wanted.CardLink | extractors/wanted_job_search.py:153-154 | an href starting with "/" gets the site prefix, any other is kept unchanged |
| Wanted.TextOr | extractors/wanted_job_search.py:157-166 | an element's stripped text, or the default when it is missing |
| Wanted.CardRecord | extractors/wanted_job_search.py:149-171 | a card yields a record exactly when it has an anchor, with the defaults "제목 없음", "회사명 없음" and "보상금 정보 없음" and the reward as its only optional field |
| Wanted.CardRow | extractors/wanted_job_search.py:149-172 | a card yields a row of three or four columns exactly when it has an anchor |
| Wanted.ScrapeContent | extractors/wanted_job_search.py:135-176 | no rows without content; with content, a row is returned exactly when some card of the page renders to it; each row has three or four columns |
| Wanted.ScrapeKeyword | extractors/wanted_job_search.py:127-176 | no rows when all three attempts raise; otherwise exactly the rows of the content of the first attempt that does not raise; each row has three or four columns |
| Wanted.CardRowShape | extractors/wanted_job_search.py:171-172 | a card's row is [title, company, reward, link], without the reward when it reads 'Not specified', and its headers name the same columns |
| Wanted.CardWithoutAnchorSkipped | extractors/wanted_job_search.py:149-151 | a card without an anchor yields no row |
| Wanted.ScrapedRowsAreCardRows | extractors/wanted_job_search.py:146-176 | a row is returned exactly when some card with an anchor renders to it |
| App.ScrapeBoth | main.py:76-91 | a fresh search yields rows exactly when neither scraper raises, and then the WWR rows followed by the Wanted rows |
| App.LookupKeyword | main.py:71-93 | a cached keyword returns its stored rows and runs no scraper; otherwise the scrapers run, and their rows are stored unless one raised, in which case there are no rows and the cache is unchanged |
| App.SearchLoop | main.py:69-93 | the scrapers run at most once per entry of the keyword list, and only for entries not cached at that point; no keywords, no rows and no change |
| App.LoopKeepsCached | main.py:71-73 | the loop never drops or changes a cached entry |
| App.LoopAddsOnlyFresh | main.py:86-87 | every entry the loop adds is one of its keywords whose scrapers did not raise, holding their combined rows |
| App.ScrapedWereUncached | main.py:71-75 | the scrapers run only for keywords of the loop that were not cached |
| App.UncachedScraped | main.py:74-78 | every keyword of the loop that was not cached is scraped |
| App.KeywordCached | main.py:71-87 | after the loop every keyword it met is cached, unless it was uncached and its scrapers raised |
| App.AllCachedLoop | main.py:69-93 | with every keyword cached the loop runs no scraper, keeps the cache and returns the cached rows in keyword order |
| App.SearchLoopAppend | main.py:69-93 | keywords are processed in input order and their rows concatenated in that order |
| App.SearchLoopIdempotent | main.py:71-87 | when every scrape succeeds, a second run of the same loop scrapes nothing and gives the same rows and cache |
| App.Search | main.py:57-102 | a missing or empty keyword redirects home with nothing scraped; otherwise the page shows the rows, cache and scrapes of the loop over the parsed keywords, the shown keyword string is the stripped parts joined by ", ", the count is the number of rows, the shown time is the clock reading passed in, cached entries are kept, new entries are fresh scraper results, and only uncached keywords are scraped |
| App.SearchIdempotent | main.py:71-73 | when every scrape succeeds, a repeated search is answered from the cache: same page apart from its time, same cache, nothing scraped |
| App.FailureNotCached | main.py:89-91 | a keyword whose scrapers raise is not cached, so a later search retries it |
| App.FailingEntriesEachScraped | main.py:69-91 | uncached keywords whose scrapers raise are scraped at every entry of the list, a repeated keyword at each occurrence, and leave no rows and no cache entry |
| App.SearchKeepsCacheClean | main.py:69-87 | every cached key is a stripped keyword without commas |
| App.CreateCsvResponse | main.py:20-50 | an empty list raises; otherwise the WWR headers when the first row has five cells and the Wanted headers in every other case, then every row unchanged |
| App.Export | main.py:104-133 | a missing or empty keyword redirects home; an uncached or empty result redirects to its search; otherwise a CSV of the cached rows named after the stripped keyword |
| App.ExportOfKeywordListRedirects | main.py:112-115 | exporting a comma-separated keyword list always redirects to search, since the cache holds single keywords |
| App.ExportCached | main.py:112-129 | exporting a stripped keyword with cached rows yields exactly those rows |
| App.SearchThenExport | main.py:57-133 | after a search, exporting one of its keywords that gained rows yields exactly those rows |
| App.FreshResultHeader | main.py:28-32 | for a fresh result the WWR header is chosen exactly when WWR found rows, and then the Wanted rows sit under more columns than they have |

## Left out

- Browser sessions, HTTP requests, scrolling, cookie dialogs, screenshots, the manual `input()` wait and every `sleep`. These are outside the program; their observable results are oracle parameters.
- HTML parsing: the model starts from an element tree, and `parse` is a parameter.
- `class_` matching in BeautifulSoup: a class selector tests membership in the class list. A multi-class selector (`class_='company position company_and_position'`) tests the whole class list.
- `time.strftime(time.localtime(...))` (extractors/remoteok.py:455) depends on the timezone. It is the partial function `formatEpoch`.
- The pseudo-random waits computed from the clock are timing only, and are left out.
- The page content in RemoteOK is read several times in one session: lower-cased for the block check, again after the manual pause, once for the table check, and once more to return. Each read is a separate field of `Attempt`. The model does not relate them.
- Exceptions are folded into `Option` results, `Verdict`s and `RequestFailed`. An exception in RemoteOK's HTML handling after the fetch (extractors/remoteok.py:482-484) cannot arise in the tree model.
- Wanted.ScrapeKeyword: a card that raises during extraction (extractors/wanted_job_search.py:173-174) cannot arise in the tree model, so no card is skipped for that reason.
- The scrapers' `keywords` lists and `add_keyword` are modelled only through `Text.AddKeywordsFromInput`.
- File output: every `save_to_csv`, `pages_save_to_csv` and `keyword_search_save_to_csv` write, file.py, and the CSV text and its quoting. `CreateCsvResponse` returns the header and rows rather than text. `AllPages` models only the page loop of `pages_save_to_csv`.
- Flask routing, templates, `make_response` headers and the home page. The clock is not modelled: the search time (main.py:95) is the `searchTime` parameter of `Search`, and the export timestamp is a parameter of `Export`.
- App.Search: all scrapes of one keyword within one request share one outcome, because the scraper oracle is a function of the keyword. A repeated keyword (`?keyword=a,a`) whose first scrape raised is scraped again at its second entry, as `App.FailingEntriesEachScraped` states, but that second scrape raises too; in the program it may succeed and be cached.
- App.FailureNotCached: holds for one outcome per keyword per request; a later entry of the same keyword in the same request that succeeds would be cached in the program.
- Logging (utils/logger.py and every `logger` call).
- `JobData.__str__` and `__repr__`.
- Text.Lower: lower-cases ASCII letters only, because Python's full Unicode case mapping is not modelled. Every marker the scrapers look for is lower-case.
- Text.Title: only its length is stated; it title-cases ASCII letters only.
- Database.Values and Database.Items: dictionary views are ordered in Python; here they are sets, so order and multiplicity of values are not stated.
- Wanted's `_scroll_page` is never called and only scrolls; it is left out.
- Wanted's `_check_for_bot_detection` is never called by `run_playwright`; it is modelled on its own.
- RemoteOK.Tags: states which tags occur, not their order or repeats; they come in the order of the `div.tag` elements.
- RemoteOK.JobRows: with a table, states which rows are kept, not their order; the rows are a filter of the table's rows, and `Options.FilterAppend` states that a filter keeps input order.
- Wwr.JobsFromSoup: states which rows occur; the section order is `Wwr.RowsOfSectionsAppend`.
- Wanted.ScrapeContent: states which rows occur, not their order; cards are visited in document order.
- test_remoteok.py and test_manual_remoteok.py are interactive scripts against the live site, with no assertions. They are not modelled.

## Findings

| source | as written | input that shows it | evidently intended | confidence | as-written member | corrected member |
|---|---|---|---|---|---|---|
| extractors/remoteok.py:463-472 with extractors/job_data_remoteok.py:9-36 | The call site passes `title`, `company_name`, `tags`, `posted_date` and `is_ad` to a constructor that accepts only `position`, `company`, `location`, `link` and `salary`. Every construction raises `TypeError`, and the row loop catches it and skips the row. `to_list` also reads attributes that are never set. | A page with one job row: `tr.job` with `data-slug="x"` and a `td.company_and_position` cell, inside `table#jobsboard` (`RemoteOK.OneRowExample`). As written the scraper returns no rows, and it returns none for any page (`RemoteOK.AsWrittenAlwaysEmpty`). | A record with the eight fields `to_list` and `get_headers` spell out. Every extracted row then yields an eight-column row. | not executed | RemoteOK.ScrapeKeywordAsWritten | RemoteOK.ScrapeKeyword |
