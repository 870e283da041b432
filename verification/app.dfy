/** The web front end's decision logic (main.py): the search route with its
    per-keyword result cache, the CSV header choice, and the export route's
    guards. Flask, templates and the CSV text itself are not modelled; the
    two scrapers are oracles and the clock is a parameter.

    main.py keeps its cache in a plain dictionary and only reads a key after
    testing membership, so the `Database` map models it exactly. */
module App {
  import opened Options
  import Text
  import opened Database
  import JobRecords

  type Row = seq<string>
  type Cache = Db<Row>

  /** One scraper run for a keyword: its rows, or none when it raises.
      Every run for the same keyword gets the same answer. */
  type Scraper = string -> Option<seq<Row>>

  /* ---------------------------------------------------------------- */
  /* search                                                            */
  /* ---------------------------------------------------------------- */

  /** A fresh search for one keyword: Wanted first, then We Work Remotely;
      none as soon as either raises (WWR is not started when Wanted raised);
      otherwise the WWR rows followed by the Wanted rows. */
  function ScrapeBoth(k: string, wanted: Scraper, wwr: Scraper): (r: Option<seq<Row>>)
    ensures r.Some? <==> wanted(k).Some? && wwr(k).Some?
    ensures r.Some? ==> |r.value| == |wwr(k).value| + |wanted(k).value|
    ensures r.Some? ==> r.value[..|wwr(k).value|] == wwr(k).value
    ensures r.Some? ==> r.value[|wwr(k).value|..] == wanted(k).value
  {
    match wanted(k)
    case None => None
    case Some(w) =>
      match wwr(k)
      case None => None
      case Some(x) => Some(x + w)
  }

  /** The rows for one stripped keyword and the cache after it; `scraped`
      records whether the scrapers were run. */
  datatype Lookup = Lookup(jobs: seq<Row>, cache: Cache, scraped: bool)

  function LookupKeyword(k: string, cache: Cache, wanted: Scraper, wwr: Scraper): (r: Lookup)
    ensures Contains(cache, k) ==> r == Lookup(Get(cache, k), cache, false)
    ensures !Contains(cache, k) ==> r.scraped
    ensures !Contains(cache, k) && ScrapeBoth(k, wanted, wwr).None? ==> r.jobs == [] && r.cache == cache
    ensures !Contains(cache, k) && ScrapeBoth(k, wanted, wwr).Some? ==>
      r.jobs == ScrapeBoth(k, wanted, wwr).value && r.cache == Set(cache, k, r.jobs)
  {
    if Contains(cache, k) then Lookup(Get(cache, k), cache, false)
    else
      match ScrapeBoth(k, wanted, wwr)
      case None => Lookup([], cache, true)
      case Some(jobs) => Lookup(jobs, Set(cache, k, jobs), true)
  }

  /** The result of the keyword loop: all rows, the cache after it, and the
      keywords the scrapers were run for, in order. */
  datatype Pass = Pass(jobs: seq<Row>, cache: Cache, scraped: seq<string>)

  /** The keyword loop of `search`: keyword after keyword, each one's rows
      appended, the cache threaded through. */
  function SearchLoop(keys: seq<string>, cache: Cache, wanted: Scraper, wwr: Scraper): (r: Pass)
    ensures |r.scraped| <= |keys|
    ensures keys == [] ==> r == Pass([], cache, [])
    decreases |keys|
  {
    if keys == [] then Pass([], cache, [])
    else
      var first := LookupKeyword(keys[0], cache, wanted, wwr);
      var rest := SearchLoop(keys[1..], first.cache, wanted, wwr);
      Pass(first.jobs + rest.jobs, rest.cache, (if first.scraped then [keys[0]] else []) + rest.scraped)
  }

  /** The loop never drops or changes a cached entry. */
  lemma {:induction false} LoopKeepsCached(keys: seq<string>, cache: Cache, wanted: Scraper, wwr: Scraper, k: string)
    requires Contains(cache, k)
    ensures var after := SearchLoop(keys, cache, wanted, wwr).cache;
      Contains(after, k) && Get(after, k) == Get(cache, k)
    decreases |keys|
  {
    if keys != [] {
      var step := LookupKeyword(keys[0], cache, wanted, wwr);
      LoopKeepsCached(keys[1..], step.cache, wanted, wwr, k);
    }
  }

  /** Every entry the loop adds is a keyword of the loop whose scrapers
      did not raise, holding their combined rows. */
  lemma {:induction false} LoopAddsOnlyFresh(keys: seq<string>, cache: Cache, wanted: Scraper, wwr: Scraper, k: string)
    requires Contains(SearchLoop(keys, cache, wanted, wwr).cache, k) && !Contains(cache, k)
    ensures k in keys && ScrapeBoth(k, wanted, wwr).Some?
    ensures Get(SearchLoop(keys, cache, wanted, wwr).cache, k) == ScrapeBoth(k, wanted, wwr).value
    decreases |keys|
  {
    var step := LookupKeyword(keys[0], cache, wanted, wwr);
    if Contains(step.cache, k) {
      assert k == keys[0];
      LoopKeepsCached(keys[1..], step.cache, wanted, wwr, k);
    } else {
      LoopAddsOnlyFresh(keys[1..], step.cache, wanted, wwr, k);
    }
  }

  /** The loop runs the scrapers only for its keywords, and only for those
      that were not cached when the loop began. */
  lemma {:induction false} ScrapedWereUncached(keys: seq<string>, cache: Cache, wanted: Scraper, wwr: Scraper, k: string)
    requires k in SearchLoop(keys, cache, wanted, wwr).scraped
    ensures k in keys && !Contains(cache, k)
    decreases |keys|
  {
    var step := LookupKeyword(keys[0], cache, wanted, wwr);
    var rest := SearchLoop(keys[1..], step.cache, wanted, wwr);
    if !(step.scraped && k == keys[0]) {
      assert k in rest.scraped;
      ScrapedWereUncached(keys[1..], step.cache, wanted, wwr, k);
    }
  }

  datatype SearchPage = RedirectHome | Results(keyword: string, jobs: seq<Row>, count: nat, time: string)

  /** The outcome of one request to `/search`. */
  datatype Searched = Searched(page: SearchPage, cache: Cache, scraped: seq<string>)

  /** `search`: a missing or empty keyword redirects home without touching
      anything; otherwise the comma-separated keywords are stripped and
      looked up in order, and the page shows their rows concatenated, with
      `searchTime`, the clock reading taken after the loop. */
  function Search(arg: Option<string>, cache: Cache, wanted: Scraper, wwr: Scraper, searchTime: string): (r: Searched)
    ensures r.page.RedirectHome? <==> arg.None? || arg.value == ""
    ensures r.page.RedirectHome? ==> r.cache == cache && r.scraped == []
    ensures r.page.Results? ==> r.page.count == |r.page.jobs| && r.page.time == searchTime
    ensures r.page.Results? ==> r.page.keyword == Text.Join(Text.ParseKeywords(arg.value), ", ")
    ensures r.page.Results? ==>
      var pass := SearchLoop(Text.ParseKeywords(arg.value), cache, wanted, wwr);
      r.page.jobs == pass.jobs && r.cache == pass.cache && r.scraped == pass.scraped
    ensures forall k :: Contains(cache, k) ==> Contains(r.cache, k) && Get(r.cache, k) == Get(cache, k)
    ensures forall k :: Contains(r.cache, k) && !Contains(cache, k) ==>
      ScrapeBoth(k, wanted, wwr).Some? && Get(r.cache, k) == ScrapeBoth(k, wanted, wwr).value
    ensures forall k :: k in r.scraped ==> !Contains(cache, k)
  {
    if arg.None? || arg.value == "" then Searched(RedirectHome, cache, [])
    else
      var keys := Text.ParseKeywords(arg.value);
      var pass := SearchLoop(keys, cache, wanted, wwr);
      forall k | Contains(cache, k)
        ensures Contains(pass.cache, k) && Get(pass.cache, k) == Get(cache, k)
      {
        LoopKeepsCached(keys, cache, wanted, wwr, k);
      }
      forall k | Contains(pass.cache, k) && !Contains(cache, k)
        ensures ScrapeBoth(k, wanted, wwr).Some? && Get(pass.cache, k) == ScrapeBoth(k, wanted, wwr).value
      {
        LoopAddsOnlyFresh(keys, cache, wanted, wwr, k);
      }
      forall k | k in pass.scraped
        ensures !Contains(cache, k)
      {
        ScrapedWereUncached(keys, cache, wanted, wwr, k);
      }
      Searched(Results(Text.FormatKeywords(arg.value), pass.jobs, |pass.jobs|, searchTime), pass.cache, pass.scraped)
  }

  /* ---------------------------------------------------------------- */
  /* create_csv_response and export                                    */
  /* ---------------------------------------------------------------- */

  const WantedHeaders: seq<string> := ["Position", "Company", "Reward", "Link"]

  datatype Csv = CsvError | Csv(header: seq<string>, rows: seq<Row>)

  /** `create_csv_response`: an empty list raises; otherwise the header is
      the WWR one when the first row has five cells and the Wanted one in
      every other case, followed by every row unchanged. */
  function CreateCsvResponse(jobs: seq<Row>): (r: Csv)
    ensures r.CsvError? <==> jobs == []
    ensures r.Csv? ==> r.rows == jobs
    ensures r.Csv? ==> (r.header == JobRecords.WWRHeaders <==> |jobs[0]| == 5)
    ensures r.Csv? ==> (r.header == WantedHeaders <==> |jobs[0]| != 5)
  {
    if jobs == [] then CsvError
    else if |jobs[0]| == 5 then Csv(JobRecords.WWRHeaders, jobs)
    else Csv(WantedHeaders, jobs)
  }

  datatype ExportResponse = ExportHome | ExportSearch(keyword: string) | CsvFile(filename: string, csv: Csv)

  /** `export`: a missing or empty keyword redirects home; the stripped
      keyword redirects back to its search when it is not cached or cached
      with no rows; otherwise the cached rows as a CSV file named after the
      keyword and `timestamp`. The CSV error branch is unreachable here. */
  function Export(arg: Option<string>, cache: Cache, timestamp: string): (r: ExportResponse)
    ensures r.ExportHome? <==> arg.None? || arg.value == ""
    ensures r.ExportSearch? ==> r.keyword == Text.Strip(arg.value) && Get(cache, r.keyword) == []
    ensures r.CsvFile? ==> && Get(cache, Text.Strip(arg.value)) != []
                           && r.csv == CreateCsvResponse(Get(cache, Text.Strip(arg.value))) && r.csv.Csv?
    ensures r.CsvFile? ==> Text.StartsWith(r.filename, "jobs_" + Text.Strip(arg.value) + "_")
  {
    if arg.None? || arg.value == "" then ExportHome
    else
      var k := Text.Strip(arg.value);
      if !Contains(cache, k) then ExportSearch(k)
      else
        var jobs := Get(cache, k);
        if jobs == [] then ExportSearch(k)
        else
          match CreateCsvResponse(jobs)
          case CsvError => ExportSearch(k)
          case Csv(h, rows) =>
            var filename := "jobs_" + k + "_" + timestamp + ".csv";
            assert filename == ("jobs_" + k + "_") + (timestamp + ".csv");
            CsvFile(filename, Csv(h, rows))
  }

  /* ---------------------------------------------------------------- */
  /* Properties                                                        */
  /* ---------------------------------------------------------------- */

  /** The keyword loop over `a + b` is the loop over `a` followed by the
      loop over `b` from the cache `a` left: keywords are processed in
      input order and their rows concatenated in that order. */
  lemma {:induction false} SearchLoopAppend(a: seq<string>, b: seq<string>, cache: Cache, wanted: Scraper, wwr: Scraper)
    ensures var first := SearchLoop(a, cache, wanted, wwr);
      var second := SearchLoop(b, first.cache, wanted, wwr);
      SearchLoop(a + b, cache, wanted, wwr) == Pass(first.jobs + second.jobs, second.cache, first.scraped + second.scraped)
    decreases |a|
  {
    if a == [] {
      assert a + b == b;
      var second := SearchLoop(b, cache, wanted, wwr);
      var noRows: seq<Row> := [];
      var noKeys: seq<string> := [];
      assert noRows + second.jobs == second.jobs;
      assert noKeys + second.scraped == second.scraped;
    } else {
      var step := LookupKeyword(a[0], cache, wanted, wwr);
      var s0: seq<string> := if step.scraped then [a[0]] else [];
      var restA := SearchLoop(a[1..], step.cache, wanted, wwr);
      var second := SearchLoop(b, restA.cache, wanted, wwr);
      ConsAppend(a, b);
      SearchLoopAppend(a[1..], b, step.cache, wanted, wwr);
      AppendAssoc(step.jobs, restA.jobs, second.jobs);
      AppendAssoc(s0, restA.scraped, second.scraped);
    }
  }

  /** Every keyword of the loop that was not cached is scraped. */
  lemma {:induction false} UncachedScraped(keys: seq<string>, cache: Cache, wanted: Scraper, wwr: Scraper, k: string)
    requires k in keys && !Contains(cache, k)
    ensures k in SearchLoop(keys, cache, wanted, wwr).scraped
    decreases |keys|
  {
    var step := LookupKeyword(keys[0], cache, wanted, wwr);
    if k != keys[0] {
      UncachedScraped(keys[1..], step.cache, wanted, wwr, k);
    }
  }

  /** After the loop every keyword it met is cached, unless it was not
      cached before and its scrapers raised. */
  lemma {:induction false} KeywordCached(keys: seq<string>, cache: Cache, wanted: Scraper, wwr: Scraper, k: string)
    requires k in keys && (Contains(cache, k) || ScrapeBoth(k, wanted, wwr).Some?)
    ensures Contains(SearchLoop(keys, cache, wanted, wwr).cache, k)
    decreases |keys|
  {
    var step := LookupKeyword(keys[0], cache, wanted, wwr);
    if k == keys[0] {
      LoopKeepsCached(keys[1..], step.cache, wanted, wwr, k);
    } else {
      KeywordCached(keys[1..], step.cache, wanted, wwr, k);
    }
  }

  /** When every keyword is cached the loop runs no scraper, leaves the
      cache as it is, and returns the cached rows in keyword order. */
  lemma {:induction false} AllCachedLoop(keys: seq<string>, cache: Cache, wanted: Scraper, wwr: Scraper)
    requires forall k :: k in keys ==> Contains(cache, k)
    ensures SearchLoop(keys, cache, wanted, wwr) == Pass(CachedRows(keys, cache), cache, [])
    decreases |keys|
  {
    if keys != [] {
      AllCachedLoop(keys[1..], cache, wanted, wwr);
    }
  }

  /** The cached rows of several keywords, in keyword order. */
  function CachedRows(keys: seq<string>, cache: Cache): seq<Row> {
    if keys == [] then [] else Get(cache, keys[0]) + CachedRows(keys[1..], cache)
  }

  /** The loop leaves every keyword it met cached, unless the scrapers
      raised for it; so the same loop from the resulting cache scrapes
      nothing and yields the same rows and cache. */
  lemma {:induction false} SearchLoopIdempotent(keys: seq<string>, cache: Cache, wanted: Scraper, wwr: Scraper)
    requires forall k :: k in keys ==> ScrapeBoth(k, wanted, wwr).Some?
    ensures var first := SearchLoop(keys, cache, wanted, wwr);
      SearchLoop(keys, first.cache, wanted, wwr) == Pass(first.jobs, first.cache, [])
    decreases |keys|
  {
    if keys != [] {
      var k := keys[0];
      var step := LookupKeyword(k, cache, wanted, wwr);
      var rest := SearchLoop(keys[1..], step.cache, wanted, wwr);
      assert Contains(step.cache, k) && Get(step.cache, k) == step.jobs;
      LoopKeepsCached(keys[1..], step.cache, wanted, wwr, k);
      SearchLoopIdempotent(keys[1..], step.cache, wanted, wwr);
      assert LookupKeyword(k, rest.cache, wanted, wwr) == Lookup(step.jobs, rest.cache, false);
      var none: seq<string> := [];
      assert none + none == none;
    }
  }

  /** A second identical search, when the scrapers did not raise, is
      answered entirely from the cache: the same page apart from its time,
      the same cache, no scraping. */
  lemma SearchIdempotent(arg: Option<string>, cache: Cache, wanted: Scraper, wwr: Scraper, time1: string, time2: string)
    requires forall k :: ScrapeBoth(k, wanted, wwr).Some?
    ensures var first := Search(arg, cache, wanted, wwr, time1);
      Search(arg, first.cache, wanted, wwr, time2)
        == Searched(if first.page.Results? then first.page.(time := time2) else first.page, first.cache, [])
  {
    if arg.Some? && arg.value != "" {
      SearchLoopIdempotent(Text.ParseKeywords(arg.value), cache, wanted, wwr);
    }
  }

  /** A keyword whose scrapers raise is not cached, so a later search
      tries it again. */
  lemma FailureNotCached(arg: Option<string>, cache: Cache, wanted: Scraper, wwr: Scraper, searchTime: string, k: string)
    requires !Contains(cache, k) && ScrapeBoth(k, wanted, wwr).None?
    ensures !Contains(Search(arg, cache, wanted, wwr, searchTime).cache, k)
  {
  }

  /** Keywords that are not cached and whose scrapers raise are scraped at
      every entry of the list, a repeated keyword at each occurrence, and
      leave no rows and no cache entry behind. */
  lemma {:induction false} FailingEntriesEachScraped(keys: seq<string>, cache: Cache, wanted: Scraper, wwr: Scraper)
    requires forall k :: k in keys ==> !Contains(cache, k) && ScrapeBoth(k, wanted, wwr).None?
    ensures SearchLoop(keys, cache, wanted, wwr) == Pass([], cache, keys)
    decreases |keys|
  {
    if keys != [] {
      assert keys[0] in keys;
      FailingEntriesEachScraped(keys[1..], cache, wanted, wwr);
      assert [keys[0]] + keys[1..] == keys;
    }
  }

  /** Every key a search adds is a stripped keyword without commas. */
  predicate CleanCache(cache: Cache) {
    forall k :: k in cache.data ==> Text.IsStripped(k) && ',' !in k
  }

  lemma SearchKeepsCacheClean(arg: Option<string>, cache: Cache, wanted: Scraper, wwr: Scraper, searchTime: string)
    requires CleanCache(cache)
    ensures CleanCache(Search(arg, cache, wanted, wwr, searchTime).cache)
  {
    if arg.Some? && arg.value != "" {
      var keys := Text.ParseKeywords(arg.value);
      Text.ParsedKeywordsClean(arg.value);
      var after := Search(arg, cache, wanted, wwr, searchTime).cache;
      forall k | Contains(after, k)
        ensures Text.IsStripped(k) && ',' !in k
      {
        if !Contains(cache, k) {
          LoopAddsOnlyFresh(keys, cache, wanted, wwr, k);
          var i :| 0 <= i < |keys| && keys[i] == k;
        }
      }
    }
  }

  /** Exporting a comma-separated keyword list never finds cached rows: the
      cache holds single keywords only, so the user is sent back to search. */
  lemma ExportOfKeywordListRedirects(arg: string, cache: Cache, timestamp: string)
    requires CleanCache(cache)
    requires ',' in Text.Strip(arg)
    ensures Export(Some(arg), cache, timestamp) == ExportSearch(Text.Strip(arg))
  {
  }

  /** After a search, exporting any of its keywords that gained rows yields
      exactly those rows as CSV. */
  lemma SearchThenExport(arg: string, cache: Cache, wanted: Scraper, wwr: Scraper, searchTime: string, i: nat, timestamp: string)
    requires arg != "" && i < |Text.ParseKeywords(arg)|
    requires var k := Text.ParseKeywords(arg)[i];
      && k != "" && !Contains(cache, k)
      && ScrapeBoth(k, wanted, wwr).Some? && ScrapeBoth(k, wanted, wwr).value != []
    ensures var k := Text.ParseKeywords(arg)[i];
      var after := Search(Some(arg), cache, wanted, wwr, searchTime).cache;
      && Export(Some(k), after, timestamp).CsvFile?
      && Export(Some(k), after, timestamp).csv.rows == ScrapeBoth(k, wanted, wwr).value
  {
    var keys := Text.ParseKeywords(arg);
    var k := keys[i];
    Text.ParsedKeywordsClean(arg);
    assert k in keys;
    var after := Search(Some(arg), cache, wanted, wwr, searchTime).cache;
    assert after == SearchLoop(keys, cache, wanted, wwr).cache;
    KeywordCached(keys, cache, wanted, wwr, k);
    LoopAddsOnlyFresh(keys, cache, wanted, wwr, k);
    ExportCached(k, after, timestamp);
  }

  /** Exporting a stripped keyword whose cached list is non-empty yields a
      CSV file of exactly those rows. */
  lemma ExportCached(k: string, cache: Cache, timestamp: string)
    requires k != "" && Text.IsStripped(k)
    requires Contains(cache, k) && Get(cache, k) != []
    ensures Export(Some(k), cache, timestamp).CsvFile?
    ensures Export(Some(k), cache, timestamp).csv.rows == Get(cache, k)
  {
    Text.StripOfStripped(k);
  }

  /** The header of an exported fresh result: its rows are the WWR rows
      (five cells) followed by the Wanted rows (three or four), so the WWR
      header is chosen exactly when WWR found something. Then any Wanted
      rows sit under a five-column header with fewer cells than columns. */
  lemma FreshResultHeader(k: string, wanted: Scraper, wwr: Scraper)
    requires ScrapeBoth(k, wanted, wwr).Some? && ScrapeBoth(k, wanted, wwr).value != []
    requires forall row :: row in wwr(k).value ==> |row| == 5
    requires forall row :: row in wanted(k).value ==> |row| == 3 || |row| == 4
    ensures var csv := CreateCsvResponse(ScrapeBoth(k, wanted, wwr).value);
      && csv.Csv?
      && (csv.header == JobRecords.WWRHeaders <==> wwr(k).value != [])
      && (wwr(k).value != [] ==> forall row :: row in wanted(k).value ==> |row| < |csv.header|)
  {
    var x := wwr(k).value;
    var w := wanted(k).value;
    var jobs := ScrapeBoth(k, wanted, wwr).value;
    if x != [] {
      assert jobs[0] == x[0] by { assert jobs[..|x|] == x; }
      assert x[0] in x;
    } else {
      assert jobs == w by { assert jobs[0..] == w; }
      assert w[0] in w;
    }
  }
}
