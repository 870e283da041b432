/** The RemoteOK scraper (extractors/remoteok.py): a bounded, retrying
    browser fetch that alternates between direct and proxied access, then
    a three-tier search for the job table and a per-row extraction into
    eight-column rows.

    The browser is an oracle: `Attempt` is what one browser session
    observed, `parse` is the HTML parser, and `formatEpoch` stands for
    `time.strftime('%Y-%m-%d', time.localtime(int(epoch)))`, returning
    `None` where that raises. */
module RemoteOK {
  import opened Options
  import opened Text
  import opened Html
  import opened Proxy
  import opened JobRecords

  /* ---------------------------------------------------------------- */
  /* Fetching the page                                                 */
  /* ---------------------------------------------------------------- */

  /** `base_url.format(keyword)`. */
  function SearchUrl(keyword: string): (url: string)
    ensures StartsWith(url, "https://remoteok.com/remote-")
  {
    "https://remoteok.com/remote-" + keyword + "-jobs"
  }

  /** What one browser session observed. `NotStarted`: starting Playwright
      (`sync_playwright()`) raised, before a proxy could be drawn.
      `Crashed`: an exception escaped the session after that point.
      `Loaded`: the page as first read (checked for a block page), whether
      the block-page handling got through without an exception, the page as
      read again after the manual pause, the page as parsed for the
      job-table check, and the content read last, which is what gets
      returned. The block-page handling is the screenshot in automatic mode,
      and the screenshot, the `input()` pause and the re-read in manual
      mode; when it raises, the session goes on to the table check. */
  datatype Attempt =
    | NotStarted
    | Crashed
    | Loaded(firstScan: string, blockHandlingOk: bool, recheck: string, doc: Node, content: string)

  const BlockMarkers: seq<string> := ["captcha", "robot", "cloudflare"]
  const ManualMarkers: seq<string> := ["captcha", "robot"]

  /** The first read of the page, lower-cased, mentions a block marker. */
  predicate Blocked(page: string) {
    ContainsAny(Lower(page), BlockMarkers)
  }

  /** After the manual pause the page still mentions captcha or robot
      ("cloudflare" is not checked again). */
  predicate StillBlocked(page: string) {
    ContainsAny(Lower(page), ManualMarkers)
  }

  const JobsboardSelector: Selector := TagAttr("table", "id", "jobsboard")

  predicate HasJobsboard(doc: Node) {
    Find(doc, JobsboardSelector).Some?
  }

  /** Manual mode: a block page, its handling without an exception, and
      the page still mentions captcha or robot after the pause. */
  predicate ManualUnsolved(o: Attempt, manual: bool) {
    o.Loaded? && manual && Blocked(o.firstScan) && o.blockHandlingOk && StillBlocked(o.recheck)
  }

  /** Automatic mode: a block page whose screenshot was taken without an
      exception. */
  predicate AutoBlocked(o: Attempt, manual: bool) {
    o.Loaded? && !manual && Blocked(o.firstScan) && o.blockHandlingOk
  }

  /** How one session went, as far as the retry loop is concerned. */
  datatype Verdict =
    | StartFailed                // Playwright did not start; no proxy was drawn
    | SessionFailed              // an exception escaped the started session
    | CaptchaUnsolved            // manual mode: still blocked after the pause
    | CaptchaBlocked             // automatic mode: block page, screenshot saved
    | TableFound(page: string)   // the job table is on the page
    | NoTable(page: string)      // the page loaded without the job table

  /** The body of the attempt loop up to its decision. A block page whose
      screenshot fails, and a manually solved captcha, fall through to the
      table check like an unblocked page. */
  function Classify(o: Attempt, manual: bool): (v: Verdict)
    ensures v == StartFailed <==> o.NotStarted?
    ensures v == SessionFailed <==> o.Crashed?
    ensures v == CaptchaUnsolved <==> ManualUnsolved(o, manual)
    ensures v == CaptchaBlocked <==> AutoBlocked(o, manual)
    ensures v.TableFound? ==> o.Loaded? && HasJobsboard(o.doc) && v.page == o.content
    ensures v.NoTable? ==> o.Loaded? && !HasJobsboard(o.doc) && v.page == o.content
    ensures o.Loaded? && !ManualUnsolved(o, manual) && !AutoBlocked(o, manual) ==>
      v == if HasJobsboard(o.doc) then TableFound(o.content) else NoTable(o.content)
  {
    match o
    case NotStarted => StartFailed
    case Crashed => SessionFailed
    case Loaded(first, shotOk, recheck, doc, content) =>
      if Blocked(first) && manual && shotOk && StillBlocked(recheck) then CaptchaUnsolved
      else if Blocked(first) && !manual && shotOk then CaptchaBlocked
      else if HasJobsboard(doc) then TableFound(content)
      else NoTable(content)
  }

  /** How one attempt ends: the loop returns, or it goes round again,
      possibly switching proxy use. */
  datatype Step = Finish(content: Option<string>) | Again(toggle: bool)

  /** The loop's decision on a session, `last` telling whether it was the
      final attempt: a found table returns the page at once, a missing
      table or an automatic captcha block flips proxy use and retries
      (the last attempt returns the page, or nothing after a block), an
      unsolved manual captcha retries without flipping, and a failed
      session retries until the last attempt. */
  function AttemptStep(v: Verdict, last: bool): (s: Step)
    ensures s.Finish? && s.content.Some? ==> (v.TableFound? || (v.NoTable? && last)) && s.content.value == v.page
    ensures s.Finish? && s.content.None? ==> last && (v == StartFailed || v == SessionFailed || v == CaptchaBlocked)
    ensures s == Again(true) ==> !last && (v.NoTable? || v == CaptchaBlocked)
    ensures s == Again(false) ==> v == CaptchaUnsolved || (!last && (v == StartFailed || v == SessionFailed))
  {
    match v
    case StartFailed => if last then Finish(None) else Again(false)
    case SessionFailed => if last then Finish(None) else Again(false)
    case CaptchaUnsolved => Again(false)
    case CaptchaBlocked => if last then Finish(None) else Again(true)
    case TableFound(page) => Finish(Some(page))
    case NoTable(page) => if last then Finish(Some(page)) else Again(true)
  }

  /** The outcome of the attempt loop: the content returned, how many
      attempts were made, the proxies drawn (one per proxied attempt in
      which Playwright started) and the proxy pool afterwards. */
  datatype Fetch = Fetch(content: Option<string>, attempts: nat, drawn: seq<Option<string>>, pool: ProxyPool)

  /** An attempt calls `get_proxy` when it is proxied and Playwright
      started: the draw sits inside the `with sync_playwright()` block. */
  predicate TakesProxy(v: Verdict, useProxy: bool) {
    useProxy && v != StartFailed
  }

  /** `run_playwright` over the sessions still to come: `vs[0]` is the
      current one, and it is the last when no other is left. Content is
      returned only from a session that found the table, or from the last
      session. */
  function Run(vs: seq<Verdict>, useProxy: bool, pool: ProxyPool): (r: Fetch)
    requires vs != [] && ValidPool(pool)
    ensures 0 < r.attempts <= |vs|
    ensures |r.drawn| <= r.attempts
    ensures ValidPool(r.pool)
    ensures r.content.Some? ==>
      && (vs[r.attempts - 1].TableFound? || (vs[r.attempts - 1].NoTable? && r.attempts == |vs|))
      && r.content.value == vs[r.attempts - 1].page
    decreases |vs|
  {
    var step := if TakesProxy(vs[0], useProxy) then GetProxy(pool) else (None, pool);
    var pool' := step.1;
    var drawn := if TakesProxy(vs[0], useProxy) then [step.0] else [];
    match AttemptStep(vs[0], |vs| == 1)
    case Finish(c) => Fetch(c, 1, drawn, pool')
    case Again(toggle) =>
      if |vs| == 1 then Fetch(None, 1, drawn, pool')
      else
        var rest := Run(vs[1..], if toggle then !useProxy else useProxy, pool');
        assert rest.content.Some? ==> vs[1..][rest.attempts - 1] == vs[rest.attempts];
        Fetch(rest.content, rest.attempts + 1, drawn + rest.drawn, rest.pool)
  }

  /** A session that asks for another one: the loop continues with the
      remaining sessions, with proxy use flipped when the step says so, and
      this session's proxy (if any) heads the proxies drawn. */
  lemma RunAgain(vs: seq<Verdict>, useProxy: bool, pool: ProxyPool, toggle: bool)
    requires |vs| > 1 && ValidPool(pool)
    requires AttemptStep(vs[0], false) == Again(toggle)
    ensures var pool' := if TakesProxy(vs[0], useProxy) then GetProxy(pool).1 else pool;
      var rest := Run(vs[1..], if toggle then !useProxy else useProxy, pool');
      Run(vs, useProxy, pool) ==
        Fetch(rest.content, rest.attempts + 1, (if TakesProxy(vs[0], useProxy) then [GetProxy(pool).0] else []) + rest.drawn, rest.pool)
  {
  }

  /** Every session before the one that ended the loop asked for another
      attempt; in particular none of them found the job table. */
  lemma {:induction false} EarlierSessionsContinued(vs: seq<Verdict>, useProxy: bool, pool: ProxyPool, i: nat)
    requires vs != [] && ValidPool(pool)
    requires i < Run(vs, useProxy, pool).attempts - 1
    ensures AttemptStep(vs[i], false).Again? && !vs[i].TableFound?
    decreases |vs|
  {
    var pool' := if TakesProxy(vs[0], useProxy) then GetProxy(pool).1 else pool;
    match AttemptStep(vs[0], |vs| == 1)
    case Again(toggle) =>
      if i > 0 {
        EarlierSessionsContinued(vs[1..], if toggle then !useProxy else useProxy, pool', i - 1);
      }
  }

  /** A session that ends the loop: its result is returned after one
      attempt. */
  lemma RunFinish(vs: seq<Verdict>, useProxy: bool, pool: ProxyPool, c: Option<string>)
    requires vs != [] && ValidPool(pool)
    requires AttemptStep(vs[0], |vs| == 1) == Finish(c)
    ensures var r := Run(vs, useProxy, pool);
      && r.content == c && r.attempts == 1
      && r.drawn == (if TakesProxy(vs[0], useProxy) then [GetProxy(pool).0] else [])
  {
  }

  /** The proxies the loop draws are successive `get_proxy` results, one
      per proxied attempt in which Playwright started, and the pool ends where those draws leave it. */
  lemma {:induction false} RunDraws(vs: seq<Verdict>, useProxy: bool, pool: ProxyPool)
    requires vs != [] && ValidPool(pool)
    ensures var r := Run(vs, useProxy, pool);
      (r.drawn, r.pool) == Draws(pool, |r.drawn|)
    decreases |vs|
  {
    DrawsStep(pool, 0);
    match AttemptStep(vs[0], |vs| == 1)
    case Finish(_) =>
    case Again(toggle) =>
      if |vs| > 1 {
        var pool' := if TakesProxy(vs[0], useProxy) then GetProxy(pool).1 else pool;
        var rest := Run(vs[1..], if toggle then !useProxy else useProxy, pool');
        RunDraws(vs[1..], if toggle then !useProxy else useProxy, pool');
        DrawsStep(pool, |rest.drawn|);
        var none: seq<Option<string>> := [];
        assert none + rest.drawn == rest.drawn;
      }
  }

  const DefaultRetryCount: nat := 2

  /** The verdicts on the first `n` sessions. */
  function Verdicts(outcome: nat -> Attempt, manual: bool, n: nat): (vs: seq<Verdict>)
    ensures |vs| == n
    ensures forall i :: 0 <= i < n ==> vs[i] == Classify(outcome(i), manual)
  {
    seq(n, i requires 0 <= i => Classify(outcome(i), manual))
  }

  /** `run_playwright(url, use_proxy=..., manual_captcha=...)` with the
      default retry count, `outcome(i)` being what session `i` observed:
      at most three sessions, and content is returned only from a page
      that showed the job table or from the last session. */
  function RunPlaywright(outcome: nat -> Attempt, useProxy: bool, manual: bool, pool: ProxyPool): (r: Fetch)
    requires ValidPool(pool)
    ensures 1 <= r.attempts <= DefaultRetryCount + 1
    ensures ValidPool(r.pool) && (r.drawn, r.pool) == Draws(pool, |r.drawn|)
    ensures r.content.Some? ==>
      && outcome(r.attempts - 1).Loaded?
      && r.content.value == outcome(r.attempts - 1).content
      && (HasJobsboard(outcome(r.attempts - 1).doc) || r.attempts == DefaultRetryCount + 1)
      && !AutoBlocked(outcome(r.attempts - 1), manual) && !ManualUnsolved(outcome(r.attempts - 1), manual)
  {
    var vs := Verdicts(outcome, manual, DefaultRetryCount + 1);
    RunDraws(vs, useProxy, pool);
    var r := Run(vs, useProxy, pool);
    if r.content.Some? then
      assert vs[r.attempts - 1] == Classify(outcome(r.attempts - 1), manual);
      ReturnedVerdict(outcome(r.attempts - 1), manual);
      r
    else r
  }

  /** A session whose verdict can end the loop with content loaded a page
      that was neither an unsolved nor an automatic captcha block. */
  lemma ReturnedVerdict(o: Attempt, manual: bool)
    requires Classify(o, manual).TableFound? || Classify(o, manual).NoTable?
    ensures o.Loaded? && Classify(o, manual).page == o.content
    ensures !AutoBlocked(o, manual) && !ManualUnsolved(o, manual)
    ensures Classify(o, manual).TableFound? <==> HasJobsboard(o.doc)
  {
  }

  /** When every session meets a block page in automatic mode, the loop
      flips proxy use after each, makes every attempt and returns nothing. */
  lemma {:induction false} AllBlocked(vs: seq<Verdict>, useProxy: bool, pool: ProxyPool)
    requires vs != [] && ValidPool(pool)
    requires forall i :: 0 <= i < |vs| ==> vs[i] == CaptchaBlocked
    ensures var r := Run(vs, useProxy, pool);
      && r.content.None? && r.attempts == |vs|
      && |r.drawn| == Alternations(|vs|, useProxy)
    decreases |vs|
  {
    assert vs[0] == CaptchaBlocked;
    if |vs| > 1 {
      var pool' := if TakesProxy(vs[0], useProxy) then GetProxy(pool).1 else pool;
      RunAgain(vs, useProxy, pool, true);
      AllBlocked(vs[1..], !useProxy, pool');
    } else {
      RunFinish(vs, useProxy, pool, None);
    }
  }

  /** `run_playwright` in automatic mode when every session shows a block
      page and its screenshot is taken: three attempts and no content. */
  lemma AlwaysBlocked(outcome: nat -> Attempt, useProxy: bool, pool: ProxyPool)
    requires ValidPool(pool)
    requires forall i :: 0 <= i <= DefaultRetryCount ==> AutoBlocked(outcome(i), false)
    ensures var r := RunPlaywright(outcome, useProxy, false, pool);
      && r.content.None? && r.attempts == DefaultRetryCount + 1
      && |r.drawn| == (if useProxy then 2 else 1)
  {
    AllBlocked(Verdicts(outcome, false, DefaultRetryCount + 1), useProxy, pool);
    AlternationsHalf(DefaultRetryCount + 1, useProxy);
  }

  /** When every started session fails, the loop makes every attempt, returns no
      content, and (failures never switching proxy use) draws a proxy on
      every attempt or on none. */
  lemma {:induction false} AllFailed(vs: seq<Verdict>, useProxy: bool, pool: ProxyPool)
    requires vs != [] && ValidPool(pool)
    requires forall i :: 0 <= i < |vs| ==> vs[i] == SessionFailed
    ensures var r := Run(vs, useProxy, pool);
      && r.content.None? && r.attempts == |vs|
      && |r.drawn| == (if useProxy then |vs| else 0)
    decreases |vs|
  {
    assert vs[0] == SessionFailed;
    if |vs| > 1 {
      var pool' := if TakesProxy(vs[0], useProxy) then GetProxy(pool).1 else pool;
      RunAgain(vs, useProxy, pool, false);
      AllFailed(vs[1..], useProxy, pool');
    } else {
      RunFinish(vs, useProxy, pool, None);
    }
  }

  /** `run_playwright` when every session crashes after Playwright
      started: three attempts, no content, and three proxies drawn exactly
      when it started proxied. */
  lemma AllCrashed(outcome: nat -> Attempt, useProxy: bool, manual: bool, pool: ProxyPool)
    requires ValidPool(pool)
    requires forall i :: 0 <= i <= DefaultRetryCount ==> outcome(i).Crashed?
    ensures var r := RunPlaywright(outcome, useProxy, manual, pool);
      && r.content.None? && r.attempts == DefaultRetryCount + 1
      && |r.drawn| == (if useProxy then DefaultRetryCount + 1 else 0)
  {
    AllFailed(Verdicts(outcome, manual, DefaultRetryCount + 1), useProxy, pool);
  }

  /** How many of the sessions got Playwright started. */
  function Started(vs: seq<Verdict>): (n: nat)
    ensures n <= |vs|
  {
    if vs == [] then 0 else (if vs[0] == StartFailed then 0 else 1) + Started(vs[1..])
  }

  /** When every session fails, whether Playwright started or not, the
      loop makes every attempt and returns nothing; failures never switch
      proxy use, so a proxied loop draws one proxy per session that started
      and a direct one draws none. */
  lemma {:induction false} FailedDraws(vs: seq<Verdict>, useProxy: bool, pool: ProxyPool)
    requires vs != [] && ValidPool(pool)
    requires forall i :: 0 <= i < |vs| ==> vs[i] == StartFailed || vs[i] == SessionFailed
    ensures var r := Run(vs, useProxy, pool);
      && r.content.None? && r.attempts == |vs|
      && |r.drawn| == (if useProxy then Started(vs) else 0)
    decreases |vs|
  {
    assert vs[0] == StartFailed || vs[0] == SessionFailed;
    if |vs| > 1 {
      var pool' := if TakesProxy(vs[0], useProxy) then GetProxy(pool).1 else pool;
      RunAgain(vs, useProxy, pool, false);
      FailedDraws(vs[1..], useProxy, pool');
    } else {
      RunFinish(vs, useProxy, pool, None);
    }
  }

  /** When Playwright never starts, no proxy is drawn and the rotation
      does not move, whatever the proxy setting. */
  lemma {:induction false} NeverStartedRun(vs: seq<Verdict>, useProxy: bool, pool: ProxyPool)
    requires vs != [] && ValidPool(pool)
    requires forall i :: 0 <= i < |vs| ==> vs[i] == StartFailed
    ensures var r := Run(vs, useProxy, pool);
      && r.content.None? && r.attempts == |vs| && r.drawn == [] && r.pool == pool
    decreases |vs|
  {
    assert vs[0] == StartFailed;
    if |vs| > 1 {
      RunAgain(vs, useProxy, pool, false);
      NeverStartedRun(vs[1..], useProxy, pool);
    } else {
      RunFinish(vs, useProxy, pool, None);
    }
  }

  /** `run_playwright` when Playwright fails to start on every attempt:
      three attempts, no content, and the proxy rotation untouched even
      when it was asked to use a proxy. */
  lemma NeverStarted(outcome: nat -> Attempt, useProxy: bool, manual: bool, pool: ProxyPool)
    requires ValidPool(pool)
    requires forall i :: 0 <= i <= DefaultRetryCount ==> outcome(i).NotStarted?
    ensures var r := RunPlaywright(outcome, useProxy, manual, pool);
      && r.content.None? && r.attempts == DefaultRetryCount + 1
      && r.drawn == [] && r.pool == pool
  {
    NeverStartedRun(Verdicts(outcome, manual, DefaultRetryCount + 1), useProxy, pool);
  }

  /** How many of `m` attempts are proxied when proxy use flips after each,
      the first being proxied when `startOn`. */
  function Alternations(m: nat, startOn: bool): nat {
    if m == 0 then 0 else (if startOn then 1 else 0) + Alternations(m - 1, !startOn)
  }

  /** Flipping after every attempt proxies half of them, rounding up when
      the first attempt is proxied. */
  lemma {:induction false} AlternationsHalf(m: nat, startOn: bool)
    ensures Alternations(m, startOn) == if startOn then (m + 1) / 2 else m / 2
  {
    if m > 0 {
      AlternationsHalf(m - 1, !startOn);
    }
  }

  /** When no session finds the job table, the loop flips proxy use after
      every attempt: it makes every attempt, proxies every other one, and
      returns the last page. */
  lemma {:induction false} NeverFound(vs: seq<Verdict>, useProxy: bool, pool: ProxyPool)
    requires vs != [] && ValidPool(pool)
    requires forall i :: 0 <= i < |vs| ==> vs[i].NoTable?
    ensures var r := Run(vs, useProxy, pool);
      && r.attempts == |vs|
      && r.content == Some(vs[|vs| - 1].page)
      && |r.drawn| == Alternations(|vs|, useProxy)
    decreases |vs|
  {
    assert vs[0].NoTable?;
    if |vs| > 1 {
      var pool' := if TakesProxy(vs[0], useProxy) then GetProxy(pool).1 else pool;
      RunAgain(vs, useProxy, pool, true);
      NeverFound(vs[1..], !useProxy, pool');
    } else {
      RunFinish(vs, useProxy, pool, Some(vs[0].page));
    }
  }

  /** `run_playwright` on pages that are never blocked but never show the
      job table: three attempts, the last page returned, and two proxies
      drawn when it started proxied, one otherwise. */
  lemma TableNeverFound(outcome: nat -> Attempt, useProxy: bool, manual: bool, pool: ProxyPool)
    requires ValidPool(pool)
    requires forall i :: 0 <= i <= DefaultRetryCount ==>
      outcome(i).Loaded? && !Blocked(outcome(i).firstScan) && !HasJobsboard(outcome(i).doc)
    ensures var r := RunPlaywright(outcome, useProxy, manual, pool);
      && r.attempts == DefaultRetryCount + 1
      && r.content == Some(outcome(DefaultRetryCount).content)
      && |r.drawn| == (if useProxy then 2 else 1)
  {
    var vs := Verdicts(outcome, manual, DefaultRetryCount + 1);
    NeverFound(vs, useProxy, pool);
    AlternationsHalf(DefaultRetryCount + 1, useProxy);
  }

  /** A failed fetch: no content, or empty content. */
  predicate Empty(c: Option<string>) {
    c.None? || c.value == ""
  }

  /** The sessions of one call of `run_playwright`: `browse(run, attempt)`
      is what the browser observed in the given call and attempt. */
  function Sessions(browse: (nat, nat) -> Attempt, run: nat): nat -> Attempt {
    (a: nat) => browse(run, a)
  }

  /** The first fetch of `scrape_keyword`, without a proxy. */
  function DirectFetch(browse: (nat, nat) -> Attempt, manual: bool, pool: ProxyPool): Fetch
    requires ValidPool(pool)
  {
    RunPlaywright(Sessions(browse, 0), false, manual, pool)
  }

  /** A direct fetch from `pool` followed by a proxied one from where it
      left the rotation: the second fetch's content, with the attempts and
      proxies of both. */
  function ThenProxied(pool: ProxyPool, direct: Fetch, proxied: Fetch): (r: Fetch)
    requires ValidPool(pool) && (direct.drawn, direct.pool) == Draws(pool, |direct.drawn|)
    requires (proxied.drawn, proxied.pool) == Draws(direct.pool, |proxied.drawn|)
    ensures (r.drawn, r.pool) == Draws(pool, |r.drawn|)
    ensures r.content == proxied.content
    ensures r.attempts == direct.attempts + proxied.attempts
    ensures r.drawn == direct.drawn + proxied.drawn
  {
    DrawsCompose(pool, |direct.drawn|, |proxied.drawn|);
    Fetch(proxied.content, direct.attempts + proxied.attempts, direct.drawn + proxied.drawn, proxied.pool)
  }

  /** The two fetches of `scrape_keyword`: first without a proxy, then, only
      if that produced nothing, with one, starting from where the first
      left the rotation. */
  function FetchPage(browse: (nat, nat) -> Attempt, manual: bool, pool: ProxyPool): (r: Fetch)
    requires ValidPool(pool)
    ensures ValidPool(r.pool) && (r.drawn, r.pool) == Draws(pool, |r.drawn|)
    ensures r.attempts <= 2 * (DefaultRetryCount + 1)
    ensures !Empty(DirectFetch(browse, manual, pool).content) ==> r == DirectFetch(browse, manual, pool)
    ensures Empty(DirectFetch(browse, manual, pool).content) ==>
      var direct := DirectFetch(browse, manual, pool);
      var proxied := RunPlaywright(Sessions(browse, 1), true, manual, direct.pool);
      && r.content == proxied.content
      && r.attempts == direct.attempts + proxied.attempts
      && r.drawn == direct.drawn + proxied.drawn
  {
    var direct := DirectFetch(browse, manual, pool);
    if !Empty(direct.content) then direct
    else ThenProxied(pool, direct, RunPlaywright(Sessions(browse, 1), true, manual, direct.pool))
  }

  /** Fetched content is what some session of one of the two runs read
      last, on a page that was neither an unsolved nor an automatic
      captcha block. */
  lemma FetchedContentOrigin(browse: (nat, nat) -> Attempt, manual: bool, pool: ProxyPool)
    requires ValidPool(pool)
    requires FetchPage(browse, manual, pool).content.Some?
    ensures exists run: nat, a: nat :: && run <= 1 && a <= DefaultRetryCount && browse(run, a).Loaded?
                                       && FetchPage(browse, manual, pool).content.value == browse(run, a).content
                                       && !AutoBlocked(browse(run, a), manual) && !ManualUnsolved(browse(run, a), manual)
  {
    var direct := DirectFetch(browse, manual, pool);
    var run: nat := if !Empty(direct.content) then 0 else 1;
    var f := RunPlaywright(Sessions(browse, run), run == 1, manual, if run == 0 then pool else direct.pool);
    assert f.content == FetchPage(browse, manual, pool).content;
    assert Sessions(browse, run)(f.attempts - 1) == browse(run, f.attempts - 1);
  }

  /** Without flipping, a loop that starts direct draws no proxy. */
  lemma {:induction false} NoToggleNoDraw(vs: seq<Verdict>, pool: ProxyPool)
    requires vs != [] && ValidPool(pool)
    requires forall i :: 0 <= i < |vs| ==> vs[i] == StartFailed || vs[i] == SessionFailed || vs[i].TableFound?
    ensures Run(vs, false, pool).drawn == []
    ensures Run(vs, false, pool).pool == pool
    decreases |vs|
  {
    if |vs| > 1 && (vs[0] == StartFailed || vs[0] == SessionFailed) {
      RunAgain(vs, false, pool, false);
      NoToggleNoDraw(vs[1..], pool);
    }
  }

  /** The direct fetch draws no proxy when no session is blocked and every
      loaded page shows the job table: only the proxied retry moves the
      rotation, so such a direct fetch leaves the pool untouched. */
  lemma DirectFetchDrawsNothing(outcome: nat -> Attempt, manual: bool, pool: ProxyPool)
    requires ValidPool(pool)
    requires forall i :: 0 <= i <= DefaultRetryCount ==>
      outcome(i).NotStarted? || outcome(i).Crashed? || (!Blocked(outcome(i).firstScan) && HasJobsboard(outcome(i).doc))
    ensures RunPlaywright(outcome, false, manual, pool).drawn == []
    ensures RunPlaywright(outcome, false, manual, pool).pool == pool
  {
    NoToggleNoDraw(Verdicts(outcome, manual, DefaultRetryCount + 1), pool);
  }

  /* ---------------------------------------------------------------- */
  /* Finding the job rows                                              */
  /* ---------------------------------------------------------------- */

  /** `len(table.find_all('tr'))`. */
  function RowCount(t: Node): nat {
    |FindAll(t, Tag("tr"))|
  }

  /** The fallback table scan from table `i` on, over the tables' row
      counts: keeps the index of the first table with strictly more rows
      than any before it, starting from a maximum of `best`. */
  function MaxFrom(counts: seq<nat>, i: nat, best: nat, chosen: Option<nat>): (r: Option<nat>)
    requires i <= |counts|
    requires chosen.None? ==> best == 0
    requires chosen.Some? ==> chosen.value < i && best > 0 && counts[chosen.value] == best
    requires chosen.Some? ==> forall j :: 0 <= j < chosen.value ==> counts[j] < best
    requires forall j :: 0 <= j < i ==> counts[j] <= best
    ensures r.None? <==> forall j :: 0 <= j < |counts| ==> counts[j] == 0
    ensures r.Some? ==> r.value < |counts| && counts[r.value] > 0
    ensures r.Some? ==> forall j :: 0 <= j < r.value ==> counts[j] < counts[r.value]
    ensures r.Some? ==> forall j :: 0 <= j < |counts| ==> counts[j] <= counts[r.value]
    decreases |counts| - i
  {
    if i == |counts| then chosen
    else if counts[i] > best then MaxFrom(counts, i + 1, counts[i], Some(i))
    else MaxFrom(counts, i + 1, best, chosen)
  }

  function RowCounts(tables: seq<Node>): (counts: seq<nat>)
    ensures |counts| == |tables|
    ensures forall i :: 0 <= i < |tables| ==> counts[i] == RowCount(tables[i])
  {
    seq(|tables|, i requires 0 <= i < |tables| => RowCount(tables[i]))
  }

  /** The table with the most rows, the first one on ties; none when no
      table has a row. */
  function MostRows(tables: seq<Node>): (r: Option<Node>)
    ensures r.None? <==> forall i :: 0 <= i < |tables| ==> RowCount(tables[i]) == 0
    ensures r.Some? ==> (exists i ::
      && 0 <= i < |tables| && tables[i] == r.value && RowCount(r.value) > 0
      && (forall j :: 0 <= j < i ==> RowCount(tables[j]) < RowCount(r.value))
      && (forall j :: 0 <= j < |tables| ==> RowCount(tables[j]) <= RowCount(r.value)))
  {
    var counts := RowCounts(tables);
    match MaxFrom(counts, 0, 0, None)
    case Some(k) => Some(tables[k])
    case None => None
  }

  /** The job table: the table with id "jobsboard", else the table with
      the most rows. */
  function Board(doc: Node): (b: Option<Node>)
    ensures HasJobsboard(doc) ==> b == Find(doc, JobsboardSelector)
    ensures !HasJobsboard(doc) ==> b == MostRows(FindAll(doc, Tag("table")))
    ensures b.None? ==> !HasJobsboard(doc)
  {
    match Find(doc, JobsboardSelector)
    case Some(t) => Some(t)
    case None => MostRows(FindAll(doc, Tag("table")))
  }

  predicate IsAd(row: Node) {
    HasClass(row, "sw-insert")
  }

  /** The filter applied to the rows of a found table. */
  predicate KeepRow(row: Node) {
    HasClass(row, "job") || IsAd(row) || HasAttr(row, "data-id") || HasAttr(row, "data-slug")
  }

  predicate HasIdOrSlug(row: Node) {
    HasAttr(row, "data-id") || HasAttr(row, "data-slug")
  }

  /** The rows to extract: the filtered rows of the board; without a
      board, the `tr.job` rows of the page, or failing those its rows with
      a data-id or data-slug. */
  function JobRows(doc: Node): (rows: seq<Node>)
    ensures forall row :: row in rows ==> Matches(row, Tag("tr")) && KeepRow(row)
    ensures Board(doc).Some? ==>
      forall row :: row in rows <==> row in FindAll(Board(doc).value, Tag("tr")) && KeepRow(row)
    ensures Board(doc).None? && FindAll(doc, TagClass("tr", "job")) != [] ==>
      rows == FindAll(doc, TagClass("tr", "job"))
    ensures Board(doc).None? && FindAll(doc, TagClass("tr", "job")) == [] ==>
      forall row :: row in rows <==> row in FindAll(doc, Tag("tr")) && HasIdOrSlug(row)
  {
    match Board(doc)
    case Some(b) => Filter(KeepRow, FindAll(b, Tag("tr")))
    case None =>
      var jobs := FindAll(doc, TagClass("tr", "job"));
      if jobs != [] then jobs
      else Filter(HasIdOrSlug, FindAll(doc, Tag("tr")))
  }

  /* ---------------------------------------------------------------- */
  /* Extracting one row                                                */
  /* ---------------------------------------------------------------- */

  const SiteRoot: string := "https://remoteok.com"
  const JobsPrefix: string := "https://remoteok.com/remote-jobs/"

  /** An ad's link: the first anchor's href, made absolute when relative. */
  function AdUrl(anchor: Option<Node>): (url: string)
    ensures url == "" <==> anchor.None? || !HasAttr(anchor.value, "href")
    ensures url != "" ==> StartsWith(url, "http")
    ensures anchor.Some? && StartsWith(Attr(anchor.value, "href"), "http") ==> url == Attr(anchor.value, "href")
    ensures anchor.Some? && HasAttr(anchor.value, "href") && !StartsWith(Attr(anchor.value, "href"), "http") ==>
      url == SiteRoot + Attr(anchor.value, "href")
  {
    var href := if anchor.Some? then Attr(anchor.value, "href") else "";
    if href != "" && !StartsWith(href, "http") then SiteRoot + href else href
  }

  /** The row's link: an ad's anchor, or the job page named by data-slug,
      or failing that by data-id; "" when there is none. */
  function RowUrl(row: Node): (url: string)
    ensures url != "" ==> StartsWith(url, "http")
    ensures IsAd(row) ==> url == AdUrl(Find(row, Tag("a")))
    ensures !IsAd(row) ==> (url == "" <==> !HasIdOrSlug(row))
    ensures !IsAd(row) && HasAttr(row, "data-slug") ==> url == JobsPrefix + Attr(row, "data-slug")
    ensures !IsAd(row) && !HasAttr(row, "data-slug") && HasAttr(row, "data-id") ==> url == JobsPrefix + Attr(row, "data-id")
  {
    if IsAd(row) then AdUrl(Find(row, Tag("a")))
    else if HasAttr(row, "data-slug") then JobsPrefix + Attr(row, "data-slug")
    else if HasAttr(row, "data-id") then JobsPrefix + Attr(row, "data-id")
    else ""
  }

  const CellSelector: Selector := TagClass("td", "company_and_position")
  const CellFallback: Selector := TagClassList("td", ["company", "position", "company_and_position"])

  /** The company/position cell, with the second lookup the scraper makes. */
  function CompanyCell(row: Node): (c: Option<Node>)
    ensures c.Some? ==> Matches(c.value, CellSelector) || Matches(c.value, CellFallback)
  {
    match Find(row, CellSelector)
    case Some(c) => Some(c)
    case None => Find(row, CellFallback)
  }

  /** The second lookup never finds anything the first missed: a cell whose
      class list is exactly "company position company_and_position" also
      has the class company_and_position. */
  lemma CellFallbackUnreachable(row: Node)
    ensures CompanyCell(row) == Find(row, CellSelector)
  {
    if Find(row, CellFallback).Some? {
      var m := Find(row, CellFallback).value;
      assert m.classes[2] == "company_and_position";
      assert Matches(m, CellSelector);
    }
  }

  /** The stripped text of an element, or `default` when there is none. */
  function TextOr(n: Option<Node>, default: string): (s: string)
    requires IsStripped(default)
    ensures IsStripped(s)
    ensures n.None? ==> s == default
    ensures n.Some? ==> s == Strip(TextOf(n.value))
  {
    if n.Some? then Strip(TextOf(n.value)) else default
  }

  const AdTitleDefault: string := "광고"
  const TitleDefault: string := "제목 없음"
  const AdCompanyDefault: string := "광고주"
  const CompanyDefault: string := "회사명 없음"
  const LocationDefault: string := "정보 없음"
  const SalaryMark: char := '💰'

  /** An ad's title: the first strong element's text, else the first
      anchor's, else a placeholder. */
  function AdTitle(cell: Node): (s: string)
    ensures IsStripped(s)
    ensures Find(cell, Tag("strong")).Some? ==> s == Strip(TextOf(Find(cell, Tag("strong")).value))
    ensures Find(cell, Tag("strong")).None? && Find(cell, Tag("a")).Some? ==>
      s == Strip(TextOf(Find(cell, Tag("a")).value))
    ensures Find(cell, Tag("strong")).None? && Find(cell, Tag("a")).None? ==> s == AdTitleDefault
  {
    var strong := Find(cell, Tag("strong"));
    TextOr(if strong.Some? then strong else Find(cell, Tag("a")), AdTitleDefault)
  }

  /** A listing's title: the `h2` with itemprop "title", else "제목 없음". */
  function JobTitle(cell: Node): (s: string)
    ensures IsStripped(s)
    ensures Find(cell, TagAttr("h2", "itemprop", "title")).Some? ==>
      s == Strip(TextOf(Find(cell, TagAttr("h2", "itemprop", "title")).value))
    ensures Find(cell, TagAttr("h2", "itemprop", "title")).None? ==> s == TitleDefault
  {
    TextOr(Find(cell, TagAttr("h2", "itemprop", "title")), TitleDefault)
  }

  /** An ad's company: the second anchor's text, else the first span's. */
  function AdCompany(cell: Node): (s: string)
    ensures IsStripped(s)
    ensures |FindAll(cell, Tag("a"))| > 1 ==> s == Strip(TextOf(FindAll(cell, Tag("a"))[1]))
    ensures |FindAll(cell, Tag("a"))| <= 1 && Find(cell, Tag("span")).Some? ==>
      s == Strip(TextOf(Find(cell, Tag("span")).value))
    ensures |FindAll(cell, Tag("a"))| <= 1 && Find(cell, Tag("span")).None? ==> s == AdCompanyDefault
  {
    var anchors := FindAll(cell, Tag("a"));
    if |anchors| > 1 then Strip(TextOf(anchors[1]))
    else TextOr(Find(cell, Tag("span")), AdCompanyDefault)
  }

  /** A listing's company: the `h3` with itemprop "name", else "회사명 없음". */
  function JobCompany(cell: Node): (s: string)
    ensures IsStripped(s)
    ensures Find(cell, TagAttr("h3", "itemprop", "name")).Some? ==>
      s == Strip(TextOf(Find(cell, TagAttr("h3", "itemprop", "name")).value))
    ensures Find(cell, TagAttr("h3", "itemprop", "name")).None? ==> s == CompanyDefault
  {
    TextOr(Find(cell, TagAttr("h3", "itemprop", "name")), CompanyDefault)
  }

  /** The first location element's stripped text, unless empty; "정보 없음"
      when there is no location element or its text is blank. */
  function Location(cell: Node): (s: string)
    ensures IsStripped(s) && s != ""
    ensures var locs := FindAll(cell, TagClass("div", "location"));
      locs != [] && Strip(TextOf(locs[0])) != "" ==> s == Strip(TextOf(locs[0]))
    ensures var locs := FindAll(cell, TagClass("div", "location"));
      locs == [] || Strip(TextOf(locs[0])) == "" ==> s == LocationDefault
  {
    var locs := FindAll(cell, TagClass("div", "location"));
    var t := if locs == [] then "" else Strip(TextOf(locs[0]));
    LocationDefaultStripped();
    if t != "" then t else LocationDefault
  }

  lemma LocationDefaultStripped()
    ensures IsStripped(LocationDefault) && LocationDefault != ""
  {
    assert LocationDefault[0] == '정' && LocationDefault[|LocationDefault| - 1] == '음';
  }

  /** The stripped text of the first location element showing the money
      bag, or "" when none does. */
  function SalaryOf(locs: seq<Node>): (s: string)
    ensures s == "" || SalaryMark in s
    ensures s != "" <==> exists i :: 0 <= i < |locs| && SalaryMark in TextOf(locs[i])
    ensures s != "" ==> exists i :: && 0 <= i < |locs| && SalaryMark in TextOf(locs[i])
                                    && s == Strip(TextOf(locs[i]))
                                    && forall j :: 0 <= j < i ==> SalaryMark !in TextOf(locs[j])
  {
    if locs == [] then ""
    else if SalaryMark in TextOf(locs[0]) then
      StripKeeps(TextOf(locs[0]), SalaryMark);
      Strip(TextOf(locs[0]))
    else
      var rest := SalaryOf(locs[1..]);
      assert forall i :: 1 <= i < |locs| ==> locs[i] == locs[1..][i - 1];
      rest
  }

  function TagText(tag: Node): (t: Option<string>)
    ensures t.Some? ==> IsStripped(t.value)
    ensures t.Some? <==> Find(tag, Tag("h3")).Some?
    ensures t.Some? ==> t.value == Strip(TextOf(Find(tag, Tag("h3")).value))
  {
    match Find(tag, Tag("h3"))
    case Some(h) => Some(Strip(TextOf(h)))
    case None => None
  }

  /** The stripped h3 text of every tag element that has an h3, in order. */
  function Tags(row: Node): (tags: seq<string>)
    ensures forall t :: t in tags ==> IsStripped(t)
    ensures Find(row, TagClass("td", "tags")).None? ==> tags == []
    ensures Find(row, TagClass("td", "tags")).Some? ==>
      forall t :: t in tags <==> exists x :: x in FindAll(Find(row, TagClass("td", "tags")).value, TagClass("div", "tag"))
                                          && TagText(x) == Some(t)
  {
    match Find(row, TagClass("td", "tags"))
    case None => []
    case Some(cell) =>
      var tags := FilterMap(TagText, FindAll(cell, TagClass("div", "tag")));
      forall t | t in tags
        ensures IsStripped(t)
      {
        var x :| x in FindAll(cell, TagClass("div", "tag")) && TagText(x) == Some(t);
      }
      forall x | x in FindAll(cell, TagClass("div", "tag")) && TagText(x).Some?
        ensures TagText(x).value in tags
      {
        FilterMapKeeps(TagText, FindAll(cell, TagClass("div", "tag")), x);
      }
      tags
  }

  /** The posting date: the formatted data-epoch, else the time element's
      text when formatting fails, else "". */
  function Posted(row: Node, formatEpoch: string -> Option<string>): (d: string)
    ensures !HasAttr(row, "data-epoch") ==> d == ""
    ensures HasAttr(row, "data-epoch") && formatEpoch(Attr(row, "data-epoch")).Some? ==>
      d == formatEpoch(Attr(row, "data-epoch")).value
    ensures HasAttr(row, "data-epoch") && formatEpoch(Attr(row, "data-epoch")).None? ==>
      d == if Find(row, Tag("time")).Some? then Strip(TextOf(Find(row, Tag("time")).value)) else ""
  {
    var epoch := Attr(row, "data-epoch");
    if epoch == "" then ""
    else
      match formatEpoch(epoch)
      case Some(date) => date
      case None => TextOr(Find(row, Tag("time")), "")
  }

  /** One row's record, or none when the row has no link or no
      company/position cell. */
  function ExtractRow(row: Node, formatEpoch: string -> Option<string>): (r: Option<RemoteOKJob>)
    ensures r.Some? <==> RowUrl(row) != "" && Find(row, CellSelector).Some?
    ensures !IsAd(row) ==> (r.Some? <==> HasIdOrSlug(row) && Find(row, CellSelector).Some?)
    ensures r.Some? ==> StartsWith(r.value.link, "http") && r.value.isAd == IsAd(row)
    ensures r.Some? ==> IsStripped(r.value.title) && IsStripped(r.value.companyName)
    ensures r.Some? ==> IsStripped(r.value.location) && r.value.location != ""
    ensures r.Some? ==> r.value.salary == NotSpecified || SalaryMark in r.value.salary
    ensures r.Some? && IsAd(row) ==>
      && r.value.location == LocationDefault && r.value.salary == NotSpecified
      && r.value.tags == [] && r.value.postedDate == ""
    ensures r.Some? ==> r.value.link == RowUrl(row)
    ensures r.Some? && IsAd(row) ==> r.value == AdJob(Find(row, CellSelector).value, RowUrl(row))
    ensures r.Some? && !IsAd(row) ==> r.value == ListingJob(row, Find(row, CellSelector).value, RowUrl(row), formatEpoch)
  {
    var url := RowUrl(row);
    CellFallbackUnreachable(row);
    if url == "" then None
    else
      match CompanyCell(row)
      case None => None
      case Some(cell) =>
        if IsAd(row) then Some(AdJob(cell, url)) else Some(ListingJob(row, cell, url, formatEpoch))
  }

  /** An ad's record: title and company from the cell, the default
      location, no salary, tags or date. */
  function AdJob(cell: Node, url: string): (j: RemoteOKJob)
    requires StartsWith(url, "http")
    ensures StartsWith(j.link, "http") && j.link == url && j.isAd
    ensures j.title == AdTitle(cell) && j.companyName == AdCompany(cell)
    ensures IsStripped(j.title) && IsStripped(j.companyName)
    ensures IsStripped(j.location) && j.location == LocationDefault
    ensures j.salary == NotSpecified && j.tags == [] && j.postedDate == ""
  {
    var title := AdTitle(cell);
    var company := AdCompany(cell);
    LocationDefaultStripped();
    NewRemoteOKJob(title, company, LocationDefault, url, "", [], "", true)
  }

  /** An ordinary listing's record: every field read from the row. */
  function ListingJob(row: Node, cell: Node, url: string, formatEpoch: string -> Option<string>): (j: RemoteOKJob)
    requires StartsWith(url, "http")
    ensures StartsWith(j.link, "http") && j.link == url && !j.isAd
    ensures j.title == JobTitle(cell) && j.companyName == JobCompany(cell) && j.location == Location(cell)
    ensures j.salary == SalaryOrDefault(SalaryOf(FindAll(cell, TagClass("div", "location"))))
    ensures j.tags == Tags(row) && j.postedDate == Posted(row, formatEpoch)
    ensures IsStripped(j.title) && IsStripped(j.companyName)
    ensures IsStripped(j.location) && j.location != ""
    ensures j.salary == NotSpecified || SalaryMark in j.salary
  {
    var title := JobTitle(cell);
    var company := JobCompany(cell);
    var location := Location(cell);
    var salary := SalaryOf(FindAll(cell, TagClass("div", "location")));
    NewRemoteOKJob(title, company, location, url, salary, Tags(row), Posted(row, formatEpoch), false)
  }

  /* ---------------------------------------------------------------- */
  /* scrape_keyword                                                    */
  /* ---------------------------------------------------------------- */

  /** Extraction then rendering of one row, with the corrected record. */
  function RenderRow(formatEpoch: string -> Option<string>): Node -> Option<seq<string>> {
    row => match ExtractRow(row, formatEpoch)
           case Some(j) => Some(RemoteOKToRow(j))
           case None => None
  }

  /** The shape every rendered row has: eight columns, an absolute link,
      the ad column either marked or blank, a salary given or "Not specified". */
  predicate RowShape(row: seq<string>) {
    && |row| == |RemoteOKHeaders|
    && StartsWith(row[3], "http")
    && (row[7] == AdMarker || row[7] == "")
    && (row[4] == NotSpecified || SalaryMark in row[4])
  }

  /** Any row the page renders has the shape of the CSV export. */
  lemma RenderedRowShape(formatEpoch: string -> Option<string>, x: Node)
    requires RenderRow(formatEpoch)(x).Some?
    ensures RowShape(RenderRow(formatEpoch)(x).value)
  {
    var j := ExtractRow(x, formatEpoch).value;
    assert RenderRow(formatEpoch)(x).value == RemoteOKToRow(j);
  }

  /** The rows of a fetched page, in page order: every job row that
      extracts contributes its rendered record. */
  function PageRows(doc: Node, formatEpoch: string -> Option<string>): (rows: seq<seq<string>>)
    ensures |rows| <= |JobRows(doc)|
    ensures forall row :: row in rows ==> RowShape(row)
    ensures forall x :: x in JobRows(doc) && ExtractRow(x, formatEpoch).Some? ==>
      RemoteOKToRow(ExtractRow(x, formatEpoch).value) in rows
  {
    var rows := FilterMap(RenderRow(formatEpoch), JobRows(doc));
    forall row | row in rows
      ensures RowShape(row)
    {
      var x :| x in JobRows(doc) && RenderRow(formatEpoch)(x) == Some(row);
      RenderedRowShape(formatEpoch, x);
    }
    forall x | x in JobRows(doc) && ExtractRow(x, formatEpoch).Some?
      ensures RemoteOKToRow(ExtractRow(x, formatEpoch).value) in rows
    {
      FilterMapKeeps(RenderRow(formatEpoch), JobRows(doc), x);
    }
    rows
  }

  /** A row is on the page exactly when some job row extracts to a record
      that renders as it. */
  lemma PageRowsAreExtractedRows(doc: Node, formatEpoch: string -> Option<string>, row: seq<string>)
    ensures row in PageRows(doc, formatEpoch) <==>
      exists x :: && x in JobRows(doc) && ExtractRow(x, formatEpoch).Some?
                  && row == RemoteOKToRow(ExtractRow(x, formatEpoch).value)
  {
    if row in PageRows(doc, formatEpoch) {
      var x :| x in JobRows(doc) && RenderRow(formatEpoch)(x) == Some(row);
      assert ExtractRow(x, formatEpoch).Some?;
    }
  }

  /** When every job row extracts, the page has one row per job row, in
      the same order. */
  lemma EveryRowExtracted(doc: Node, formatEpoch: string -> Option<string>)
    requires forall i :: 0 <= i < |JobRows(doc)| ==> ExtractRow(JobRows(doc)[i], formatEpoch).Some?
    ensures |PageRows(doc, formatEpoch)| == |JobRows(doc)|
    ensures forall i :: 0 <= i < |JobRows(doc)| ==>
      PageRows(doc, formatEpoch)[i] == RemoteOKToRow(ExtractRow(JobRows(doc)[i], formatEpoch).value)
  {
    var rows := JobRows(doc);
    forall i | 0 <= i < |rows|
      ensures RenderRow(formatEpoch)(rows[i]) == Some(RemoteOKToRow(ExtractRow(rows[i], formatEpoch).value))
    {
    }
    FilterMapAll(RenderRow(formatEpoch), rows);
  }

  /** `scrape_keyword` with the corrected record: no rows when both
      fetches fail, otherwise the rows of the fetched page. Also the pool
      after. */
  function ScrapeKeyword(browse: (nat, nat) -> Attempt, manual: bool, pool: ProxyPool,
                         parse: string -> Node, formatEpoch: string -> Option<string>): (r: (seq<seq<string>>, ProxyPool))
    requires ValidPool(pool)
    ensures ValidPool(r.1) && r.1 == FetchPage(browse, manual, pool).pool
    ensures Empty(FetchPage(browse, manual, pool).content) ==> r.0 == []
    ensures !Empty(FetchPage(browse, manual, pool).content) ==>
      r.0 == PageRows(parse(FetchPage(browse, manual, pool).content.value), formatEpoch)
    ensures forall row :: row in r.0 ==> |row| == |RemoteOKHeaders| && StartsWith(row[3], "http")
  {
    var f := FetchPage(browse, manual, pool);
    if Empty(f.content) then ([], f.pool)
    else (PageRows(parse(f.content.value), formatEpoch), f.pool)
  }

  /** On a fetched page, every job row that extracts appears in the
      corrected scraper's result. */
  lemma ScrapedRowsComplete(browse: (nat, nat) -> Attempt, manual: bool, pool: ProxyPool,
                            parse: string -> Node, formatEpoch: string -> Option<string>, x: Node)
    requires ValidPool(pool)
    requires !Empty(FetchPage(browse, manual, pool).content)
    requires x in JobRows(parse(FetchPage(browse, manual, pool).content.value))
    requires ExtractRow(x, formatEpoch).Some?
    ensures RemoteOKToRow(ExtractRow(x, formatEpoch).value) in ScrapeKeyword(browse, manual, pool, parse, formatEpoch).0
  {
  }

  /* ---------------------------------------------------------------- */
  /* The scraper as written                                            */
  /* ---------------------------------------------------------------- */

  /** Constructing the record with the given keyword names: the
      constructor's TypeError, which the row loop catches, skips the row. */
  function ConstructAsWritten(names: seq<string>, j: RemoteOKJob): (r: Option<seq<string>>)
    ensures r.Some? <==> RemoteOKConstructorAccepts(names)
  {
    if RemoteOKConstructorAccepts(names) then Some(RemoteOKToRow(j)) else None
  }

  function RenderRowAsWritten(formatEpoch: string -> Option<string>): Node -> Option<seq<string>> {
    row => match ExtractRow(row, formatEpoch)
           case Some(j) => ConstructAsWritten(RemoteOKCallSite, j)
           case None => None
  }

  /** `scrape_keyword` as written: every row reaching construction raises. */
  function ScrapeKeywordAsWritten(browse: (nat, nat) -> Attempt, manual: bool, pool: ProxyPool,
                                  parse: string -> Node, formatEpoch: string -> Option<string>): (r: (seq<seq<string>>, ProxyPool))
    requires ValidPool(pool)
    ensures r.1 == ScrapeKeyword(browse, manual, pool, parse, formatEpoch).1
  {
    var f := FetchPage(browse, manual, pool);
    if Empty(f.content) then ([], f.pool)
    else (FilterMap(RenderRowAsWritten(formatEpoch), JobRows(parse(f.content.value))), f.pool)
  }

  /** The call site's keyword names do not fit the constructor. */
  lemma CallSiteRejected()
    ensures !RemoteOKConstructorAccepts(RemoteOKCallSite)
  {
    assert RemoteOKCallSite[0] == "title";
    assert "title" !in RemoteOKParameters;
  }

  /** As written, the scraper never returns a row, whatever the page. */
  lemma AsWrittenAlwaysEmpty(browse: (nat, nat) -> Attempt, manual: bool, pool: ProxyPool,
                             parse: string -> Node, formatEpoch: string -> Option<string>)
    requires ValidPool(pool)
    ensures ScrapeKeywordAsWritten(browse, manual, pool, parse, formatEpoch).0 == []
  {
    var f := FetchPage(browse, manual, pool);
    if !Empty(f.content) {
      var rows := JobRows(parse(f.content.value));
      assert ScrapeKeywordAsWritten(browse, manual, pool, parse, formatEpoch).0
        == FilterMap(RenderRowAsWritten(formatEpoch), rows);
      AsWrittenRendersNothing(formatEpoch);
      NoneEverywhere(RenderRowAsWritten(formatEpoch), rows);
    }
  }

  /** As written, no row renders, whatever it holds. */
  lemma AsWrittenRendersNothing(formatEpoch: string -> Option<string>)
    ensures forall x :: RenderRowAsWritten(formatEpoch)(x).None?
  {
    CallSiteRejected();
  }

  lemma {:induction false} NoneEverywhere(g: Node -> Option<seq<string>>, xs: seq<Node>)
    requires forall x :: g(x).None?
    ensures FilterMap(g, xs) == []
  {
    if xs != [] {
      NoneEverywhere(g, xs[1..]);
    }
  }

  /** A page with one ordinary job row: the corrected scraper returns its
      row, the scraper as written returns nothing. */
  lemma OneRowExample(formatEpoch: string -> Option<string>)
    ensures |PageRows(ExampleDoc(), formatEpoch)| == 1
    ensures FilterMap(RenderRowAsWritten(formatEpoch), JobRows(ExampleDoc())) == []
  {
    ExampleJobRows();
    ExampleExtract(formatEpoch);
    var row := ExampleRow();
    assert RenderRow(formatEpoch)(row).Some?;
    FilterMapSingle(RenderRow(formatEpoch), row);
    CallSiteRejected();
    assert RenderRowAsWritten(formatEpoch)(row).None?;
    FilterMapSingle(RenderRowAsWritten(formatEpoch), row);
  }

  function ExampleCell(): Node {
    Element("td", ["company_and_position"], map[], [])
  }

  function ExampleRow(): Node {
    Element("tr", ["job"], map["data-slug" := "x"], [ExampleCell()])
  }

  function ExampleTable(): Node {
    Element("table", [], map["id" := "jobsboard"], [ExampleRow()])
  }

  function ExampleDoc(): Node {
    Element("[document]", [], map[], [ExampleTable()])
  }

  lemma ExampleWalk()
    ensures Descendants(ExampleRow()) == [ExampleCell()]
    ensures Descendants(ExampleTable()) == [ExampleRow(), ExampleCell()]
    ensures Descendants(ExampleDoc()) == [ExampleTable(), ExampleRow(), ExampleCell()]
  {
    assert Walk(ExampleCell()) == [];
    assert Walk(ExampleRow()) == [Visit(ExampleCell(), None)];
    assert Walk(ExampleTable()) == [Visit(ExampleRow(), None), Visit(ExampleCell(), None)];
    assert Walk(ExampleDoc()) == [Visit(ExampleTable(), None), Visit(ExampleRow(), None), Visit(ExampleCell(), None)];
  }

  lemma ExampleJobRows()
    ensures JobRows(ExampleDoc()) == [ExampleRow()]
  {
    ExampleWalk();
    assert Matches(ExampleTable(), JobsboardSelector);
    assert FindAll(ExampleDoc(), JobsboardSelector) == [ExampleTable()];
    assert FindAll(ExampleTable(), Tag("tr")) == [ExampleRow()];
    assert KeepRow(ExampleRow());
  }

  lemma ExampleExtract(formatEpoch: string -> Option<string>)
    ensures ExtractRow(ExampleRow(), formatEpoch).Some?
  {
    ExampleWalk();
    assert Matches(ExampleCell(), CellSelector);
    assert Find(ExampleRow(), CellSelector).Some?;
    assert HasAttr(ExampleRow(), "data-slug");
  }
}
