/**
 * The crawl engine of crawler.py: `_crawl_page` (what is kept of one
 * fetched page) and `_crawl_worker` (the breadth-first loop over a FIFO
 * frontier with a visited set, bounded by `max_pages`).
 *
 * The network and the HTML parser are oracles, gathered in a `Web`: `fetch`
 * answers for a URL either an exception or a response whose body has
 * already been parsed into a `Document`, and `resolve` stands for `urljoin`.
 * The fetch oracle is a function: each URL is fetched at most once in a
 * crawl, so a function loses nothing.
 */
module Crawler {
  import opened Wrappers
  import opened Text
  import opened Urls
  import opened Links
  import opened Frontier

  /** What BeautifulSoup yields of a page: the text of `<title>` if there is
      one, the text with script and style elements removed, and the
      `<a href>` elements in document order. */
  datatype Document = Document(title: Option<string>, text: string, anchors: seq<Anchor>)

  /** `self.session.get(url, timeout=10)`: an exception, or a response. */
  datatype FetchResult = Raised | Response(statusCode: int, body: Document)

  /** What `_crawl_page` stores for a page, with the anchors that
      `_extract_links` later reads from the same response. */
  datatype PageData = PageData(
    url: Url, title: string, content: string, statusCode: int,
    wordCount: nat, linkCount: nat, anchors: seq<Anchor>)

  datatype Web = Web(fetch: Url -> FetchResult, resolve: Resolver)

  /** The `status` column of a crawl session. */
  datatype SessionStatus = Running | Completed

  /** A row of `crawl_sessions` as `get_sessions` reports it (crawler.py:263,
      crawler.py:271); times are the text the database stores for
      `CURRENT_TIMESTAMP`. */
  datatype Session = Session(
    id: int, startUrl: Url, startTime: string, endTime: Option<string>,
    status: SessionStatus, totalPages: int, maxPages: int)

  /** The range of an SQLite INTEGER: `sqlite3` raises `OverflowError` when
      it binds a Python `int` outside it, as the INSERT of crawler.py:78-81
      does with `max_pages`. */
  const SqliteIntMin: int := -0x8000_0000_0000_0000
  const SqliteIntMax: int := 0x7FFF_FFFF_FFFF_FFFF

  predicate FitsSqliteInteger(i: int) {
    SqliteIntMin <= i <= SqliteIntMax
  }

  /** The row `start_crawl` inserts (crawler.py:78-83): the given URL and cap
      under the new id, with the column defaults of crawler.py:28-37 for the
      rest. */
  function NewSession(id: int, startUrl: Url, maxPages: int, now: string): (r: Session)
    ensures r.status == Running && r.totalPages == 0 && r.endTime.None?
    ensures r.id == id && r.startUrl == startUrl && r.maxPages == maxPages
    ensures r.startTime == now
  {
    Session(id, startUrl, now, None, Running, 0, maxPages)
  }

  /** `_complete_session` (crawler.py:243-255): ends the session at `now`
      with the final count; nothing else in the row changes. */
  function CompleteSession(s: Session, totalPages: nat, now: string): (r: Session)
    ensures r.status == Completed && r.totalPages == totalPages && r.endTime == Some(now)
    ensures r.(status := s.status, totalPages := s.totalPages, endTime := s.endTime) == s
  {
    s.(status := Completed, totalPages := totalPages, endTime := Some(now))
  }

  /** A Python float: a finite value (taken exactly), an infinity, or NaN. */
  datatype Double = Finite(value: real) | Inf(negative: bool) | NaN

  /** `time.sleep` converts its argument to a signed 64-bit count of
      nanoseconds, rounding away from zero; this is the first count out of
      range. */
  const SleepLimitNanos: int := 0x8000_0000_0000_0000

  /** `time.sleep(d)` raises: `ValueError` for NaN or a negative length,
      `OverflowError` for an infinity or a length whose nanoseconds,
      rounded up, reach the limit. */
  predicate SleepRaises(d: Double)
    ensures d.Finite? && 0.0 <= d.value <= 9223372036.0 ==> !SleepRaises(d)
    ensures d.Finite? && (d.value < 0.0 || d.value >= 9223372037.0) ==> SleepRaises(d)
  {
    match d
    case NaN => true
    case Inf(_) => true
    case Finite(r) => r < 0.0 || r * 1000000000.0 > (SleepLimitNanos - 1) as real
  }

  const NoTitle := "No Title"

  /** crawler.py:151-152 */
  function PageTitle(title: Option<string>): (r: string)
    ensures title.None? ==> r == NoTitle
    ensures title.Some? ==> r == Strip(title.value)
    ensures title.Some? ==> Trimmed(r)
  {
    match title
    case None => NoTitle
    case Some(t) => Strip(t)
  }

  /** crawler.py:140-189: a page is kept exactly when the request did not
      raise and the status is exactly 200; its content is the normalised
      text and its word count the number of tokens of that content. */
  function CrawlPage(url: Url, f: FetchResult): (r: Option<PageData>)
    ensures r.Some? <==> f.Response? && f.statusCode == 200
    ensures r.Some? ==> && r.value.url == url && r.value.statusCode == 200
                        && r.value.title == PageTitle(f.body.title)
                        && r.value.anchors == f.body.anchors
                        && r.value.linkCount == |f.body.anchors|
    ensures r.Some? ==> var c := r.value.content;
      && c == JoinWords(Words(f.body.text))
      && IsNormal(c)
      && Words(c) == Words(f.body.text)
      && r.value.wordCount == (if c == [] then 0 else Occurrences(c, ' ') + 1)
  {
    match f
    case Raised => None
    case Response(code, doc) =>
      if code != 200 then None
      else
        var content := Normalize(doc.text);
        NormalizeIsJoinedWords(doc.text);
        NormalizeIsNormal(doc.text);
        NormalizeKeepsWords(doc.text);
        WordCountIsTokenCount(doc.text);
        Some(PageData(url, PageTitle(doc.title), content, code,
                      WordCount(content), |doc.anchors|, doc.anchors))
  }

  // ---------------------------------------------------------------------
  // The crawl as a function of the pages fetched so far

  /** `max(0, max_pages)` */
  function Cap(maxPages: int): nat {
    if maxPages < 0 then 0 else maxPages
  }

  /** Whether `_crawl_page` keeps the page at `u` (see `CrawlPage`). */
  predicate Succeeded(web: Web, u: Url) {
    web.fetch(u).Response? && web.fetch(u).statusCode == 200
  }

  /** The links of the page at `u`, or `None` when the page is not kept or
      extracting its links raises. */
  function PageLinks(web: Web, domain: string, u: Url): (r: Option<seq<Link>>)
    ensures r.Some? ==> Succeeded(web, u) && |r.value| <= |web.fetch(u).body.anchors|
  {
    if Succeeded(web, u) then Classified(web.fetch(u).body.anchors, u, domain, web.resolve)
    else None
  }

  /** What extracting the links of the page at a URL gives: `PageLinks` for
      the crawl's web and domain. The crawl is specified for any such oracle,
      so that its proofs need not look inside `_extract_links`. */
  type LinkOracle = Url -> Option<seq<Link>>

  /** crawler.py:123-125: the URLs of the internal links not yet visited,
      in order and with repetitions. */
  function Admitted(links: seq<Link>, seen: seq<Url>): (r: seq<Url>)
    ensures |r| <= |links|
  {
    if links == [] then []
    else
      var l := links[|links| - 1];
      Admitted(links[..|links| - 1], seen) + (if l.isInternal && l.url !in seen then [l.url] else [])
  }

  /** What is appended to the queue after fetching the last page of `f`;
      the visited set then holds every page of `f`. */
  function Enqueued(links: LinkOracle, f: seq<Url>): seq<Url>
    requires f != []
  {
    match links(f[|f| - 1])
    case None => []
    case Some(ls) => Admitted(ls, f)
  }

  /** Everything that entered the queue, in order: the seed, then for each
      fetched page the links it contributed. */
  function Discovered(links: LinkOracle, seed: Url, f: seq<Url>): (r: seq<Url>)
    ensures |r| >= 1 && r[0] == seed
  {
    if f == [] then [seed]
    else Discovered(links, seed, f[..|f| - 1]) + Enqueued(links, f)
  }

  /** The fetched pages that were kept, in order; their number is
      `pages_crawled`. */
  function Stored(web: Web, f: seq<Url>): (r: seq<Url>)
    ensures |r| <= |f|
    ensures forall i | 0 <= i < |r| :: r[i] in f && Succeeded(web, r[i])
  {
    if f == [] then []
    else
      var u := f[|f| - 1];
      Stored(web, f[..|f| - 1]) + (if Succeeded(web, u) then [u] else [])
  }

  /** The value written by `_update_session_progress` after each fetched page. */
  function Counts(web: Web, f: seq<Url>): (r: seq<nat>)
    ensures |r| == |f|
  {
    if f == [] then [] else Counts(web, f[..|f| - 1]) + [|Stored(web, f)|]
  }

  // ---------------------------------------------------------------------
  // Steps of the specification functions

  lemma StoredStep(web: Web, f: seq<Url>, u: Url)
    ensures Stored(web, f + [u]) == Stored(web, f) + (if Succeeded(web, u) then [u] else [])
    ensures Counts(web, f + [u]) == Counts(web, f) + [|Stored(web, f + [u])|]
  {
    assert (f + [u])[..|f|] == f;
  }

  lemma DiscoveredStep(links: LinkOracle, seed: Url, f: seq<Url>, u: Url)
    ensures Discovered(links, seed, f + [u])
         == Discovered(links, seed, f) + Enqueued(links, f + [u])
  {
    assert (f + [u])[..|f|] == f;
  }

  /** Moving the front of `tv` onto `dq` and appending `extra` regroups the
      same sequence. */
  lemma PopAppend<T>(dq: seq<T>, tv: seq<T>, extra: seq<T>)
    requires tv != []
    ensures (dq + [tv[0]]) + (tv[1..] + extra) == (dq + tv) + extra
  {
    assert tv == [tv[0]] + tv[1..];
  }

  /** Popping an already visited URL keeps the queue history and the fetch
      list consistent. */
  lemma SkipStep(q: seq<Url>, dq: seq<Url>, tv: seq<Url>, f: seq<Url>)
    requires dq + tv == q && tv != [] && f == Dedup(dq) && tv[0] in f
    ensures (dq + [tv[0]]) + tv[1..] == q
    ensures f == Dedup(dq + [tv[0]])
  {
    assert tv == [tv[0]] + tv[1..];
    DedupMembers(dq, tv[0]);
    DedupSeen(dq, tv[0]);
  }

  /** Popping a new URL fetches it, and what it enqueues goes to the back. */
  lemma FetchStep(links: LinkOracle, seed: Url, dq: seq<Url>, tv: seq<Url>, f: seq<Url>, extra: seq<Url>)
    requires dq + tv == Discovered(links, seed, f) && tv != [] && f == Dedup(dq) && tv[0] !in f
    requires extra == Enqueued(links, f + [tv[0]])
    ensures (dq + [tv[0]]) + (tv[1..] + extra) == Discovered(links, seed, f + [tv[0]])
    ensures f + [tv[0]] == Dedup(dq + [tv[0]])
  {
    PopAppend(dq, tv, extra);
    DiscoveredStep(links, seed, f, tv[0]);
    DedupMembers(dq, tv[0]);
    DedupNew(dq, tv[0]);
  }

  // ---------------------------------------------------------------------
  // Properties of the crawl

  /** A URL is enqueued by the `i`-th fetched page: that page was kept, one
      of its links is internal and points at `u`, and `u` was not visited
      when the link was appended. */
  ghost predicate FoundOn(links: LinkOracle, f: seq<Url>, i: int, u: Url) {
    && 0 <= i < |f|
    && links(f[i]).Some?
    && u !in f[..i + 1]
    && exists j | 0 <= j < |links(f[i]).value| ::
         links(f[i]).value[j].isInternal && links(f[i]).value[j].url == u
  }

  /** The admitted URLs are exactly the unvisited targets of internal links. */
  lemma {:induction false} AdmittedMembers(links: seq<Link>, seen: seq<Url>, u: Url)
    ensures u in Admitted(links, seen)
        <==> u !in seen && exists j | 0 <= j < |links| :: links[j].isInternal && links[j].url == u
  {
    if links != [] {
      var init := links[..|links| - 1];
      AdmittedMembers(init, seen, u);
      if exists j | 0 <= j < |init| :: init[j].isInternal && init[j].url == u {
        var j :| 0 <= j < |init| && init[j].isInternal && init[j].url == u;
        assert links[j] == init[j];
      }
      if exists j | 0 <= j < |links| :: links[j].isInternal && links[j].url == u {
        var j :| 0 <= j < |links| && links[j].isInternal && links[j].url == u;
        if j < |init| {
          assert init[j] == links[j];
        }
      }
    }
  }

  /** After the seed, every URL that entered the queue was found on a kept
      page as an internal link, and was not visited when it was appended. */
  lemma {:induction false} DiscoveredProvenance(links: LinkOracle, seed: Url, f: seq<Url>, k: int)
    requires 0 < k < |Discovered(links, seed, f)|
    ensures exists i :: FoundOn(links, f, i, Discovered(links, seed, f)[k])
  {
    var init := f[..|f| - 1];
    var d0 := Discovered(links, seed, init);
    var d := Discovered(links, seed, f);
    var u := d[k];
    if k < |d0| {
      DiscoveredProvenance(links, seed, init, k);
      var i :| FoundOn(links, init, i, d0[k]);
      assert f[i] == init[i] && f[..i + 1] == init[..i + 1];
      assert FoundOn(links, f, |f| - 1 - (|f| - 1 - i), u);
    } else {
      var i := |f| - 1;
      assert u in Enqueued(links, f);
      var ls := links(f[i]).value;
      AdmittedMembers(ls, f, u);
      assert f[..i + 1] == f;
      assert FoundOn(links, f, i, u);
    }
  }

  /** A page that is not kept counts nothing and enqueues nothing. */
  lemma FailedPageContributesNothing(web: Web, domain: string, seed: Url, f: seq<Url>, u: Url)
    requires !Succeeded(web, u)
    ensures Stored(web, f + [u]) == Stored(web, f)
    ensures var links := u' => PageLinks(web, domain, u');
      Discovered(links, seed, f + [u]) == Discovered(links, seed, f)
  {
    StoredStep(web, f, u);
    var links := u' => PageLinks(web, domain, u');
    DiscoveredStep(links, seed, f, u);
    assert (f + [u])[|f|] == u;
    assert Discovered(links, seed, f) + [] == Discovered(links, seed, f);
  }

  /** Every reported progress value is at most the number of pages fetched
      so far, and the values never decrease. */
  lemma {:induction false} CountsMonotone(web: Web, f: seq<Url>)
    ensures forall i | 0 <= i < |f| :: Counts(web, f)[i] <= i + 1
    ensures forall i, j | 0 <= i <= j < |f| :: Counts(web, f)[i] <= Counts(web, f)[j]
    ensures f != [] ==> Counts(web, f)[|f| - 1] == |Stored(web, f)|
  {
    if f != [] {
      var init := f[..|f| - 1];
      CountsMonotone(web, init);
      var c0, c := Counts(web, init), Counts(web, f);
      assert c == c0 + [|Stored(web, f)|];
      assert |Stored(web, f)| >= |Stored(web, init)|;
      forall i | 0 <= i < |f| ensures c[i] <= i + 1 {
        if i < |init| {
          assert c[i] == c0[i];
        }
      }
      forall i, j | 0 <= i <= j < |f| ensures c[i] <= c[j] {
        if j < |init| {
          assert c[i] == c0[i] && c[j] == c0[j];
        } else if i < |init| {
          assert c[i] == c0[i] <= c0[|init| - 1];
        }
      }
    }
  }

  /** What is fetched is fetched in the order it first entered the queue,
      and it is a prefix of the queue history with repeats dropped. */
  lemma FifoOrder(q: seq<Url>, dq: seq<Url>, tv: seq<Url>)
    requires dq + tv == q
    ensures OrderedByFirst(q, Dedup(dq))
    ensures |Dedup(dq)| <= |Dedup(q)| && Dedup(q)[..|Dedup(dq)|] == Dedup(dq)
  {
    DedupPrefix(dq, tv);
    DedupOrder(q);
    var r, rq := Dedup(dq), Dedup(q);
    forall i, j | 0 <= i < j < |r| ensures FirstIndex(q, r[i]) < FirstIndex(q, r[j]) {
      assert r[i] == rq[i] && r[j] == rq[j];
    }
  }

  // ---------------------------------------------------------------------
  // The loop state as values

  /** The loop state of `_crawl_worker` agrees with the history: the URLs
      popped (`dq`) followed by the queue (`tv`) are everything discovered;
      the fetched pages (`f`) are the popped URLs without repeats; `visited`
      holds exactly the fetched pages; the counter is the number of kept
      pages and never above the cap; one progress value was written per
      fetched page, except for the last one when an exception ended the loop. */
  ghost predicate CrawlState(web: Web, links: LinkOracle, seed: Url, maxPages: int,
                             dq: seq<Url>, tv: seq<Url>, f: seq<Url>, visited: set<Url>,
                             pc: nat, progress: seq<nat>, aborted: bool)
  {
    && dq + tv == Discovered(links, seed, f)
    && f == Dedup(dq)
    && (forall u :: u in visited <==> u in f)
    && pc == |Stored(web, f)|
    && pc <= Cap(maxPages)
    && (aborted ==> f != [])
    && progress == Counts(web, if aborted then f[..|f| - 1] else f)
  }

  lemma InitialState(web: Web, links: LinkOracle, seed: Url, maxPages: int)
    ensures CrawlState(web, links, seed, maxPages, [], [seed], [], {}, 0, [], false)
  {
    assert [] + [seed] == [seed];
  }

  /** crawler.py:105-108 keeps the state consistent. */
  lemma SkipPreserves(web: Web, links: LinkOracle, seed: Url, maxPages: int,
                      dq: seq<Url>, tv: seq<Url>, f: seq<Url>, visited: set<Url>,
                      pc: nat, progress: seq<nat>)
    requires CrawlState(web, links, seed, maxPages, dq, tv, f, visited, pc, progress, false)
    requires tv != [] && tv[0] in visited
    ensures CrawlState(web, links, seed, maxPages, dq + [tv[0]], tv[1..], f, visited, pc, progress, false)
  {
    SkipStep(dq + tv, dq, tv, f);
  }

  /** crawler.py:110-131 keeps the state consistent, whether the iteration
      completes (`progress` grows) or an exception ends it after the fetch. */
  lemma VisitPreserves(web: Web, links: LinkOracle, seed: Url, maxPages: int,
                       dq: seq<Url>, tv: seq<Url>, f: seq<Url>, visited: set<Url>,
                       pc: nat, progress: seq<nat>, tv': seq<Url>, visited': set<Url>, pc': nat)
    requires CrawlState(web, links, seed, maxPages, dq, tv, f, visited, pc, progress, false)
    requires tv != [] && tv[0] !in visited && pc < maxPages
    requires tv' == tv[1..] + Enqueued(links, f + [tv[0]])
    requires visited' == visited + {tv[0]}
    requires pc' == pc + (if Succeeded(web, tv[0]) then 1 else 0)
    ensures CrawlState(web, links, seed, maxPages, dq + [tv[0]], tv', f + [tv[0]], visited', pc', progress + [pc'], false)
    ensures CrawlState(web, links, seed, maxPages, dq + [tv[0]], tv', f + [tv[0]], visited', pc', progress, true)
  {
    var c := tv[0];
    FetchStep(links, seed, dq, tv, f, Enqueued(links, f + [c]));
    CountStep(web, maxPages, f, c, pc, progress);
    assert forall u :: u in visited + {c} <==> u in f + [c];
  }

  lemma CountStep(web: Web, maxPages: int, f: seq<Url>, c: Url, pc: nat, progress: seq<nat>)
    requires pc == |Stored(web, f)| && progress == Counts(web, f) && pc < maxPages
    ensures var pc' := pc + (if Succeeded(web, c) then 1 else 0);
      && pc' == |Stored(web, f + [c])| && pc' <= Cap(maxPages)
      && Counts(web, f + [c]) == progress + [pc']
      && (f + [c])[..|f + [c]| - 1] == f
  {
    var f' := f + [c];
    assert f'[..|f|] == f;
    StoredStep(web, f, c);
    var extra := if Succeeded(web, c) then [c] else [];
    assert |Stored(web, f')| == |Stored(web, f)| + |extra|;
  }

  /** What the state says once the loop is over: the fetched pages are
      distinct, come in the order they first entered the queue and are a
      prefix of the queue history without repeats; with the queue empty
      they are all of it. */
  lemma FinalState(web: Web, links: LinkOracle, seed: Url, maxPages: int,
                   dq: seq<Url>, tv: seq<Url>, f: seq<Url>, visited: set<Url>,
                   pc: nat, progress: seq<nat>, aborted: bool)
    requires CrawlState(web, links, seed, maxPages, dq, tv, f, visited, pc, progress, aborted)
    ensures Distinct(f)
    ensures var q := Discovered(links, seed, f);
      && OrderedByFirst(q, f)
      && |f| <= |Dedup(q)| && Dedup(q)[..|f|] == f
    ensures tv == [] ==> f == Dedup(Discovered(links, seed, f))
    ensures pc == |Stored(web, f)| && pc <= Cap(maxPages)
    ensures aborted ==> f != []
    ensures progress == Counts(web, if aborted then f[..|f| - 1] else f)
  {
    var q := Discovered(links, seed, f);
    FifoOrder(q, dq, tv);
    if tv == [] {
      assert dq + [] == dq;
    }
  }

  // ---------------------------------------------------------------------
  // The worker

  /** crawler.py:123-125: append every internal link whose target is not in
      `visited`, the set of the pages in `seen`. */
  method EnqueueInternal(toVisit: seq<Url>, visited: set<Url>, links: seq<Link>, ghost seen: seq<Url>)
    returns (r: seq<Url>)
    requires forall u :: u in visited <==> u in seen
    ensures r == toVisit + Admitted(links, seen)
  {
    r := toVisit;
    var i := 0;
    while i < |links|
      invariant 0 <= i <= |links|
      invariant r == toVisit + Admitted(links[..i], seen)
    {
      assert links[..i + 1][..i] == links[..i];
      var link := links[i];
      if link.isInternal && link.url !in visited {
        r := r + [link.url];
      }
      i := i + 1;
    }
    assert links[..i] == links;
  }

  /** crawler.py:110-125 for a URL `current` not yet visited, popped off the
      front of the queue (`rest` is what is left). The method marks `current`
      visited and fetches it. When the page is kept it counts it and appends
      the unvisited targets of its internal links. `raised` says that
      `urljoin` raised while the links were extracted. */
  method VisitPage(web: Web, baseDomain: string, current: Url, rest: seq<Url>, visited: set<Url>,
                   pagesCrawled: nat, ghost seen: seq<Url>, ghost links: LinkOracle)
    returns (toVisit: seq<Url>, visited': set<Url>, pagesCrawled': nat, raised: bool)
    requires forall u :: u in visited <==> u in seen
    requires forall u {:trigger PageLinks(web, baseDomain, u)} :: links(u) == PageLinks(web, baseDomain, u)
    ensures visited' == visited + {current}
    ensures pagesCrawled' == pagesCrawled + (if Succeeded(web, current) then 1 else 0)
    ensures raised <==> links(current).None? && Succeeded(web, current)
    ensures toVisit == rest + Enqueued(links, seen + [current])
    ensures !Succeeded(web, current) ==> toVisit == rest
  {
    assert (seen + [current])[|seen|] == current;
    assert links(current) == PageLinks(web, baseDomain, current);
    visited' := visited + {current};
    toVisit, pagesCrawled', raised := rest, pagesCrawled, false;
    var page := CrawlPage(current, web.fetch(current));
    if page.Some? {
      pagesCrawled' := pagesCrawled + 1;
      var found := ExtractLinks(page.value.anchors, current, baseDomain, web.resolve);
      if found.None? {
        assert rest + [] == rest;
        raised := true;
        return;
      }
      toVisit := EnqueueInternal(rest, visited', found.value, seen + [current]);
    } else {
      assert rest + [] == rest;
    }
  }

  /** Every page of `f` was fetched while fewer than `maxPages` pages were
      kept (the guard of crawler.py:104): the cap is positive when there is a
      first fetch, and the count after each fetch but the last is below it. */
  ghost predicate FetchedBelowCap(web: Web, f: seq<Url>, maxPages: int) {
    && (f != [] ==> 0 < maxPages)
    && forall i | 0 <= i < |f| - 1 :: Counts(web, f)[i] < maxPages
  }

  /** None of the first `n` pages of `f` made `urljoin` raise. */
  ghost predicate NoneRaised(web: Web, links: LinkOracle, f: seq<Url>, n: int) {
    forall i | 0 <= i < n && i < |f| :: !(Succeeded(web, f[i]) && links(f[i]).None?)
  }

  /** Fetching `c` below the cap keeps both histories; the page that made
      the iteration end, if any, is left out of the second. */
  lemma FetchHistory(web: Web, links: LinkOracle, maxPages: int, f: seq<Url>, c: Url, aborted: bool)
    requires FetchedBelowCap(web, f, maxPages) && NoneRaised(web, links, f, |f|)
    requires |Stored(web, f)| < maxPages
    requires aborted || !(Succeeded(web, c) && links(c).None?)
    ensures FetchedBelowCap(web, f + [c], maxPages)
    ensures NoneRaised(web, links, f + [c], |f + [c]| - (if aborted then 1 else 0))
  {
    var f' := f + [c];
    assert f'[..|f|] == f;
    StoredStep(web, f, c);
    var k, k' := Counts(web, f), Counts(web, f');
    if f != [] {
      assert k[|f| - 1] == |Stored(web, f)|;
    }
    forall i | 0 <= i < |f'| - 1 ensures k'[i] < maxPages {
      assert k'[i] == k[i];
    }
    forall i | 0 <= i < |f| ensures f'[i] == f[i] {
    }
  }

  /** Each progress value is the number of pages kept up to and including
      that fetch. */
  lemma {:induction false} CountsAreStored(web: Web, f: seq<Url>)
    ensures forall i | 0 <= i < |f| :: Counts(web, f)[i] == |Stored(web, f[..i + 1])|
  {
    if f != [] {
      var init := f[..|f| - 1];
      CountsAreStored(web, init);
      forall i | 0 <= i < |f| ensures Counts(web, f)[i] == |Stored(web, f[..i + 1])| {
        if i < |init| {
          assert init[..i + 1] == f[..i + 1];
        } else {
          assert f[..i + 1] == f;
        }
      }
    }
  }

  /** The cap condition read fetch by fetch: each page was fetched when the
      pages kept before it were fewer than `maxPages`. */
  lemma FetchedBelowCapStored(web: Web, f: seq<Url>, maxPages: int)
    ensures FetchedBelowCap(web, f, maxPages)
        <==> forall i | 0 <= i < |f| :: |Stored(web, f[..i])| < maxPages
  {
    CountsAreStored(web, f);
    if f != [] {
      assert f[..0] == [];
    }
    forall i | 0 < i < |f| ensures Counts(web, f)[i - 1] == |Stored(web, f[..i])| {
    }
    if forall i | 0 <= i < |f| :: |Stored(web, f[..i])| < maxPages {
      forall i | 0 <= i < |f| - 1 ensures Counts(web, f)[i] < maxPages {
        assert Counts(web, f)[i] == |Stored(web, f[..i + 1])|;
      }
    }
  }

  /** One iteration of the loop of crawler.py:104-138 on a non-empty queue
      below the cap: pop the front `current`, skip it when visited, and
      otherwise visit it (see `VisitPage`), sleep and write the count. An
      exception, from `urljoin` or from `time.sleep`, leaves the iteration
      before the write (`aborted`); it happens exactly when a page was
      fetched and one of the two raises. */
  method CrawlStep(web: Web, baseDomain: string, maxPages: int, delay: Double,
                   toVisit: seq<Url>, visited: set<Url>, pagesCrawled: nat, fetched: seq<Url>, progress: seq<nat>,
                   ghost seed: Url, ghost dequeued: seq<Url>, ghost links: LinkOracle)
    returns (toVisit': seq<Url>, visited': set<Url>, pagesCrawled': nat, fetched': seq<Url>, progress': seq<nat>,
             aborted: bool, ghost dequeued': seq<Url>)
    requires forall u {:trigger PageLinks(web, baseDomain, u)} :: links(u) == PageLinks(web, baseDomain, u)
    requires CrawlState(web, links, seed, maxPages, dequeued, toVisit, fetched, visited, pagesCrawled, progress, false)
    requires toVisit != [] && pagesCrawled < maxPages
    requires SleepRaises(delay) ==> fetched == []
    requires FetchedBelowCap(web, fetched, maxPages) && NoneRaised(web, links, fetched, |fetched|)
    ensures CrawlState(web, links, seed, maxPages, dequeued', toVisit', fetched', visited', pagesCrawled', progress', aborted)
    ensures dequeued' == dequeued + [toVisit[0]]
    ensures fetched' == (if toVisit[0] in visited then fetched else fetched + [toVisit[0]])
    ensures aborted <==> fetched' != fetched && (SleepRaises(delay) || (Succeeded(web, toVisit[0]) && links(toVisit[0]).None?))
    ensures FetchedBelowCap(web, fetched', maxPages)
    ensures NoneRaised(web, links, fetched', |fetched'| - (if aborted then 1 else 0))
    ensures pagesCrawled <= pagesCrawled'
    ensures aborted || pagesCrawled < pagesCrawled' || |toVisit'| < |toVisit|
  {
    var current := toVisit[0];
    if current in visited {
      SkipPreserves(web, links, seed, maxPages, dequeued, toVisit, fetched, visited, pagesCrawled, progress);
      dequeued' := dequeued + [current];
      toVisit', visited', pagesCrawled', fetched', progress', aborted := toVisit[1..], visited, pagesCrawled, fetched, progress, false;
      return;
    }
    var raised;
    toVisit', visited', pagesCrawled', raised :=
      VisitPage(web, baseDomain, current, toVisit[1..], visited, pagesCrawled, fetched, links);
    VisitPreserves(web, links, seed, maxPages, dequeued, toVisit, fetched, visited, pagesCrawled, progress,
                   toVisit', visited', pagesCrawled');
    aborted := raised || SleepRaises(delay);
    FetchHistory(web, links, maxPages, fetched, current, aborted);
    dequeued', fetched' := dequeued + [current], fetched + [current];
    progress' := if aborted then progress else progress + [pagesCrawled'];
  }

  /** crawler.py:97-134: the loop from the start URL until the queue is
      empty, the cap is reached, or an exception escapes. Besides the
      outputs it answers the loop state at the exit (`dequeued` is ghost:
      the URLs popped). */
  method CrawlLoop(web: Web, startUrl: Url, maxPages: int, delay: Double, ghost links: LinkOracle)
    returns (fetched: seq<Url>, progress: seq<nat>, pagesCrawled: nat, aborted: bool,
             toVisit: seq<Url>, visited: set<Url>, ghost dequeued: seq<Url>)
    requires forall u {:trigger PageLinks(web, Netloc(startUrl), u)} :: links(u) == PageLinks(web, Netloc(startUrl), u)
    ensures CrawlState(web, links, startUrl, maxPages, dequeued, toVisit, fetched, visited,
                       pagesCrawled, progress, aborted)
    ensures aborted ==> SleepRaises(delay) || (Succeeded(web, fetched[|fetched| - 1])
                                               && links(fetched[|fetched| - 1]).None?)
    ensures SleepRaises(delay) ==> |fetched| <= 1 && (fetched == [] || aborted)
    ensures FetchedBelowCap(web, fetched, maxPages)
    ensures NoneRaised(web, links, fetched, |fetched| - (if aborted then 1 else 0))
    ensures aborted || toVisit == [] || pagesCrawled >= maxPages
  {
    visited, toVisit, pagesCrawled := {}, [startUrl], 0;
    var baseDomain := Netloc(startUrl);
    dequeued := [];
    fetched, progress, aborted := [], [], false;
    InitialState(web, links, startUrl, maxPages);

    while !aborted && toVisit != [] && pagesCrawled < maxPages
      invariant CrawlState(web, links, startUrl, maxPages, dequeued, toVisit, fetched, visited,
                           pagesCrawled, progress, aborted)
      invariant aborted ==> SleepRaises(delay) || (Succeeded(web, fetched[|fetched| - 1])
                                                   && links(fetched[|fetched| - 1]).None?)
      invariant SleepRaises(delay) ==> |fetched| <= 1 && (fetched == [] || aborted)
      invariant FetchedBelowCap(web, fetched, maxPages)
      invariant NoneRaised(web, links, fetched, |fetched| - (if aborted then 1 else 0))
      decreases !aborted, Cap(maxPages) - pagesCrawled, |toVisit|
    {
      toVisit, visited, pagesCrawled, fetched, progress, aborted, dequeued :=
        CrawlStep(web, baseDomain, maxPages, delay, toVisit, visited, pagesCrawled, fetched, progress,
                  startUrl, dequeued, links);
    }
  }

  /** What a crawl from `startUrl` promises about its outputs:
      - each URL is fetched at most once, in the order it first entered the
        queue, as a prefix of the queue history without repeats;
      - every fetch happens while fewer than `maxPages` pages are kept;
      - `totalPages` is the number of kept pages, at most the cap;
      - one progress value is written per fetched page, except for the last
        one when an exception ended the loop;
      - without an exception the loop ends with the cap reached or with
        every discovered URL fetched;
      - an exception comes from `urljoin` on the last page or from
        `time.sleep`, and a delay `time.sleep` refuses stops the crawl at
        the first page. */
  ghost predicate CrawlOutcome(web: Web, links: LinkOracle, startUrl: Url, maxPages: int, delay: Double,
                               fetched: seq<Url>, progress: seq<nat>, totalPages: int, aborted: bool)
  {
    && Distinct(fetched)
    && OrderedByFirst(Discovered(links, startUrl, fetched), fetched)
    && |fetched| <= |Dedup(Discovered(links, startUrl, fetched))|
    && Dedup(Discovered(links, startUrl, fetched))[..|fetched|] == fetched
    && (forall i | 0 <= i < |fetched| :: |Stored(web, fetched[..i])| < maxPages)
    && totalPages == |Stored(web, fetched)| && totalPages <= Cap(maxPages)
    && (aborted ==> fetched != [])
    && progress == Counts(web, if aborted then fetched[..|fetched| - 1] else fetched)
    && (!aborted ==> totalPages >= maxPages || fetched == Dedup(Discovered(links, startUrl, fetched)))
    && (aborted ==> SleepRaises(delay) || (Succeeded(web, fetched[|fetched| - 1])
                                             && links(fetched[|fetched| - 1]).None?))
    && (forall i | 0 <= i < |fetched| - (if aborted then 1 else 0) ::
          !(Succeeded(web, fetched[i]) && links(fetched[i]).None?))
    && (SleepRaises(delay) ==> |fetched| <= 1)
    && (SleepRaises(delay) && fetched != [] ==> aborted)
  }

  /** crawler.py:95-138. The loop pops the front of the queue and skips it if
      it was visited. Otherwise it marks it visited and fetches it. When the
      page is kept, the loop counts it and enqueues its internal links; then
      it sleeps and writes the count. It stops when the queue is empty, when
      the cap is reached, or when an exception escapes: `urljoin` raising,
      or `time.sleep` refusing `delay`. The session is then marked completed
      with the count.

      The outputs are what the crawl does to the outside world:
      - `fetched`: the URLs requested, in order;
      - `progress`: the values written as `total_pages` while running;
      - `totalPages`: the final value;
      - `row`: the session row once `_complete_session` has run, which
        happens on every way out of the loop.
      `aborted` says whether an exception ended the loop. Each progress
      write sets `total_pages` only, and the completion overwrites it, so
      the final row depends on the count alone. */
  method CrawlWorker(web: Web, session: Session, startUrl: Url, maxPages: int, delay: Double, now: string,
                     ghost links: LinkOracle)
    returns (fetched: seq<Url>, progress: seq<nat>, totalPages: nat, aborted: bool, row: Session)
    requires forall u {:trigger PageLinks(web, Netloc(startUrl), u)} :: links(u) == PageLinks(web, Netloc(startUrl), u)
    ensures CrawlOutcome(web, links, startUrl, maxPages, delay, fetched, progress, totalPages, aborted)
    ensures row == CompleteSession(session, totalPages, now)
  {
    var toVisit, visited;
    ghost var dequeued;
    fetched, progress, totalPages, aborted, toVisit, visited, dequeued := CrawlLoop(web, startUrl, maxPages, delay, links);
    row := CompleteSession(session, totalPages, now);
    FinalState(web, links, startUrl, maxPages, dequeued, toVisit, fetched, visited, totalPages, progress, aborted);
    FetchedBelowCapStored(web, fetched, maxPages);
  }

  /** `start_crawl` (crawler.py:72-93): insert the session row under the
      new id, then run the worker on it (here to the end, where crawler.py
      runs it on a thread) and answer the id. The INSERT refuses a cap
      outside SQLite's INTEGER range, and then nothing is crawled (`None`).
      Otherwise the row the crawl leaves behind is the inserted one,
      completed with the final count. */
  method StartCrawl(web: Web, id: int, startUrl: Url, maxPages: int, delay: Double, now: string, later: string,
                    ghost links: LinkOracle)
    returns (sessionId: Option<int>, fetched: seq<Url>, progress: seq<nat>, aborted: bool, row: Option<Session>)
    requires forall u {:trigger PageLinks(web, Netloc(startUrl), u)} :: links(u) == PageLinks(web, Netloc(startUrl), u)
    ensures sessionId.None? <==> !FitsSqliteInteger(maxPages)
    ensures sessionId.None? ==> fetched == [] && progress == [] && !aborted && row.None?
    ensures sessionId.Some? ==> && sessionId.value == id
                                && row == Some(CompleteSession(NewSession(id, startUrl, maxPages, now),
                                                               |Stored(web, fetched)|, later))
                                && CrawlOutcome(web, links, startUrl, maxPages, delay, fetched, progress,
                                                row.value.totalPages, aborted)
    ensures Distinct(fetched)
    ensures row.Some? ==> row.value.status == Completed && row.value.totalPages <= Cap(maxPages)
  {
    if !FitsSqliteInteger(maxPages) {
      sessionId, fetched, progress, aborted, row := None, [], [], false, None;
      return;
    }
    var inserted := NewSession(id, startUrl, maxPages, now);
    var totalPages, completed;
    fetched, progress, totalPages, aborted, completed := CrawlWorker(web, inserted, startUrl, maxPages, delay, later, links);
    sessionId, row := Some(id), Some(completed);
  }
}
