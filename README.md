# Spidey crawl engine in Dafny

This project models the core of Spidey, a web crawler with a Flask front
end. Its proofs cover:

- the breadth-first crawl loop `WebCrawler._crawl_worker`: a FIFO queue of
  URLs, a `visited` set and a `pages_crawled` counter bounded by `max_pages`;
- link extraction in `_extract_links`: resolve each `<a href>`, keep the
  `http://`/`https://` results, mark a link internal when its network
  location is the seed's, and strip the anchor text and cut it to 200
  characters;
- the title, whitespace normalisation and word count that `_crawl_page`
  stores for a page;
- the request shaping of the `/api/crawl` route (`start_crawl`): parameter
  defaults, the required URL and the `http://` prefix;
- the lookup of the `/api/sessions/<id>/status` route (`get_session_status`).

Layout, one module per file:

- `wrappers.dfy` (`Wrappers`): `Option`.
- `text.dfy` (`Text`): Python's whitespace class, `str.strip()`,
  `re.sub(r'\s+', ' ', s)`, `str.split()` and `' '.join`. The central lemma
  is that the stored content is `' '.join(text.split())`. Its corollaries:
  the content is normal (trimmed, single plain spaces), normalising is
  idempotent, and the word count is the number of space-separated tokens.
- `urls.dfy` (`Urls`): the scheme test, the `http://` prefix of
  `start_crawl`, and `urlparse(u).netloc` after CPython's `urlsplit`.
- `links.dfy` (`Links`): `_extract_links` in two forms:
  - the loop itself as a method;
  - the function `Classified`, which specifies it.
- `frontier.dfy` (`Frontier`): `Dedup`, which keeps the first occurrence of
  each element in order. It is what a FIFO queue with a visited set lets
  through.
- `crawler.dfy` (`Crawler`):
  - `_crawl_page` as a function of the fetch result;
  - the session row that `start_crawl` inserts, and its completion;
  - Python floats as `Double` (finite, infinite or NaN) and the values
    `time.sleep` refuses;
  - the worker loop as a method over local variables, as in crawler.py
    (`CrawlLoop`, one iteration being `CrawlStep`), the worker around it
    (`CrawlWorker`) and `start_crawl` running the worker on the row it
    inserted (`StartCrawl`).

  The loop is proved against history functions of the pages fetched so far:
  `Discovered` is everything that entered the queue, `Stored` is the kept
  pages, and `Counts` is the progress writes.
- `app.dfy` (`App`): `start_crawl` and `get_session_status` as functions from
  the decoded request to a response.

How the crawl is specified:

- The network and the HTML parser are oracles in a `Web` value:
  - `fetch` gives, for a URL, either an exception or a status code with
    the parsed document (title, text without script and style, anchors);
  - `resolve` stands for `urljoin` and answers `None` where `urljoin`
    raises.
- `LinkOracle` is any function equal to `PageLinks`, which gives the links
  `_extract_links` returns for a kept page. `CrawlWorker` requires that
  equality for all URLs. Its contract is stated over the oracle, so the
  loop proof never unfolds link extraction.
- Two histories record the exits of the loop guard and of the `try`:
  `FetchedBelowCap` (every fetch happened while the count was below
  `max_pages`) and `NoneRaised` (no page before the last made `urljoin`
  raise). `FetchedBelowCapStored` restates the first over `Stored`.
- The worker's outputs:
  - `fetched`: the URLs passed to `_crawl_page`;
  - `progress`: the values written by `_update_session_progress`;
  - `totalPages`: the final counter;
  - `aborted`: whether an exception left the loop;
  - `row`: the session row after `_complete_session`, which runs on every
    way out of the loop.

## Model

| member | source | states |
|---|---|---|
| Text.IsSpace | crawler.py:152-161 | the whitespace class of `str.isspace()`, which is `\s` in a str pattern and the separator of `split()` and `strip()` |
| Text.Strip | crawler.py:152 | `strip()` leaves no whitespace at either end and never lengthens the string |
| Text.StripIsTrim | crawler.py:152 | what `strip()` keeps is a slice of the input with only whitespace before and after it |
| Text.StripTrimmed | crawler.py:152 | stripping a string without edge whitespace returns it unchanged |
| Text.StripIdempotent | crawler.py:152 | stripping twice is stripping once |
| Text.LeadingSpaces | crawler.py:152 | the leading whitespace run: every character before it is whitespace and the one after it, if any, is not |
| Text.TrailingSpaces | crawler.py:152 | the trailing whitespace run: every character in it is whitespace and the one before it, if any, is not |
| Text.Words | crawler.py:161 | `split()` gives no more tokens than the text has characters |
| Text.WordsAreWords | crawler.py:161 | every token of `split()` is a non-empty run of non-whitespace |
| Text.CollapseRuns | crawler.py:159 | `re.sub(r'\s+', ' ', s)` never lengthens the text and is empty only for empty text |
| Text.CollapseShape | crawler.py:159 | `re.sub(r'\s+', ' ', s)` is the tokens of `s` joined by single spaces, with one space kept at each end where `s` had whitespace there |
| Text.JoinWordsNormal | crawler.py:159 | tokens joined by spaces are normal text, and contain one space fewer than there are tokens |
| Text.WordsOfJoin | crawler.py:161 | splitting tokens joined by spaces gives back the same tokens |
| Text.Normalize | crawler.py:158-159 | the stored content has no whitespace at either end and is never longer than the page text |
| Text.NormalizeIsJoinedWords | crawler.py:158-159 | collapsing whitespace runs and stripping equals `' '.join(s.split())` |
| Text.NormalizeIsNormal | crawler.py:159 | normalised content has no edge whitespace, only plain spaces, and never two whitespace characters in a row |
| Text.NormalizeIdempotent | crawler.py:159 | normalising twice gives the same content as normalising once |
| Text.NormalizeKeepsWords | crawler.py:159-161 | normalising keeps the tokens, so the word count is that of the raw text |
| Text.WordCount | crawler.py:161 | the word count is at most the length, and 0 exactly when the content is all whitespace |
| Text.WordCountIsTokenCount | crawler.py:161 | `word_count` is 0 for empty content and otherwise one more than the number of spaces in it |
| Urls.HasWebScheme | app.py:32 | a URL with a web scheme is at least as long as `http://` |
| Urls.Find | crawler.py:204 | the index found is within the string and holds the character when it is not the end |
| Urls.FindIsFirst | crawler.py:204 | no earlier position holds the character |
| Urls.Netloc | crawler.py:204-205 | the network location has no `/`, `?` or `#` and is no longer than the URL |
| Urls.WebNetloc | crawler.py:204-205 | for an `http://` or `https://` URL the network location is what follows `//` up to the first `/`, `?` or `#` |
| Urls.HostNetloc | crawler.py:101 | pages on one host share the network location whatever their scheme and path, so they are internal to a crawl seeded there |
| Urls.WithScheme | app.py:32-33 | the result has a web scheme; a URL that has one is unchanged, any other gets `http://` in front; the input is a suffix of the result |
| Urls.WithSchemeIdempotent | app.py:32-33 | prefixing again changes nothing |
| Urls.WithSchemeUpperCase | app.py:32-33 | the scheme test is case-sensitive: `HTTPS://h` gets a second scheme and its host becomes `HTTPS:` |
| Links.Truncate | crawler.py:209 | `s[:n]` is a prefix of `s` of length `min(n, len(s))` |
| Links.AnchorText | crawler.py:209 | the anchor text is the stripped text when that has at most 200 characters, and otherwise its first 200 characters; it never starts with whitespace |
| Links.AnchorTextMayEndInSpace | crawler.py:209 | because the cut follows the strip, a 200-character anchor text can end in a space |
| Links.ClassifyAnchor | crawler.py:197-211 | an anchor fails exactly when `urljoin` raises, is dropped exactly when the result lacks a web scheme, and otherwise yields the resolved URL with its stripped, cut text, internal iff its netloc is the seed's |
| Links.Classified | crawler.py:196-211 | the links of a page are never more than its anchors |
| Links.ExtractLinks | crawler.py:191-213 | the loop returns exactly `Classified` of the anchors |
| Links.PrefixFailed | crawler.py:198 | once `urljoin` raises for an anchor, the whole extraction fails |
| Links.FailsIffSomeAnchorFails | crawler.py:198 | extraction fails iff `urljoin` raises for some anchor |
| Links.LinksWellFormed | crawler.py:196-211 | every link has a web scheme, is internal iff its netloc is the domain, and has text of at most 200 characters not starting with whitespace; there are no more links than anchors |
| Links.ClassifiedAppend | crawler.py:196 | links come in document order: those of `a + b` are those of `a` followed by those of `b` |
| Links.LinksComeFromAnchors | crawler.py:197-208 | every link's URL is the resolution of one of the anchors |
| Frontier.FirstIndex | crawler.py:105-108 | the first position of an element |
| Frontier.Dedup | crawler.py:105-108 | keeping first occurrences yields distinct elements, no more than the input |
| Frontier.DedupMembers | crawler.py:107-108 | exactly the elements of the input are kept |
| Frontier.DedupSeen | crawler.py:107-108 | popping an element seen before changes nothing |
| Frontier.DedupNew | crawler.py:110 | popping a new element appends it |
| Frontier.DedupPrefix | crawler.py:105-125 | what has been kept so far is a prefix of what is kept later |
| Frontier.DedupOrder | crawler.py:105-108 | the kept elements are ordered by their first position in the input |
| Crawler.FitsSqliteInteger | crawler.py:78-81 | the values the INSERT can bind as `max_pages`: the signed 64-bit range of an SQLite INTEGER |
| Crawler.NewSession | crawler.py:78-83 | a new session row carries the given id, URL and cap, with status running, zero pages, the start time and no end time |
| Crawler.CompleteSession | crawler.py:243-255 | completion sets status, end time and total pages, and nothing else |
| Crawler.PageTitle | crawler.py:151-152 | the title is `No Title` without a `<title>`, otherwise the stripped title text |
| Crawler.CrawlPage | crawler.py:140-189 | a page is kept iff the request did not raise and the status is exactly 200; its content is `' '.join(text.split())` and is normal, its word count the token count, its link count the number of anchors |
| Crawler.SleepRaises | crawler.py:128 | `time.sleep` raises for NaN, an infinity, a negative length, or a length whose nanoseconds rounded up exceed 2^63 - 1: every delay from 0 to 9223372036 seconds is accepted, every one from 9223372037 on refused |
| Crawler.Succeeded | crawler.py:143-147 | `_crawl_page` returns page data, so that `if page_data:` (crawler.py line 115) holds, when the request did not raise and answered status 200 |
| Crawler.PageLinks | crawler.py:115-119 | links are only extracted from a kept page, and are never more than its anchors |
| Crawler.Admitted | crawler.py:123-125 | no more URLs are appended than there are links |
| Crawler.AdmittedMembers | crawler.py:123-125 | a URL is appended iff some internal link points at it and it is not visited |
| Crawler.Discovered | crawler.py:98 | the queue history starts with the seed |
| Crawler.Stored | crawler.py:115-116 | the kept pages are fetched pages whose fetch succeeded, no more of them than were fetched |
| Crawler.Counts | crawler.py:131 | one progress value per fetched page |
| Crawler.CountsAreStored | crawler.py:116-131 | each progress value is the number of pages kept up to and including that fetch |
| Crawler.DiscoveredProvenance | crawler.py:115-125 | after the seed, every URL that entered the queue is an internal link of a kept page, not visited when appended |
| Crawler.FailedPageContributesNothing | crawler.py:115 | a page that is not kept neither counts nor enqueues anything |
| Crawler.CountsMonotone | crawler.py:131 | each progress value is at most the number of pages fetched so far, and the values never decrease |
| Crawler.FifoOrder | crawler.py:105-125 | pages are fetched in the order they first entered the queue, as a prefix of the queue history without repeats |
| Crawler.InitialState | crawler.py:97-99 | the initial locals satisfy the loop state |
| Crawler.SkipPreserves | crawler.py:105-108 | popping a visited URL keeps the loop state |
| Crawler.VisitPreserves | crawler.py:110-131 | visiting a new URL keeps the loop state, both when the iteration writes its progress and when an exception ends it first |
| Crawler.FetchHistory | crawler.py:104-119 | a fetch made below the cap keeps the cap history, and a fetch that did not make `urljoin` raise keeps the exception history |
| Crawler.FetchedBelowCapStored | crawler.py:104 | the cap history says exactly that every page was fetched while fewer than `max_pages` pages had been kept before it |
| Crawler.FinalState | crawler.py:104-138 | at the end the fetched pages are distinct, in first-enqueued order, a prefix of the deduplicated queue history (all of it when the queue is empty), with the count at most the cap |
| Crawler.EnqueueInternal | crawler.py:123-125 | the loop appends exactly the admitted URLs, in order |
| Crawler.VisitPage | crawler.py:110-125 | the page is marked visited and counted iff kept; `urljoin` raising is reported; otherwise exactly the admitted links are appended |
| Crawler.CrawlStep | crawler.py:104-131 | one iteration pops the front URL and fetches it iff not visited; it is cut short exactly when a page was fetched and either its links made `urljoin` raise or `time.sleep` refuses the delay; it keeps the loop state and both histories and makes progress for termination |
| Crawler.CrawlLoop | crawler.py:97-134 | the loop ends with the queue empty, the cap reached or an exception, in a state that satisfies the loop state and both histories |
| Crawler.CrawlWorker | crawler.py:95-138 | its outputs satisfy `CrawlOutcome`: each URL is fetched at most once, in first-enqueued order, and only while fewer than `max_pages` pages are kept; the count equals the kept pages and never exceeds `max(0, max_pages)`; progress is written once per fetched page except after an exception; an exception ends the loop only from `urljoin` on the last page or from `time.sleep`, and a delay `time.sleep` refuses stops the crawl at the first page; without an exception the loop ends with the queue exhausted or the cap reached; the session ends completed with the final count |
| Crawler.StartCrawl | crawler.py:72-93 | `start_crawl` raises, crawling nothing, exactly when the INSERT refuses a cap outside the SQLite INTEGER range; otherwise it answers the id of the row it inserts, that row ends completed with the number of kept pages, at most the cap, and the pages fetched, the progress written and whether an exception ended the loop satisfy `CrawlOutcome` for the start URL, cap and delay, the same promise `CrawlWorker` makes |
| Crawler.CrawlOutcome | crawler.py:95-138 | (predicate, no ensures of its own) names the promise of the worker loop: each URL fetched at most once, in first-enqueued order, only while fewer than `max_pages` pages are kept; the count equals the kept pages; one progress value per page except after an exception; an exception only from `urljoin` on the last page or from `time.sleep`; otherwise the loop ends with the queue exhausted or the cap reached |
| App.PyInt | app.py:25 | `int()` of a float truncates toward zero and raises for an infinity or NaN; an `int` is kept |
| App.PyFloat | app.py:26 | `float()` keeps a float and turns an `int` into the same finite value, raising when its magnitude reaches 2^1024 - 2^970 |
| App.MaxPagesArg | app.py:25 | `max_pages` defaults to 50 and fails exactly when the value is rejected or is a non-finite float |
| App.DelayArg | app.py:26 | `delay` defaults to 1.0 and fails exactly when the value is rejected or is an `int` too large for a double |
| App.Falsy | app.py:28 | `not start_url`: a missing or empty URL, or a non-string JSON value that is falsy |
| App.StartCrawl | app.py:22-44 | no body or a failed conversion is a 500; otherwise a falsy URL is a 400 `URL is required`, a non-string URL a 500, a cap the INSERT refuses a 500, and otherwise the crawl starts with the prefixed URL and the converted parameters |
| App.StartedUrl | app.py:32-33 | a started crawl's URL has a web scheme, is the given one or `http://` plus it, and is a fixed point of prefixing |
| App.Defaults | app.py:25-26 | without parameters the crawl gets 50 pages and a 1.0 second delay |
| App.NoClamping | app.py:25-44 | integer parameters reach the crawler unchanged, including zero and negative values; a 500 comes only from a delay too large for a double or a cap outside the SQLite INTEGER range |
| App.FloatsUnchecked | app.py:25-44 | a float delay, NaN, infinities and negative values included, reaches the crawler unchanged; a float cap is truncated, and is a 500 exactly when it is not finite or its truncation is outside the SQLite INTEGER range |
| App.FindSession | app.py:71 | nothing is found iff no session has the id; a found session has the id and is in the list |
| App.FindSessionFirst | app.py:71 | the session found is the first with the id |
| App.GetSessionStatus | app.py:70-76 | not found with `Session not found` iff no session has the id; otherwise a session with that id |
| App.StatusIsFirstMatch | app.py:70-76 | the status answer is the first session with the id, whatever follows it |

## Left out

- SQLite persistence is not modelled. This covers:
  - the inserts of pages and links;
  - `get_sessions` and `get_session_pages`;
  - the `pages` table.

  Apart from the OverflowError the session INSERT raises for a cap
  outside signed 64 bits (`Crawler.FitsSqliteInteger`), exceptions raised
  by the database are not modelled: a failing insert in `_crawl_page`
  would make a 200 page count as not kept. The session rows
  `get_session_status` searches are an input, in the order `get_sessions`
  returns them. A row has the columns `get_sessions`
  selects (crawler.py:263), so the stored `delay` column is not part of
  it. The progress writes are the `progress` output, and the only row
  update kept is the completion.
- HTTP fetching, the 10-second timeout and `response_time` are left out.
  `fetch` is an oracle, and it is a function because one crawl fetches each
  URL at most once. Values that would only be stored (`response_time`,
  `page_id`, timestamps) are not modelled; timestamps are the `now`
  parameters.
- BeautifulSoup is not modelled. The document is given already parsed:
  - the title, if there is one;
  - the text without script and style elements;
  - the anchors with an `href`, in document order.

  `_extract_links` parses the raw response again, so its anchors are those
  of the same response. The link count is the number of those anchors.
- `urljoin` is an oracle (`resolve`).
- `urlparse`/`urlsplit` is simplified in three ways:
  - whitespace and control characters are not removed;
  - IPv6 brackets are not validated;
  - none of the `ValueError`s it can raise are modelled.
- `urlparse(start_url)` at crawler.py:101 runs outside the `try`. If it
  raised, the thread would die without completing the session. This model
  always computes the network location.
- Threading is left out: `start_crawl` starting a daemon thread, and
  concurrent sessions.
- The length of `time.sleep(delay)` is left out. Only whether it raises is
  modelled (`SleepRaises`): on NaN, an infinity, a negative value, or a
  length whose nanoseconds, rounded up, do not fit a signed 64-bit count.
  The bound is exact for the real value of the double; the rounding of the
  multiplication by 10^9 in double arithmetic is not modelled.
- Printing of errors is left out.
- Strings are sequences of Unicode scalar values, so a JSON URL holding a
  lone surrogate, which the INSERT cannot encode and refuses, is not
  representable.
- Flask routing, `jsonify` framing, the index page, the sessions and pages
  routes, `get_stats` and the export route are left out. The export route
  calls a method the crawler does not define.
- The `url` field is not decoded from JSON. A JSON number or other
  non-string value is reduced to its truthiness: falsy gives 400 and truthy
  gives 500 from `startswith`.
- Strings passed as `max_pages`/`delay` are not parsed. A string is given
  as the number its conversion reads it as: for `max_pages` only a string
  `int()` accepts (an integer literal; `"2.5"` is unconvertible), for
  `delay` any string `float()` accepts, `"inf"` and `"nan"` included. Every
  other string is unconvertible.
- App.PyFloat: a finite double is its exact real value, and `float()` of an
  `int` below the overflow bound is that integer exactly, not rounded to 53
  bits of precision.
- The code does not do some things one might expect:
  - it does not deduplicate pages by content;
  - it does not clamp `max_pages` or `delay`;
  - only status 200 counts as success, not every 2xx;
  - the number of loop iterations is bounded by the queue, not by
    `max_pages`, since skipped and failed pages do not count.
- Text.Words, Text.CollapseRuns, Text.Normalize: their own contracts only
  bound lengths (and the ends of `Normalize`); what they produce is stated
  by `Text.WordsAreWords`, `Text.CollapseShape`,
  `Text.NormalizeIsJoinedWords` and `Text.NormalizeIsNormal`.
- Links.Classified, Crawler.PageLinks: their own contracts only bound the
  number of links; which links they are is stated by `Links.ClassifyAnchor`,
  `Links.LinksWellFormed` and `Links.FailsIffSomeAnchorFails`.
- Crawler.Counts: its own contract only gives the length; the values are
  stated by `Crawler.CountsAreStored` and `Crawler.CountsMonotone`.
- Urls.HasWebScheme: its own contract only bounds the length; the prefix
  test is its definition.
- Crawler.Admitted: its own contract only bounds the length; what it
  appends is stated by `Crawler.AdmittedMembers` and `Crawler.EnqueueInternal`.
- Crawler.CrawlWorker: the link oracle it is specified over must equal
  `PageLinks` for the crawl's domain; the worker itself calls
  `Links.ExtractLinks`.
