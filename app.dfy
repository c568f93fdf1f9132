/**
 * The request shaping of app.py: the checks and defaults that
 * `start_crawl` applies to a JSON body before it hands the crawl to the
 * crawler, and the lookup of one session in `get_session_status`.
 *
 * Flask is left out: a request arrives as the value `request.get_json()`
 * produced, and a response is a datatype naming the HTTP outcome.
 */
module App {
  import opened Wrappers
  import opened Urls
  import opened Crawler

  const DefaultMaxPages := 50
  const DefaultDelay := Finite(1.0)

  /** `float()` of an `int` raises `OverflowError` from this magnitude on:
      2^1024 - 2^970, halfway between the largest double and 2^1024, where
      rounding to nearest-even leaves the double range. */
  const FloatLimit: int := 179769313486231580793728971405303415079934132710037826936173778980444968292764750946649017977587207096330286416692887910946555547851940402630657488671505820681908902000708383676273854845817711531764475730270069855571366959622842914819860834936475292719074168444365510704342711559699508093042880177904174497792
  const UrlRequired := "URL is required"
  const SessionNotFound := "Session not found"

  /** A JSON number as Python's `json` reads it: an `int` of any size, or a
      float, which may be `NaN` or an infinity (`NaN`, `Infinity` and
      literals too large for a double). */
  datatype Number = Int(i: int) | Float(d: Double)

  /** What `data.get(key)` finds for `max_pages` or `delay`, seen through the
      one conversion applied to it (`int()` for `max_pages`, `float()` for
      `delay`): nothing, a value the conversion reads as a number, or one it
      rejects. A boolean reads as `Int(0)` or `Int(1)`. A string reads as the
      number it spells when the conversion accepts it: for `int()` only an
      integer literal (`"2.5"` is rejected), for `float()` any decimal or
      exponent form, `"inf"` and `"nan"` included. `null`, lists, objects and
      other strings are rejected. */
  datatype Param = Missing | Given(n: Number) | Unconvertible

  /** What `data.get('url')` finds: nothing (or `null`), a string, or some
      other JSON value, which is only told apart by its truthiness. */
  datatype UrlParam = NoUrl | Text(s: string) | NotText(truthy: bool)

  /** The fields of the JSON object the client posts. */
  datatype CrawlRequest = CrawlRequest(url: UrlParam, maxPages: Param, delay: Param)

  /** The outcome of `start_crawl`: the call `crawler.start_crawl(...)` with
      its arguments, once its INSERT has accepted them (answered with the new
      session's id), a 400 with its message, or a 500 from an exception. */
  datatype StartResponse =
    | Started(startUrl: Url, maxPages: int, delay: Double)
    | BadRequest(error: string)
    | ServerError

  /** The outcome of `get_session_status`: the session, or a 404 with its
      message. */
  datatype StatusResponse = Found(session: Session) | NotFound(error: string)

  /** Python's `int()` of a number, `None` where it raises: a float is
      truncated toward zero (`int(2.5)` is `2`, `int(-2.5)` is `-2`), an
      infinity raises `OverflowError` and NaN `ValueError`. */
  function PyInt(n: Number): (r: Option<int>)
    ensures r.None? <==> n.Float? && !n.d.Finite?
    ensures n.Int? ==> r == Some(n.i)
    ensures n.Float? && n.d.Finite? && n.d.value >= 0.0 ==>
              r.Some? && r.value as real <= n.d.value < r.value as real + 1.0
    ensures n.Float? && n.d.Finite? && n.d.value < 0.0 ==>
              r.Some? && r.value as real - 1.0 < n.d.value <= r.value as real
  {
    match n
    case Int(i) => Some(i)
    case Float(Finite(x)) => Some(if x >= 0.0 then x.Floor else -((-x).Floor))
    case Float(_) => None
  }

  /** Python's `float()` of a number, `None` where it raises: a float is
      kept, an `int` becomes a finite double unless its magnitude reaches
      `FloatLimit`. */
  function PyFloat(n: Number): (r: Option<Double>)
    ensures r.None? <==> n.Int? && (n.i <= -FloatLimit || FloatLimit <= n.i)
    ensures n.Float? ==> r == Some(n.d)
    ensures n.Int? && r.Some? ==> r.value.Finite? && r.value.value.Floor == n.i
                                  && r.value.value == r.value.value.Floor as real
  {
    match n
    case Int(i) => if -FloatLimit < i < FloatLimit then Some(Finite(i as real)) else None
    case Float(x) => Some(x)
  }

  /** `int(data.get('max_pages', 50))`, `None` where `int()` raises. */
  function MaxPagesArg(p: Param): (r: Option<int>)
    ensures r.None? <==> p.Unconvertible? || (p.Given? && p.n.Float? && !p.n.d.Finite?)
    ensures p.Missing? ==> r == Some(DefaultMaxPages)
    ensures p.Given? ==> r == PyInt(p.n)
  {
    match p
    case Missing => Some(DefaultMaxPages)
    case Given(n) => PyInt(n)
    case Unconvertible => None
  }

  /** `float(data.get('delay', 1.0))`, `None` where `float()` raises. */
  function DelayArg(p: Param): (r: Option<Double>)
    ensures r.None? <==> p.Unconvertible? || (p.Given? && p.n.Int? && !(-FloatLimit < p.n.i < FloatLimit))
    ensures p.Missing? ==> r == Some(DefaultDelay)
    ensures p.Given? ==> r == PyFloat(p.n)
  {
    match p
    case Missing => Some(DefaultDelay)
    case Given(n) => PyFloat(n)
    case Unconvertible => None
  }

  /** `not start_url` */
  predicate Falsy(u: UrlParam) {
    match u
    case NoUrl => true
    case Text(s) => s == []
    case NotText(truthy) => !truthy
  }

  /** app.py:22-35. `body` is `None` when `get_json()` gives no object, so
      that `data.get` raises. The conversions of `max_pages` and `delay`
      run before the URL is looked at, so a bad parameter is a 500 even
      without a URL. A URL that is truthy but not a string has no
      `startswith` and raises. */
  function StartCrawl(body: Option<CrawlRequest>): (r: StartResponse)
    ensures body.None? ==> r.ServerError?
    ensures body.Some? && (MaxPagesArg(body.value.maxPages).None? || DelayArg(body.value.delay).None?) ==> r.ServerError?
    ensures r.BadRequest? <==> body.Some? && MaxPagesArg(body.value.maxPages).Some?
                               && DelayArg(body.value.delay).Some? && Falsy(body.value.url)
    ensures r.BadRequest? ==> r.error == UrlRequired
    ensures r.Started? <==> body.Some? && MaxPagesArg(body.value.maxPages).Some?
                            && DelayArg(body.value.delay).Some? && body.value.url.Text? && body.value.url.s != []
                            && FitsSqliteInteger(MaxPagesArg(body.value.maxPages).value)
    ensures r.Started? ==> && HasWebScheme(r.startUrl)
                           && r.startUrl == WithScheme(body.value.url.s)
                           && Some(r.maxPages) == MaxPagesArg(body.value.maxPages)
                           && Some(r.delay) == DelayArg(body.value.delay)
  {
    match body
    case None => ServerError
    case Some(req) =>
      var maxPages := MaxPagesArg(req.maxPages);
      var delay := DelayArg(req.delay);
      if maxPages.None? || delay.None? then ServerError
      else if Falsy(req.url) then BadRequest(UrlRequired)
      else if !req.url.Text? then ServerError
      else if !FitsSqliteInteger(maxPages.value) then ServerError
      else Started(WithScheme(req.url.s), maxPages.value, delay.value)
  }

  /** A crawl that starts begins at a web URL: the given one when it already
      has the scheme, otherwise the given one behind `http://`; prefixing
      again would change nothing. */
  lemma StartedUrl(body: Option<CrawlRequest>)
    requires StartCrawl(body).Started?
    ensures var u, s := StartCrawl(body).startUrl, body.value.url.s;
      && HasWebScheme(u)
      && (HasWebScheme(s) ==> u == s)
      && (!HasWebScheme(s) ==> u == "http://" + s)
      && WithScheme(u) == u
  {
    WithSchemeIdempotent(body.value.url.s);
  }

  /** Without `max_pages` and `delay` the crawl gets 50 pages and a one
      second delay. */
  lemma Defaults(url: string)
    requires url != []
    ensures StartCrawl(Some(CrawlRequest(Text(url), Missing, Missing))) == Started(WithScheme(url), 50, Finite(1.0))
  {
  }

  /** Integer parameters are passed on as given, with no clamping: a zero or
      negative cap or delay reaches the crawler. A 500 comes only from
      `float()` refusing a delay too large for a double, or from the INSERT
      refusing a cap outside SQLite's INTEGER range: a `max_pages` of
      9223372036854775808 is a 500, and so, by `FloatsUnchecked`, is one
      of `1e19`. */
  lemma NoClamping(url: string, maxPages: int, delay: int)
    requires url != []
    ensures StartCrawl(Some(CrawlRequest(Text(url), Given(Int(maxPages)), Given(Int(delay)))))
         == if -FloatLimit < delay < FloatLimit && FitsSqliteInteger(maxPages)
            then Started(WithScheme(url), maxPages, Finite(delay as real))
            else ServerError
  {
  }

  /** A float delay is never checked here: NaN, an infinity or a negative
      value reaches the crawler, where `time.sleep` raises on it. A float
      cap is truncated; it is refused when it is not finite (by `int()`) or
      when its truncation is outside SQLite's INTEGER range (by the INSERT). */
  lemma FloatsUnchecked(url: string, maxPages: Double, delay: Double)
    requires url != []
    ensures var r := StartCrawl(Some(CrawlRequest(Text(url), Given(Float(maxPages)), Given(Float(delay)))));
      && (r.ServerError? <==> !maxPages.Finite? || !FitsSqliteInteger(PyInt(Float(maxPages)).value))
      && (r.Started? ==> r.delay == delay && r.maxPages == PyInt(Float(maxPages)).value)
  {
  }

  // ---------------------------------------------------------------------
  // get_session_status

  /** `next((s for s in sessions if s['id'] == session_id), None)` */
  function FindSession(sessions: seq<Session>, id: int): (r: Option<Session>)
    ensures r.None? <==> forall i | 0 <= i < |sessions| :: sessions[i].id != id
    ensures r.Some? ==> r.value.id == id && r.value in sessions
  {
    if sessions == [] then None
    else if sessions[0].id == id then Some(sessions[0])
    else FindSession(sessions[1..], id)
  }

  /** The session found is the first one with the id. */
  lemma {:induction false} FindSessionFirst(sessions: seq<Session>, id: int, i: nat)
    requires i < |sessions| && sessions[i].id == id
    requires forall k | 0 <= k < i :: sessions[k].id != id
    ensures FindSession(sessions, id) == Some(sessions[i])
  {
    if i > 0 {
      assert sessions[0].id != id;
      forall k | 0 <= k < i - 1 ensures sessions[1..][k].id != id {
        assert sessions[1..][k] == sessions[k + 1];
      }
      FindSessionFirst(sessions[1..], id, i - 1);
    }
  }

  /** app.py:70-76: the first session in `get_sessions()` order whose id is
      `id`, or a 404. A found session is a non-empty dict, so `not session`
      only holds when nothing was found. */
  function GetSessionStatus(sessions: seq<Session>, id: int): (r: StatusResponse)
    ensures r.NotFound? <==> forall i | 0 <= i < |sessions| :: sessions[i].id != id
    ensures r.NotFound? ==> r.error == SessionNotFound
    ensures r.Found? ==> r.session.id == id && r.session in sessions
  {
    match FindSession(sessions, id)
    case None => NotFound(SessionNotFound)
    case Some(s) => Found(s)
  }

  /** The answer is the first matching session, whatever follows it. */
  lemma StatusIsFirstMatch(sessions: seq<Session>, id: int, i: nat)
    requires i < |sessions| && sessions[i].id == id
    requires forall k | 0 <= k < i :: sessions[k].id != id
    ensures GetSessionStatus(sessions, id) == Found(sessions[i])
  {
    FindSessionFirst(sessions, id, i);
  }
}
