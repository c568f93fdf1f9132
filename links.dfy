/**
 * `_extract_links` (crawler.py:191-213): every `<a href>` of a page is
 * resolved against the page URL, kept only when the result is an `http://`
 * or `https://` URL, and classified as internal when its network location is
 * the seed's.
 *
 * The HTML parser is an oracle: a page arrives as the sequence of its anchors
 * in document order. `urljoin` is an oracle too, `resolve(base, href)`,
 * answering `None` where `urljoin` raises `ValueError`; the exception is not
 * caught here, so extraction as a whole fails.
 */
module Links {
  import opened Wrappers
  import opened Text
  import opened Urls

  /** Longest anchor text kept (crawler.py:209). */
  const MaxTextLength := 200

  /** An `<a href=...>` element: its `href` attribute and its text. */
  datatype Anchor = Anchor(href: string, text: string)

  /** One entry of the returned list: `{'url', 'text', 'is_internal'}`. */
  datatype Link = Link(url: Url, text: string, isInternal: bool)

  /** How one anchor is handled: `urljoin` raised, the result is not a web
      URL (`continue`), or a link is appended. */
  datatype AnchorResult = Failed | Dropped | Found(link: Link)

  /** The `urljoin` oracle. */
  type Resolver = (Url, string) -> Option<Url>

  /** `s[:n]` on a string: the first `n` characters, or all of them. */
  function Truncate(s: string, n: nat): (r: string)
    ensures |r| <= n && |r| <= |s|
    ensures r == s[..|r|]
    ensures |s| <= n ==> r == s
    ensures |s| > n ==> |r| == n
  {
    if |s| <= n then s else s[..n]
  }

  /** `link.get_text().strip()[:200]` */
  function AnchorText(text: string): (r: string)
    ensures |r| <= MaxTextLength && |r| <= |Strip(text)|
    ensures r == Strip(text)[..|r|]
    ensures r == [] || !IsSpace(r[0])
    ensures |Strip(text)| <= MaxTextLength ==> r == Strip(text)
    ensures |Strip(text)| > MaxTextLength ==> |r| == MaxTextLength
  {
    Truncate(Strip(text), MaxTextLength)
  }

  /** Stripping happens before the cut, so a long text cut after a space
      keeps that space at its end. */
  lemma AnchorTextMayEndInSpace(w: string)
    requires |w| == MaxTextLength - 1 && NoSpace(w) && w != []
    ensures var r := AnchorText(w + " x");
      |r| == MaxTextLength && r[|r| - 1] == ' '
  {
    var t := w + " x";
    assert !IsSpace(t[0]) && !IsSpace(t[|t| - 1]);
    StripTrimmed(t);
    assert t[..MaxTextLength][MaxTextLength - 1] == ' ';
  }

  /** crawler.py:197-211 for one anchor. */
  function ClassifyAnchor(a: Anchor, base: Url, domain: string, resolve: Resolver): (r: AnchorResult)
    ensures r.Failed? <==> resolve(base, a.href).None?
    ensures r.Found? ==> resolve(base, a.href) == Some(r.link.url)
    ensures r.Found? ==> HasWebScheme(r.link.url)
    ensures r.Found? ==> (r.link.isInternal <==> Netloc(r.link.url) == domain)
    ensures r.Found? ==> r.link.text == AnchorText(a.text)
    ensures r.Dropped? <==> (resolve(base, a.href).Some? && !HasWebScheme(resolve(base, a.href).value))
  {
    match resolve(base, a.href)
    case None => Failed
    case Some(u) =>
      if !HasWebScheme(u) then Dropped
      else Found(Link(u, AnchorText(a.text), Netloc(u) == domain))
  }

  /** What `_extract_links` returns for the anchors `anchors` of the page at
      `base`: `None` when `urljoin` raises for one of them, otherwise the
      links of the kept anchors in document order. */
  function Classified(anchors: seq<Anchor>, base: Url, domain: string, resolve: Resolver): (r: Option<seq<Link>>)
    ensures r.Some? ==> |r.value| <= |anchors|
  {
    if anchors == [] then Some([])
    else
      Extend(Classified(anchors[..|anchors| - 1], base, domain, resolve),
             ClassifyAnchor(anchors[|anchors| - 1], base, domain, resolve))
  }

  /** The list after one more anchor has been handled. */
  function Extend(acc: Option<seq<Link>>, a: AnchorResult): Option<seq<Link>> {
    match acc
    case None => None
    case Some(ls) =>
      match a
      case Failed => None
      case Dropped => Some(ls)
      case Found(l) => Some(ls + [l])
  }

  lemma ExtendUnderPrefix(p: seq<Link>, ls: seq<Link>, a: AnchorResult)
    requires Extend(Some(ls), a).Some?
    ensures Extend(Some(p + ls), a) == Some(p + Extend(Some(ls), a).value)
  {
    if a.Found? {
      assert p + ls + [a.link] == p + (ls + [a.link]);
    }
  }

  /** crawler.py:191-213: the loop over the anchors, appending to `links`. */
  method ExtractLinks(anchors: seq<Anchor>, base: Url, domain: string, resolve: Resolver)
    returns (r: Option<seq<Link>>)
    ensures r == Classified(anchors, base, domain, resolve)
  {
    var links: seq<Link> := [];
    var i := 0;
    while i < |anchors|
      invariant 0 <= i <= |anchors|
      invariant Classified(anchors[..i], base, domain, resolve) == Some(links)
    {
      assert anchors[..i + 1][..i] == anchors[..i];
      var a := anchors[i];
      var fullUrl := resolve(base, a.href);
      if fullUrl.None? {
        PrefixFailed(anchors, i + 1, base, domain, resolve);
        return None;
      }
      var u := fullUrl.value;
      if !HasWebScheme(u) {
        i := i + 1;
        continue;
      }
      var isInternal := Netloc(u) == domain;
      links := links + [Link(u, AnchorText(a.text), isInternal)];
      i := i + 1;
    }
    assert anchors[..i] == anchors;
    r := Some(links);
  }

  /** Once an anchor fails to resolve, the whole extraction fails. */
  lemma {:induction false} PrefixFailed(anchors: seq<Anchor>, n: nat, base: Url, domain: string, resolve: Resolver)
    requires n <= |anchors|
    requires Classified(anchors[..n], base, domain, resolve).None?
    ensures Classified(anchors, base, domain, resolve).None?
    decreases |anchors| - n
  {
    if n < |anchors| {
      assert anchors[..n + 1][..n] == anchors[..n];
      PrefixFailed(anchors, n + 1, base, domain, resolve);
    } else {
      assert anchors[..n] == anchors;
    }
  }

  // ---------------------------------------------------------------------
  // Properties of the returned list

  /** Extraction fails exactly when `urljoin` raises for some anchor. */
  lemma {:induction false} FailsIffSomeAnchorFails(anchors: seq<Anchor>, base: Url, domain: string, resolve: Resolver)
    ensures Classified(anchors, base, domain, resolve).None?
        <==> exists i | 0 <= i < |anchors| :: resolve(base, anchors[i].href).None?
  {
    if anchors != [] {
      var init := anchors[..|anchors| - 1];
      FailsIffSomeAnchorFails(init, base, domain, resolve);
      if exists i | 0 <= i < |init| :: resolve(base, init[i].href).None? {
        var i :| 0 <= i < |init| && resolve(base, init[i].href).None?;
        assert anchors[i] == init[i];
      }
      if exists i | 0 <= i < |anchors| :: resolve(base, anchors[i].href).None? {
        var i :| 0 <= i < |anchors| && resolve(base, anchors[i].href).None?;
        if i < |init| {
          assert init[i] == anchors[i];
        }
      }
    }
  }

  /** Every returned link is a web URL with the stripped, cut text of its
      anchor, internal exactly when its network location is `domain`; there
      are at most as many links as anchors. */
  lemma {:induction false} LinksWellFormed(anchors: seq<Anchor>, base: Url, domain: string, resolve: Resolver)
    requires Classified(anchors, base, domain, resolve).Some?
    ensures var ls := Classified(anchors, base, domain, resolve).value;
      && |ls| <= |anchors|
      && (forall j | 0 <= j < |ls| ::
            && HasWebScheme(ls[j].url)
            && (ls[j].isInternal <==> Netloc(ls[j].url) == domain)
            && |ls[j].text| <= MaxTextLength
            && (ls[j].text == [] || !IsSpace(ls[j].text[0])))
  {
    if anchors != [] {
      LinksWellFormed(anchors[..|anchors| - 1], base, domain, resolve);
    }
  }

  /** Order follows the document: the links of `a + b` are those of `a`
      followed by those of `b`. */
  lemma {:induction false} ClassifiedAppend(a: seq<Anchor>, b: seq<Anchor>, base: Url, domain: string, resolve: Resolver)
    requires Classified(a, base, domain, resolve).Some? && Classified(b, base, domain, resolve).Some?
    ensures Classified(a + b, base, domain, resolve)
         == Some(Classified(a, base, domain, resolve).value + Classified(b, base, domain, resolve).value)
    decreases |b|
  {
    if b == [] {
      assert a + b == a;
      var la := Classified(a, base, domain, resolve).value;
      assert la + [] == la;
    } else {
      var b' := b[..|b| - 1];
      assert (a + b)[..|a + b| - 1] == a + b';
      assert (a + b)[|a + b| - 1] == b[|b| - 1];
      var c := ClassifyAnchor(b[|b| - 1], base, domain, resolve);
      assert Classified(b', base, domain, resolve).Some?;
      ClassifiedAppend(a, b', base, domain, resolve);
      ExtendUnderPrefix(Classified(a, base, domain, resolve).value, Classified(b', base, domain, resolve).value, c);
    }
  }

  /** Each link comes from a kept anchor: its URL is what that anchor
      resolved to. */
  lemma {:induction false} LinksComeFromAnchors(anchors: seq<Anchor>, base: Url, domain: string, resolve: Resolver)
    requires Classified(anchors, base, domain, resolve).Some?
    ensures var ls := Classified(anchors, base, domain, resolve).value;
      forall j | 0 <= j < |ls| :: exists i | 0 <= i < |anchors| :: resolve(base, anchors[i].href) == Some(ls[j].url)
  {
    if anchors != [] {
      var init := anchors[..|anchors| - 1];
      LinksComeFromAnchors(init, base, domain, resolve);
      var ls := Classified(anchors, base, domain, resolve).value;
      var ls0 := Classified(init, base, domain, resolve).value;
      forall j | 0 <= j < |ls| ensures exists i | 0 <= i < |anchors| :: resolve(base, anchors[i].href) == Some(ls[j].url) {
        if j < |ls0| {
          assert ls[j] == ls0[j];
          var i :| 0 <= i < |init| && resolve(base, init[i].href) == Some(ls0[j].url);
          assert anchors[i] == init[i];
        } else {
          assert resolve(base, anchors[|anchors| - 1].href) == Some(ls[j].url);
        }
      }
    }
  }
}
