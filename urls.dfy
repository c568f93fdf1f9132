/**
 * URLs as strings: the `('http://', 'https://')` prefix test used by
 * `_extract_links` and `start_crawl`, the prefixing step of `start_crawl`,
 * and the `netloc` that `urlparse` reports (CPython's `urlsplit`).
 */
module Urls {

  type Url = string

  predicate StartsWith(s: string, p: string) {
    |p| <= |s| && s[..|p|] == p
  }

  /** `u.startswith(('http://', 'https://'))`; the test is case-sensitive. */
  predicate HasWebScheme(u: string)
    ensures HasWebScheme(u) ==> 7 <= |u|
  {
    StartsWith(u, "http://") || StartsWith(u, "https://")
  }

  predicate IsAsciiLetter(c: char) {
    'a' <= c <= 'z' || 'A' <= c <= 'Z'
  }

  /** `urllib.parse.scheme_chars` */
  predicate IsSchemeChar(c: char) {
    IsAsciiLetter(c) || '0' <= c <= '9' || c == '+' || c == '-' || c == '.'
  }

  /** A character that ends the network location: `/`, `?` or `#`. */
  predicate IsHostDelim(c: char) {
    c == '/' || c == '?' || c == '#'
  }

  /** Index of the first `c` in `s`, or `|s|` when there is none. */
  function Find(s: string, c: char): (i: nat)
    ensures i <= |s|
    ensures i < |s| ==> s[i] == c
  {
    if s == [] || s[0] == c then 0 else 1 + Find(s[1..], c)
  }

  lemma {:induction false} FindIsFirst(s: string, c: char)
    ensures forall k | 0 <= k < Find(s, c) :: s[k] != c
  {
    if s != [] && s[0] != c {
      FindIsFirst(s[1..], c);
      forall k | 0 <= k < Find(s, c) ensures s[k] != c {
        if k > 0 {
          assert s[k] == s[1..][k - 1];
        }
      }
    }
  }

  /** Length of the network location at the start of `s`: up to the first
      `/`, `?` or `#`. */
  function HostEnd(s: string): (n: nat)
    ensures n <= |s|
    ensures n < |s| ==> IsHostDelim(s[n])
  {
    if s == [] || IsHostDelim(s[0]) then 0 else 1 + HostEnd(s[1..])
  }

  lemma {:induction false} HostEndIsFirst(s: string)
    ensures forall k | 0 <= k < HostEnd(s) :: !IsHostDelim(s[k])
  {
    if s != [] && !IsHostDelim(s[0]) {
      HostEndIsFirst(s[1..]);
      forall k | 0 <= k < HostEnd(s) ensures !IsHostDelim(s[k]) {
        if k > 0 {
          assert s[k] == s[1..][k - 1];
        }
      }
    }
  }

  /** Whether `u[..i]` is a scheme in the sense of `urlsplit`: `i` is the
      first `:`, it is not at the start, the first character is an ASCII
      letter and every character before it is a scheme character. */
  predicate SchemeEndsAt(u: string, i: nat) {
    && i == Find(u, ':')
    && 0 < i < |u|
    && IsAsciiLetter(u[0])
    && forall k | 0 <= k < i :: IsSchemeChar(u[k])
  }

  /** What `urlsplit` goes on parsing once it has removed the scheme and its `:`. */
  function AfterScheme(u: string): (r: string)
    ensures |r| <= |u|
  {
    var i := Find(u, ':');
    if SchemeEndsAt(u, i) then u[i + 1..] else u
  }

  /** `urlparse(u).netloc`: when what follows the scheme starts with `//`,
      the text after it up to the first `/`, `?` or `#`; otherwise empty. */
  function Netloc(u: string): (r: string)
    ensures forall k | 0 <= k < |r| :: !IsHostDelim(r[k])
    ensures |r| <= |u|
  {
    var rest := AfterScheme(u);
    if StartsWith(rest, "//") then
      var h := rest[2..];
      HostEndIsFirst(h);
      h[..HostEnd(h)]
    else
      []
  }

  /** The part of a web URL after `http://` or `https://`. */
  function WebRest(u: string): string
    requires HasWebScheme(u)
  {
    if StartsWith(u, "http://") then u[7..] else u[8..]
  }

  /** For a web URL the network location is everything after `//` up to the
      first `/`, `?` or `#`. */
  lemma WebNetloc(u: string)
    requires HasWebScheme(u)
    ensures Netloc(u) == WebRest(u)[..HostEnd(WebRest(u))]
  {
    var i := if StartsWith(u, "http://") then 4 else 5;
    assert u[..i + 1][i] == ':';
    assert forall k | 0 <= k < i :: u[k] != ':' by {
      forall k | 0 <= k < i ensures u[k] != ':' {
        assert u[k] == u[..i + 1][k];
      }
    }
    FindAt(u, ':', i);
    assert SchemeEndsAt(u, i);
    assert AfterScheme(u) == u[i + 1..];
    assert u[i + 1..][2..] == WebRest(u);
  }

  lemma {:induction false} HostEndAt(s: string, n: nat)
    requires n <= |s| && (n == |s| || IsHostDelim(s[n]))
    requires forall k | 0 <= k < n :: !IsHostDelim(s[k])
    ensures HostEnd(s) == n
  {
    if n > 0 {
      assert forall k | 0 <= k < n - 1 :: !IsHostDelim(s[1..][k]) by {
        forall k | 0 <= k < n - 1 ensures !IsHostDelim(s[1..][k]) {
          assert s[1..][k] == s[k + 1];
        }
      }
      HostEndAt(s[1..], n - 1);
    }
  }

  lemma {:induction false} FindAt(s: string, c: char, n: nat)
    requires n < |s| && s[n] == c
    requires forall k | 0 <= k < n :: s[k] != c
    ensures Find(s, c) == n
  {
    if n > 0 {
      assert forall k | 0 <= k < n - 1 :: s[1..][k] != c by {
        forall k | 0 <= k < n - 1 ensures s[1..][k] != c {
          assert s[1..][k] == s[k + 1];
        }
      }
      FindAt(s[1..], c, n - 1);
    }
  }

  lemma HostThenPath(host: string, path: string)
    requires forall k | 0 <= k < |host| :: !IsHostDelim(host[k])
    requires path == [] || IsHostDelim(path[0])
    ensures (host + path)[..HostEnd(host + path)] == host
  {
    var s := host + path;
    forall k | 0 <= k < |host| ensures !IsHostDelim(s[k]) {
      assert s[k] == host[k];
    }
    if path != [] {
      assert s[|host|] == path[0];
    }
    HostEndAt(s, |host|);
    assert s[..|host|] == host;
  }

  lemma NetlocOfWebRest(u: string, host: string, path: string)
    requires HasWebScheme(u) && WebRest(u) == host + path
    requires forall k | 0 <= k < |host| :: !IsHostDelim(host[k])
    requires path == [] || IsHostDelim(path[0])
    ensures Netloc(u) == host
  {
    WebNetloc(u);
    HostThenPath(host, path);
  }

  lemma HttpRest(rest: string)
    ensures HasWebScheme("http://" + rest) && WebRest("http://" + rest) == rest
  {
    var u := "http://" + rest;
    assert u[..7] == "http://";
  }

  lemma HttpsRest(rest: string)
    ensures HasWebScheme("https://" + rest) && WebRest("https://" + rest) == rest
  {
    var v := "https://" + rest;
    assert v[..8] == "https://" && v[..7][4] == 's';
  }

  /** The network location of `http://` or `https://`, a host, then a path,
      query or fragment is the host: pages of one site share it whatever
      their scheme and path. */
  lemma HostNetloc(host: string, path: string)
    requires forall k | 0 <= k < |host| :: !IsHostDelim(host[k])
    requires path == [] || IsHostDelim(path[0])
    ensures Netloc("http://" + host + path) == host
    ensures Netloc("https://" + host + path) == host
  {
    assert "http://" + host + path == "http://" + (host + path);
    assert "https://" + host + path == "https://" + (host + path);
    HttpRest(host + path);
    HttpsRest(host + path);
    NetlocOfWebRest("http://" + (host + path), host, path);
    NetlocOfWebRest("https://" + (host + path), host, path);
  }

  /** app.py:32-33: prefix `http://` unless the URL already starts with
      `http://` or `https://`. */
  function WithScheme(u: string): (r: string)
    ensures HasWebScheme(r)
    ensures HasWebScheme(u) ==> r == u
    ensures !HasWebScheme(u) ==> r == "http://" + u
    ensures |r| >= |u| && r[|r| - |u|..] == u
  {
    if HasWebScheme(u) then u else "http://" + u
  }

  /** Prefixing is idempotent. */
  lemma WithSchemeIdempotent(u: string)
    ensures WithScheme(WithScheme(u)) == WithScheme(u)
  {
  }

  /** The prefix test is case-sensitive: an upper-case scheme gets a second
      one in front of it, and the host is then read as `HTTPS:`. */
  lemma WithSchemeUpperCase(rest: string)
    ensures !HasWebScheme("HTTPS://" + rest)
    ensures Netloc(WithScheme("HTTPS://" + rest)) == "HTTPS:"
  {
    var u := "HTTPS://" + rest;
    assert u[..7][0] == 'H' && u[..8][0] == 'H';
    HttpRest(u);
    assert u == "HTTPS:" + ("//" + rest);
    NetlocOfWebRest("http://" + u, "HTTPS:", "//" + rest);
  }
}
