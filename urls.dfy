/** URLs as the crawler handles them: a record of the parts `net/url.URL`
    carries for a web address, with a parser and a printer that follow
    `url.Parse` and `URL.String` without percent-encoding, user information
    or host validation. */
module Urls {
  import opened Strings

  /** `query` is `Some(q)` when the text had a `?` (so `"a?"` keeps its
      empty query) and `None` when it had none. */
  datatype Url = Url(scheme: string, rootless: string, host: string, path: string,
                     query: Option<string>, fragment: string)

  datatype ParseError = InvalidControlCharacter | MissingProtocolScheme | ColonInFirstPathSegment

  datatype ParseResult = Parsed(url: Url) | Malformed(error: ParseError)

  predicate IsCtl(c: char) {
    c < ' ' || c as int == 127
  }

  predicate NoCtl(s: string) {
    forall i :: 0 <= i < |s| ==> !IsCtl(s[i])
  }

  predicate IsLetter(c: char) {
    'a' <= c <= 'z' || 'A' <= c <= 'Z'
  }

  predicate IsSchemeChar(c: char) {
    IsLetter(c) || '0' <= c <= '9' || c == '+' || c == '-' || c == '.'
  }

  /** Length of the longest prefix made of scheme characters. */
  function SchemeEnd(s: string): (n: nat)
    ensures n <= |s|
    ensures forall i :: 0 <= i < n ==> IsSchemeChar(s[i])
    ensures n < |s| ==> !IsSchemeChar(s[n])
    decreases |s|
  {
    if s == [] || !IsSchemeChar(s[0]) then 0 else 1 + SchemeEnd(s[1..])
  }

  datatype SchemeSplit = NoScheme | WithScheme(scheme: string, rest: string) | SchemeMissing

  /** The leading `scheme:` of a URL text: a letter followed by scheme
      characters, then a colon. A colon in first position is an error; any
      other shape means the text has no scheme. */
  function GetScheme(s: string): SchemeSplit {
    var n := SchemeEnd(s);
    if n < |s| && s[n] == ':' then
      if n == 0 then SchemeMissing
      else if IsLetter(s[0]) then WithScheme(s[..n], s[n + 1..])
      else NoScheme
    else NoScheme
  }

  function LowerChar(c: char): char {
    if 'A' <= c <= 'Z' then (c as int + 32) as char else c
  }

  function Lower(s: string): (r: string)
    ensures |r| == |s|
  {
    seq(|s|, i requires 0 <= i < |s| => LowerChar(s[i]))
  }

  /** Text up to the first slash: the first segment of a path. */
  function FirstSegment(s: string): string {
    CutAt(s, '/').before
  }

  /** `url.Parse`. The fragment is cut off at the first `#`; control
      characters before it are rejected; a scheme is split off and
      lower-cased; the query is cut off at the first `?`. A rest that does not
      start with a slash is rootless under a scheme, and must not carry a colon
      in its first segment without one. A rest starting with `//` (but not
      `///` when there is no scheme) holds an authority up to the next slash;
      what remains is the path. */
  function Parse(raw: string): ParseResult {
    var hash := CutAt(raw, '#');
    var u := hash.before;
    if !NoCtl(u) then Malformed(InvalidControlCharacter)
    else
      match GetScheme(u)
      case SchemeMissing => Malformed(MissingProtocolScheme)
      case NoScheme => ParseRest("", u, hash.after)
      case WithScheme(scheme, rest) => ParseRest(Lower(scheme), rest, hash.after)
  }

  function ParseRest(scheme: string, rest: string, fragment: string): ParseResult {
    var q := CutAt(rest, '?');
    var query := if q.found then Some(q.after) else None;
    var r := q.before;
    if !(r != [] && r[0] == '/') then
      if scheme != "" then Parsed(Url(scheme, r, "", "", query, fragment))
      else if ':' in FirstSegment(r) then Malformed(ColonInFirstPathSegment)
      else Parsed(Url("", "", "", r, query, fragment))
    else if (scheme != "" || !("///" <= r)) && "//" <= r then
      var a := CutAt(r[2..], '/');
      Parsed(Url(scheme, "", a.before, if a.found then "/" + a.after else "", query, fragment))
    else Parsed(Url(scheme, "", "", r, query, fragment))
  }

  /** A reference with no scheme, authority, query, fragment or colon, rooted
      or not, parses to a URL holding that text as its path and nothing else. */
  lemma ParsePathOnly(p: string)
    requires p != "" && !("//" <= p) && NoCtl(p)
    requires '#' !in p && '?' !in p && ':' !in p
    ensures Parse(p) == Parsed(Url("", "", "", p, None, ""))
  {
    CutAtAbsent(p, '#');
    CutAtAbsent(p, '?');
    var n := SchemeEnd(p);
    assert n < |p| ==> p[n] != ':';
    assert GetScheme(p) == NoScheme;
    assert ':' !in FirstSegment(p) by {
      var c := CutAt(p, '/');
      assert c.found ==> p == c.before + ['/'] + c.after;
    }
  }

  /** `URL.String`: `scheme:`, then the rootless part or `//host` and the path
      (with a slash put between a host and a relative path, and `./` in front
      of a bare relative path whose first segment has a colon), then `?query`
      and `#fragment` when present. */
  function ToString(u: Url): string {
    (if u.scheme != "" then u.scheme + ":" else "") +
    (if u.rootless != "" then u.rootless
     else
       (if u.scheme != "" || u.host != "" then "//" + u.host else "") +
       (if u.path != "" && u.path[0] != '/' && u.host != "" then "/" else "") +
       (if u.scheme == "" && u.host == "" && ':' in FirstSegment(u.path) then "./" else "") +
       u.path) +
    QuerySuffix(u.query) + FragmentSuffix(u.fragment)
  }

  /** `?query` when the text had a `?`, nothing otherwise. */
  function QuerySuffix(query: Option<string>): string {
    match query case Some(q) => "?" + q case None => ""
  }

  /** `#fragment` when the fragment is non-empty, nothing otherwise. */
  function FragmentSuffix(fragment: string): string {
    if fragment != "" then "#" + fragment else ""
  }

  predicate IsLowerSchemeChar(c: char) {
    IsSchemeChar(c) && !('A' <= c <= 'Z')
  }

  /** An absolute hierarchical URL as `Parse` produces it: a lower-case
      scheme, an authority, a path that is empty or rooted, and no `?` or `#`
      where the parser would have cut. The fragment may be anything. */
  predicate IsAbsolute(u: Url) {
    |u.scheme| > 0 && IsLetter(u.scheme[0]) &&
    (forall i :: 0 <= i < |u.scheme| ==> IsLowerSchemeChar(u.scheme[i])) &&
    u.rootless == "" &&
    NoCtl(u.host) && '/' !in u.host && '?' !in u.host && '#' !in u.host &&
    NoCtl(u.path) && '?' !in u.path && '#' !in u.path &&
    (u.path == "" || u.path[0] == '/') &&
    (u.query.Some? ==> NoCtl(u.query.value) && '#' !in u.query.value)
  }

  lemma NoCtlAppend(a: string, b: string)
    requires NoCtl(a) && NoCtl(b)
    ensures NoCtl(a + b)
  {
    assert forall i :: |a| <= i < |a + b| ==> (a + b)[i] == b[i - |a|];
  }

  lemma {:induction false} SchemeEndOf(scheme: string, rest: string)
    requires forall i :: 0 <= i < |scheme| ==> IsSchemeChar(scheme[i])
    requires rest != [] && !IsSchemeChar(rest[0])
    ensures SchemeEnd(scheme + rest) == |scheme|
    decreases |scheme|
  {
    if scheme != [] {
      assert (scheme + rest)[1..] == scheme[1..] + rest;
      SchemeEndOf(scheme[1..], rest);
    }
  }

  lemma LowerOfLower(s: string)
    requires forall i :: 0 <= i < |s| ==> IsLowerSchemeChar(s[i])
    ensures Lower(s) == s
  {
  }

  /** What follows `scheme:` in the text of an absolute URL, up to the fragment. */
  function Hierarchical(u: Url): string {
    "//" + u.host + u.path + QuerySuffix(u.query)
  }

  /** The fragment comes off at the first `#`. */
  lemma CutFragment(u: string, fragment: string)
    requires '#' !in u
    ensures CutAt(u + FragmentSuffix(fragment), '#').before == u
    ensures CutAt(u + FragmentSuffix(fragment), '#').after == fragment
  {
    if fragment != "" {
      assert u + FragmentSuffix(fragment) == u + ['#'] + fragment;
      CutAtFirst(u, fragment, '#');
    } else {
      assert u + FragmentSuffix(fragment) == u;
      CutAtAbsent(u, '#');
    }
  }

  /** A letter followed by scheme characters and a colon is split off as the scheme. */
  lemma GetSchemeOf(scheme: string, rest: string)
    requires |scheme| > 0 && IsLetter(scheme[0])
    requires forall i :: 0 <= i < |scheme| ==> IsSchemeChar(scheme[i])
    ensures GetScheme(scheme + ":" + rest) == WithScheme(scheme, rest)
  {
    SchemeEndOf(scheme, ":" + rest);
    assert scheme + ":" + rest == scheme + (":" + rest);
  }

  /** The fragment and a valid scheme come off first, whatever follows them. */
  lemma ParseSchemeAndFragment(scheme: string, rest: string, fragment: string)
    requires |scheme| > 0 && IsLetter(scheme[0])
    requires forall i :: 0 <= i < |scheme| ==> IsLowerSchemeChar(scheme[i])
    requires NoCtl(rest) && '#' !in rest
    ensures Parse(scheme + ":" + rest + FragmentSuffix(fragment)) == ParseRest(scheme, rest, fragment)
  {
    var beforeHash := scheme + ":" + rest;
    assert NoCtl(scheme);
    NoCtlAppend(scheme, ":");
    NoCtlAppend(scheme + ":", rest);
    assert '#' !in beforeHash;
    CutFragment(beforeHash, fragment);
    GetSchemeOf(scheme, rest);
    LowerOfLower(scheme);
  }

  /** The query comes off at the first `?` of the authority form. */
  lemma CutQuery(u: Url)
    requires '?' !in u.host && '?' !in u.path
    ensures var q := CutAt(Hierarchical(u), '?');
            q.before == "//" + u.host + u.path &&
            (if q.found then Some(q.after) else None) == u.query
  {
    var authority := "//" + u.host + u.path;
    assert '?' !in authority;
    if u.query.Some? {
      assert Hierarchical(u) == authority + ['?'] + u.query.value;
      CutAtFirst(authority, u.query.value, '?');
    } else {
      assert Hierarchical(u) == authority;
      CutAtAbsent(authority, '?');
    }
  }

  /** The host runs up to the first slash after `//`; the rest is the path. */
  lemma CutHost(host: string, path: string)
    requires '/' !in host && (path == "" || path[0] == '/')
    ensures var a := CutAt(host + path, '/');
            a.before == host && (if a.found then "/" + a.after else "") == path
  {
    if path != "" {
      assert host + path == host + ['/'] + path[1..];
      CutAtFirst(host, path[1..], '/');
    } else {
      assert host + path == host;
      CutAtAbsent(host, '/');
    }
  }

  lemma HierarchicalNoCtl(u: Url)
    requires IsAbsolute(u)
    ensures NoCtl(Hierarchical(u)) && '#' !in Hierarchical(u)
  {
    var authority := "//" + u.host + u.path;
    var q := QuerySuffix(u.query);
    assert Hierarchical(u) == authority + q;
    NoCtlAppend(u.host, u.path);
    NoCtlAppend("//", u.host + u.path);
    assert authority == "//" + (u.host + u.path);
    if u.query.Some? {
      NoCtlAppend("?", u.query.value);
    }
    NoCtlAppend(authority, q);
  }

  /** Under a scheme, a rest whose query-free part starts with `//` is read as an authority. */
  lemma ParseRestAuthority(scheme: string, rest: string, fragment: string)
    requires scheme != "" && "//" <= CutAt(rest, '?').before
    ensures var q := CutAt(rest, '?');
            var a := CutAt(q.before[2..], '/');
            ParseRest(scheme, rest, fragment) ==
              Parsed(Url(scheme, "", a.before, if a.found then "/" + a.after else "",
                         if q.found then Some(q.after) else None, fragment))
  {
    var r := CutAt(rest, '?').before;
    assert r != [] && r[0] == '/';
  }

  /** The authority form `//host/path?query` comes apart into its fields
      when the scheme is present and the host and path hold no separator
      the parser would cut at. */
  lemma ParseHierarchical(u: Url)
    requires u.scheme != "" && u.rootless == ""
    requires '/' !in u.host && '?' !in u.host && '?' !in u.path
    requires u.path == "" || u.path[0] == '/'
    ensures ParseRest(u.scheme, Hierarchical(u), u.fragment) == Parsed(u)
  {
    var h := Hierarchical(u);
    CutQuery(u);
    var q := CutAt(h, '?');
    assert q.before == "//" + u.host + u.path;
    assert (if q.found then Some(q.after) else None) == u.query;
    assert q.before[2..] == u.host + u.path;
    CutHost(u.host, u.path);
    var a := CutAt(q.before[2..], '/');
    assert a.before == u.host && (if a.found then "/" + a.after else "") == u.path;
    ParseRestAuthority(u.scheme, h, u.fragment);
  }

  /** The printed form of an absolute URL: `scheme:`, the authority form, the fragment. */
  lemma ToStringAbsolute(u: Url)
    requires IsAbsolute(u)
    ensures ToString(u) == u.scheme + ":" + Hierarchical(u) + FragmentSuffix(u.fragment)
  {
  }

  /** Printing an absolute URL and parsing the text back gives the same URL. */
  lemma ParseToString(u: Url)
    requires IsAbsolute(u)
    ensures Parse(ToString(u)) == Parsed(u)
  {
    ToStringAbsolute(u);
    HierarchicalNoCtl(u);
    ParseHierarchical(u);
    ParseSchemeAndFragment(u.scheme, Hierarchical(u), u.fragment);
  }
}
