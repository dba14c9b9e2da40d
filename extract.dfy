/** Link extraction: which strings a fetched page hands back to the frontier.
    The markup and stylesheet parsers are outside the model; their output
    comes in as a document-order list of elements and a token list. */
module Extract {
  import opened Strings

  datatype Attribute = Attribute(key: string, val: string)

  /** An element of the parsed page, as the markup parser leaves it: a
      lower-case tag name and the attributes in source order. */
  datatype Element = Element(tag: string, attrs: seq<Attribute>)

  predicate HasKey(attrs: seq<Attribute>, name: string) {
    exists i :: 0 <= i < |attrs| && attrs[i].key == name
  }

  predicate IsFirstWithKey(attrs: seq<Attribute>, name: string, i: int) {
    0 <= i < |attrs| && attrs[i].key == name && forall j :: 0 <= j < i ==> attrs[j].key != name
  }

  /** The `attr` closure of `parseHtml`: the value of the first attribute
      called `name`, or "" when there is none. */
  function Attr(attrs: seq<Attribute>, name: string): (v: string)
    ensures !HasKey(attrs, name) ==> v == ""
    ensures HasKey(attrs, name) ==> exists i :: IsFirstWithKey(attrs, name, i) && v == attrs[i].val
    decreases |attrs|
  {
    if attrs == [] then ""
    else if attrs[0].key == name then
      assert IsFirstWithKey(attrs, name, 0);
      attrs[0].val
    else
      var v := Attr(attrs[1..], name);
      assert HasKey(attrs, name) ==> HasKey(attrs[1..], name) by {
        if HasKey(attrs, name) {
          var i :| 0 <= i < |attrs| && attrs[i].key == name;
          assert attrs[1..][i - 1].key == name;
        }
      }
      assert HasKey(attrs[1..], name) ==> exists i :: IsFirstWithKey(attrs, name, i) && v == attrs[i].val by {
        if HasKey(attrs[1..], name) {
          var i :| IsFirstWithKey(attrs[1..], name, i) && v == attrs[1..][i].val;
          assert IsFirstWithKey(attrs, name, i + 1);
        }
      }
      v
  }

  /** A compiled selector `tag[has]`, or `tag[has][key="val"]` when
      `equals` is present. */
  datatype Selector = Selector(tag: string, has: string, equals: Option<Attribute>)

  /** The four package-level selectors, compiled once. */
  const LINKS := Selector("a", "href", None)
  const IMAGES := Selector("img", "src", None)
  const STYLESHEETS := Selector("link", "href", Some(Attribute("rel", "stylesheet")))
  const SCRIPTS := Selector("script", "src", None)

  predicate Matches(e: Element, q: Selector) {
    e.tag == q.tag && HasKey(e.attrs, q.has) &&
    (q.equals.Some? ==> q.equals.value in e.attrs)
  }

  /** The matching elements, in document order. */
  function MatchAll(doc: seq<Element>, q: Selector): (m: seq<Element>)
    ensures |m| <= |doc|
    ensures forall i :: 0 <= i < |m| ==> Matches(m[i], q) && m[i] in doc
    ensures forall e :: e in doc && Matches(e, q) ==> e in m
    decreases |doc|
  {
    if doc == [] then []
    else
      var rest := MatchAll(doc[..|doc| - 1], q);
      var e := doc[|doc| - 1];
      assert forall x :: x in doc ==> x in doc[..|doc| - 1] || x == e;
      if Matches(e, q) then rest + [e] else rest
  }

  /** The positions of the matching elements, in increasing order. */
  function MatchIndices(doc: seq<Element>, q: Selector): (idx: seq<nat>)
    ensures forall k :: 0 <= k < |idx| ==> idx[k] < |doc|
    ensures forall k, l :: 0 <= k < l < |idx| ==> idx[k] < idx[l]
    ensures forall i :: 0 <= i < |doc| ==> (i in idx <==> Matches(doc[i], q))
    decreases |doc|
  {
    if doc == [] then []
    else
      var n := |doc| - 1;
      var init := doc[..n];
      var rest := MatchIndices(init, q);
      assert forall i :: 0 <= i < n ==> init[i] == doc[i];
      if Matches(doc[n], q) then rest + [n] else rest
  }

  /** `MatchAll` lists the matching elements in document order: its k-th
      element is the one at the k-th matching position. */
  lemma {:induction false} MatchAllInDocumentOrder(doc: seq<Element>, q: Selector)
    ensures var m := MatchAll(doc, q);
            var idx := MatchIndices(doc, q);
            |m| == |idx| && forall k :: 0 <= k < |idx| ==> m[k] == doc[idx[k]]
    decreases |doc|
  {
    if doc != [] {
      var n := |doc| - 1;
      MatchAllInDocumentOrder(doc[..n], q);
    }
  }

  /** The non-empty `key` values of `nodes`, in order: what one of the four
      loops of `parseHtml` passes on. */
  function Values(nodes: seq<Element>, key: string): seq<string>
    decreases |nodes|
  {
    if nodes == [] then []
    else
      var v := Attr(nodes[|nodes| - 1].attrs, key);
      Values(nodes[..|nodes| - 1], key) + (if v == "" then [] else [v])
  }

  /** Everything `parseHtml` enqueues, in order: all anchor hrefs, then image
      srcs, then stylesheet-link hrefs, then script srcs. */
  function HtmlReferences(doc: seq<Element>): seq<string> {
    Values(MatchAll(doc, LINKS), "href") + Values(MatchAll(doc, IMAGES), "src") +
    Values(MatchAll(doc, STYLESHEETS), "href") + Values(MatchAll(doc, SCRIPTS), "src")
  }

  /** A string is passed on for `nodes` exactly when it is the non-empty
      `key` value of one of them. */
  lemma {:induction false} ValuesMembers(nodes: seq<Element>, key: string, r: string)
    ensures r in Values(nodes, key) <==> r != "" && exists n :: n in nodes && Attr(n.attrs, key) == r
    decreases |nodes|
  {
    if nodes != [] {
      var init := nodes[..|nodes| - 1];
      ValuesMembers(init, key, r);
      assert forall n :: n in nodes <==> n in init || n == nodes[|nodes| - 1];
    }
  }

  /** Whether element `e` contributes `r` to the page's references. */
  predicate Contributes(e: Element, r: string) {
    r != "" &&
    ((e.tag == "a" && Attr(e.attrs, "href") == r) ||
     (e.tag == "img" && Attr(e.attrs, "src") == r) ||
     (e.tag == "link" && Attribute("rel", "stylesheet") in e.attrs && Attr(e.attrs, "href") == r) ||
     (e.tag == "script" && Attr(e.attrs, "src") == r))
  }

  lemma GroupMembers(doc: seq<Element>, q: Selector, r: string)
    requires q.has != ""
    ensures r in Values(MatchAll(doc, q), q.has) <==>
            r != "" && exists e :: e in doc && Matches(e, q) && Attr(e.attrs, q.has) == r
  {
    ValuesMembers(MatchAll(doc, q), q.has, r);
  }

  /** A string is among the page's references exactly when some element of
      the page contributes it; empty attribute values never are. */
  lemma HtmlReferencesMembers(doc: seq<Element>, r: string)
    ensures r in HtmlReferences(doc) <==> exists e :: e in doc && Contributes(e, r)
  {
    GroupMembers(doc, LINKS, r);
    GroupMembers(doc, IMAGES, r);
    GroupMembers(doc, STYLESHEETS, r);
    GroupMembers(doc, SCRIPTS, r);
  }

  datatype TokenType = URLToken | OtherToken

  /** A stylesheet token as the tokenizer reports it; a URL token's data is
      the whole `url(...)` text. */
  datatype Token = Token(tokenType: TokenType, data: string)

  const QUOTES: set<char> := {'"', '\''}

  /** The reference inside a URL token: one leading `url(` and one trailing
      `)` come off, then every leading and trailing quote character. */
  function StripUrl(data: string): (r: string)
    ensures r == [] || (r[0] !in QUOTES && r[|r| - 1] !in QUOTES)
  {
    Trim(TrimSuffix(TrimPrefix(data, "url("), ")"), QUOTES)
  }

  /** The inverse of wrapping: `url(` + quote + s + quote + `)` strips back to
      `s` for an unquoted `s`, with double, single or no quotes. */
  lemma StripUrlUnwraps(s: string, quote: string)
    requires quote == "\"" || quote == "'" || quote == ""
    requires s == [] || (s[0] !in QUOTES && s[|s| - 1] !in QUOTES)
    ensures StripUrl("url(" + quote + s + quote + ")") == s
  {
    var inner := quote + s + quote;
    assert "url(" + quote + s + quote + ")" == "url(" + (inner + ")");
    TrimPrefixOf("url(", inner + ")");
    TrimSuffixOf(inner, ")");
    if quote == "" {
      assert inner == s;
      TrimKeepsUntrimmed(s, QUOTES);
    } else {
      assert inner == [quote[0]] + s + [quote[0]];
      TrimEnclosed(s, quote[0], QUOTES);
    }
  }

  /** The stylesheet cases: `url("a.gif")` gives `a.gif`, ... */
  lemma StripDoubleQuoted(data: string)
    requires data == "url(\"a.gif\")"
    ensures StripUrl(data) == "a.gif"
  {
    assert "url(" + "\"" + "a.gif" + "\"" + ")" == data;
    StripUrlUnwraps("a.gif", "\"");
  }

  /** ... `url('la.gif')` gives `la.gif`, ... */
  lemma StripSingleQuoted(data: string)
    requires data == "url('la.gif')"
    ensures StripUrl(data) == "la.gif"
  {
    assert "url(" + "'" + "la.gif" + "'" + ")" == data;
    StripUrlUnwraps("la.gif", "'");
  }

  /** ... and `url(ps.gif)` gives `ps.gif`. */
  lemma StripUnquoted(data: string)
    requires data == "url(ps.gif)"
    ensures StripUrl(data) == "ps.gif"
  {
    assert "url(" + "" + "ps.gif" + "" + ")" == data;
    StripUrlUnwraps("ps.gif", "");
  }

  /** Everything `parseCss` enqueues: the stripped text of every URL token in
      order, an empty one included. */
  function CssReferences(tokens: seq<Token>): seq<string>
    decreases |tokens|
  {
    if tokens == [] then []
    else
      var t := tokens[|tokens| - 1];
      CssReferences(tokens[..|tokens| - 1]) + (if t.tokenType == URLToken then [StripUrl(t.data)] else [])
  }

  /** One reference per URL token, none for any other token. */
  lemma {:induction false} CssReferencesCount(tokens: seq<Token>)
    ensures |CssReferences(tokens)| == |set i | 0 <= i < |tokens| && tokens[i].tokenType == URLToken|
    decreases |tokens|
  {
    if tokens != [] {
      var n := |tokens| - 1;
      var init := tokens[..n];
      CssReferencesCount(init);
      var before := set i | 0 <= i < n && init[i].tokenType == URLToken;
      var after := set i | 0 <= i < |tokens| && tokens[i].tokenType == URLToken;
      if tokens[n].tokenType == URLToken {
        assert after == before + {n};
      } else {
        assert after == before;
      }
    }
  }

  /** The text of every URL token, in order. */
  function UrlData(tokens: seq<Token>): seq<string>
    decreases |tokens|
  {
    if tokens == [] then []
    else
      var t := tokens[|tokens| - 1];
      UrlData(tokens[..|tokens| - 1]) + (if t.tokenType == URLToken then [t.data] else [])
  }

  /** `f` applied to the text of every URL token, in order. */
  function MapUrlData(tokens: seq<Token>, f: string -> string): seq<string>
    decreases |tokens|
  {
    if tokens == [] then []
    else
      var t := tokens[|tokens| - 1];
      MapUrlData(tokens[..|tokens| - 1], f) + (if t.tokenType == URLToken then [f(t.data)] else [])
  }

  lemma {:induction false} MapUrlDataByIndex(tokens: seq<Token>, f: string -> string)
    ensures |MapUrlData(tokens, f)| == |UrlData(tokens)|
    ensures forall k :: 0 <= k < |UrlData(tokens)| ==> MapUrlData(tokens, f)[k] == f(UrlData(tokens)[k])
    decreases |tokens|
  {
    if tokens != [] {
      MapUrlDataByIndex(tokens[..|tokens| - 1], f);
    }
  }

  lemma {:induction false} CssReferencesMapUrlData(tokens: seq<Token>)
    ensures CssReferences(tokens) == MapUrlData(tokens, StripUrl)
    decreases |tokens|
  {
    if tokens != [] {
      CssReferencesMapUrlData(tokens[..|tokens| - 1]);
    }
  }

  /** The k-th reference of a stylesheet is the stripped text of its k-th URL token. */
  lemma CssReferencesStripUrlData(tokens: seq<Token>)
    ensures |CssReferences(tokens)| == |UrlData(tokens)|
    ensures forall k :: 0 <= k < |UrlData(tokens)| ==> CssReferences(tokens)[k] == StripUrl(UrlData(tokens)[k])
  {
    CssReferencesMapUrlData(tokens);
    MapUrlDataByIndex(tokens, StripUrl);
  }

  /** A text belongs to a URL token exactly when some URL token carries it. */
  lemma {:induction false} UrlDataMembers(tokens: seq<Token>, d: string)
    ensures d in UrlData(tokens) <==> exists i :: 0 <= i < |tokens| && tokens[i].tokenType == URLToken && tokens[i].data == d
    decreases |tokens|
  {
    if tokens != [] {
      var n := |tokens| - 1;
      UrlDataMembers(tokens[..n], d);
      assert forall i :: 0 <= i < n ==> tokens[..n][i] == tokens[i];
    }
  }

  /** The media type: the Content-Type header up to its first `;`, untrimmed. */
  function MediaType(header: string): (t: string)
    ensures t <= header && ';' !in t
    ensures t == header || header[|t|] == ';'
  {
    CutAt(header, ';').before
  }

  datatype Kind = Html | Css | Unhandled

  /** The dispatch of `Spider.Parse`: only the exact media types count. */
  function KindOf(mediaType: string): Kind {
    if mediaType == "text/html" then Html
    else if mediaType == "text/css" then Css
    else Unhandled
  }

  /** The media type is a given `;`-free type exactly when the header is that
      type, alone or followed at once by `;` and parameters. */
  lemma MediaTypeIs(header: string, t: string)
    requires ';' !in t
    ensures MediaType(header) == t <==> header == t || t + ";" <= header
  {
    if t + ";" <= header {
      assert header == t + [';'] + header[|t| + 1..];
      CutAtFirst(t, header[|t| + 1..], ';');
    }
    if MediaType(header) == t && t != header {
      assert header[..|t| + 1] == t + [';'];
    }
  }

  /** A header selects markup or stylesheet extraction exactly when it is
      `text/html` or `text/css`, alone or followed at once by `;` (whitespace
      before the `;` defeats it). */
  lemma HtmlHeaders(header: string)
    ensures KindOf(MediaType(header)) == Html <==> header == "text/html" || "text/html;" <= header
    ensures KindOf(MediaType(header)) == Css <==> header == "text/css" || "text/css;" <= header
  {
    MediaTypeIs(header, "text/html");
    MediaTypeIs(header, "text/css");
    assert "text/html" + ";" == "text/html;";
    assert "text/css" + ";" == "text/css;";
  }

  /** What the external parsers made of a response body: the page's elements
      in document order (`None` when the markup did not parse) and the
      stylesheet tokens. Only the one the media type selects is used. */
  datatype Content = Content(markup: Option<seq<Element>>, tokens: seq<Token>)

  /** The references `Spider.Parse` enqueues for a body of the given media
      type; `None` is the markup parse error it returns. */
  function References(mediaType: string, content: Content): Option<seq<string>> {
    match KindOf(mediaType)
    case Html => (match content.markup case None => None case Some(doc) => Some(HtmlReferences(doc)))
    case Css => Some(CssReferences(content.tokens))
    case Unhandled => Some([])
  }

  /** Any other media type extracts nothing and is not an error. */
  lemma UnhandledExtractsNothing(mediaType: string, content: Content)
    requires mediaType != "text/html" && mediaType != "text/css"
    ensures References(mediaType, content) == Some([])
  {
  }
}
