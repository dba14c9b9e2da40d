/** How `Spider.EnqueueUrl` turns a reference found on a page into the string
    the frontier deduplicates on. This is the crawler's own rule, not the
    merge algorithm of section 5.2 of RFC 3986: the scheme and host are taken
    from the page only when the reference has none, a rooted reference path is
    kept as written, any other path (an empty one included) is joined onto
    the directory of the page's path and cleaned, and the fragment is dropped. */
module Reference {
  import opened Strings
  import GoPath
  import Urls

  /** The resolved URL for `ref` found on the page at `base`. */
  function Resolve(ref: Urls.Url, base: Urls.Url): (r: Urls.Url)
    ensures r.fragment == ""
    ensures r.rootless == ref.rootless && r.query == ref.query
  {
    ref.(scheme := if ref.scheme == "" then base.scheme else ref.scheme,
         host := if ref.host == "" then base.host else ref.host,
         path := if GoPath.IsAbs(ref.path) then ref.path
                 else GoPath.Join(GoPath.Dir(base.path), ref.path),
         fragment := "")
  }

  /** The string `EnqueueUrl` deduplicates on. Without a location (a seed) it
      is the text itself, fragment and all; with one, it is the printed
      resolution of the parsed text, and nothing when the text does not parse. */
  function Normalize(next: string, location: Option<Urls.Url>): Option<string> {
    match location
    case None => Some(next)
    case Some(base) =>
      match Urls.Parse(next)
      case Malformed(_) => None
      case Parsed(ref) => Some(Urls.ToString(Resolve(ref, base)))
  }

  /** The scheme and the host each come from the reference when it has one
      and from the page otherwise; the reference's own parts are never
      overridden. */
  lemma ResolveAuthority(ref: Urls.Url, base: Urls.Url)
    ensures var r := Resolve(ref, base);
            (ref.scheme != "" ==> r.scheme == ref.scheme) && (ref.scheme == "" ==> r.scheme == base.scheme) &&
            (ref.host != "" ==> r.host == ref.host) && (ref.host == "" ==> r.host == base.host)
  {
  }

  /** A rooted reference path is kept exactly as written (it is not cleaned);
      any other path is the cleaned join of the page's directory and the
      reference path, and is therefore clean and rooted when the page's path is. */
  lemma ResolvePath(ref: Urls.Url, base: Urls.Url)
    ensures var r := Resolve(ref, base);
            (GoPath.IsAbs(ref.path) ==> r.path == ref.path) &&
            (!GoPath.IsAbs(ref.path) ==>
               r.path == GoPath.Clean(GoPath.Dir(base.path) + "/" + ref.path) &&
               GoPath.Clean(r.path) == r.path &&
               (GoPath.IsAbs(r.path) <==> GoPath.IsAbs(base.path)))
  {
    if !GoPath.IsAbs(ref.path) {
      GoPath.JoinOntoDir(base.path, ref.path);
      var joined := GoPath.Dir(base.path) + "/" + ref.path;
      GoPath.CleanIdempotent(joined);
      GoPath.CleanKeepsRoot(joined);
      GoPath.DirShape(base.path);
      assert GoPath.IsAbs(joined) <==> GoPath.IsAbs(GoPath.Dir(base.path));
    }
  }

  /** A reference with no path (`?q`, `#x`, or even `http://other.host`)
      resolves to the directory of the page, not to the page itself. */
  lemma EmptyPathResolvesToDirectory(ref: Urls.Url, base: Urls.Url)
    requires ref.path == ""
    ensures Resolve(ref, base).path == GoPath.Dir(base.path)
  {
    GoPath.DirShape(base.path);
    GoPath.JoinOntoDir(base.path, "");
    GoPath.CleanTrailingSlash(GoPath.Dir(base.path));
    assert GoPath.Dir(base.path) + "/" + "" == GoPath.Dir(base.path) + "/";
  }

  /** Resolving twice against a page with a rooted or an empty path (a page
      fetched as `http://host`) changes nothing more. */
  lemma ResolveIdempotent(ref: Urls.Url, base: Urls.Url)
    requires base.path == "" || GoPath.IsAbs(base.path)
    ensures Resolve(Resolve(ref, base), base) == Resolve(ref, base)
  {
    ResolvePath(ref, base);
    var r := Resolve(ref, base);
    if base.path == "" && !GoPath.IsAbs(ref.path) {
      ResolvePath(r, base);
      assert GoPath.Dir(base.path) == "." by {
        assert GoPath.UpToLastSlash(base.path) == "";
      }
      assert "." + "/" + r.path == "./" + r.path;
      GoPath.CleanDotSlash(r.path);
    }
  }

  /** A frontier entry that is already absolute, rooted and fragment-free
      normalizes to itself on any page; with a fragment, only the fragment goes. */
  lemma NormalizeAbsolute(u: Urls.Url, base: Urls.Url)
    requires Urls.IsAbsolute(u) && u.host != "" && GoPath.IsAbs(u.path)
    ensures Normalize(Urls.ToString(u), Some(base)) == Some(Urls.ToString(u.(fragment := "")))
  {
    Urls.ParseToString(u);
  }

  /** Seeds are taken verbatim, and a text that does not parse yields nothing. */
  lemma NormalizeCases(next: string, location: Option<Urls.Url>)
    ensures location.None? ==> Normalize(next, location) == Some(next)
    ensures location.Some? && Urls.Parse(next).Malformed? ==> Normalize(next, location).None?
  {
  }

  /** The page the worked examples below are found on: `http://x.com/a/b.html`. */
  function ExamplePage(): Urls.Url {
    Urls.Url("http", "", "x.com", "/a/b.html", None, "")
  }

  function RelativeRef(path: string): Urls.Url {
    Urls.Url("", "", "", path, None, "")
  }

  /** `c.gif` on the example page resolves to `http://x.com/a/c.gif`. */
  lemma ResolveSibling(ref: Urls.Url, page: Urls.Url)
    requires ref == RelativeRef("c.gif") && page == ExamplePage()
    ensures Resolve(ref, page) == Urls.Url("http", "", "x.com", "/a/c.gif", None, "")
  {
    GoPath.DirExample(page.path);
    GoPath.JoinSiblingExample(GoPath.Dir(page.path), ref.path);
  }

  /** `../c.gif` on the example page resolves to `http://x.com/c.gif`. */
  lemma ResolveParent(ref: Urls.Url, page: Urls.Url)
    requires ref == RelativeRef("../c.gif") && page == ExamplePage()
    ensures Resolve(ref, page) == Urls.Url("http", "", "x.com", "/c.gif", None, "")
  {
    GoPath.DirExample(page.path);
    GoPath.JoinParentExample(GoPath.Dir(page.path), ref.path);
  }

  /** The text of a resolved http URL with a host and a path. */
  lemma PrintHttp(u: Urls.Url, host: string, path: string)
    requires u == Urls.Url("http", "", host, path, None, "") && host != "" && path != "" && path[0] == '/'
    ensures Urls.ToString(u) == "http://" + host + path
  {
  }

  lemma PrintSibling(u: Urls.Url)
    requires u == Urls.Url("http", "", "x.com", "/a/c.gif", None, "")
    ensures Urls.ToString(u) == "http://x.com/a/c.gif"
  {
    PrintHttp(u, "x.com", "/a/c.gif");
  }

  lemma PrintParent(u: Urls.Url)
    requires u == Urls.Url("http", "", "x.com", "/c.gif", None, "")
    ensures Urls.ToString(u) == "http://x.com/c.gif"
  {
    PrintHttp(u, "x.com", "/c.gif");
  }

  /** As text: the key built for `c.gif` found on the example page is
      `http://x.com/a/c.gif`, the printed form of the record `resolved`. */
  lemma NormalizeSibling(next: string, page: Urls.Url, resolved: Urls.Url)
    requires next == "c.gif" && page == ExamplePage()
    requires resolved == Urls.Url("http", "", "x.com", "/a/c.gif", None, "")
    ensures Normalize(next, Some(page)) == Some("http://x.com/a/c.gif")
  {
    assert next[1] != '/';
    assert !("//" <= next) && Urls.NoCtl(next) && '#' !in next && '?' !in next && ':' !in next;
    Urls.ParsePathOnly(next);
    ResolveSibling(RelativeRef(next), page);
    PrintSibling(resolved);
  }

  /** As text: the key built for `../c.gif` found on the example page is
      `http://x.com/c.gif`, the printed form of the record `resolved`. */
  lemma NormalizeParent(next: string, page: Urls.Url, resolved: Urls.Url)
    requires next == "../c.gif" && page == ExamplePage()
    requires resolved == Urls.Url("http", "", "x.com", "/c.gif", None, "")
    ensures Normalize(next, Some(page)) == Some("http://x.com/c.gif")
  {
    assert next[1] != '/';
    assert !("//" <= next) && Urls.NoCtl(next) && '#' !in next && '?' !in next && ':' !in next;
    Urls.ParsePathOnly(next);
    ResolveParent(RelativeRef(next), page);
    PrintParent(resolved);
  }

  lemma PrintRooted(u: Urls.Url)
    requires u == Urls.Url("http", "", "x.com", "/d.gif", None, "")
    ensures Urls.ToString(u) == "http://x.com/d.gif"
  {
    PrintHttp(u, "x.com", "/d.gif");
  }

  /** As text: the key built for `/d.gif` found on the example page is
      `http://x.com/d.gif`, the printed form of the record `resolved`. */
  lemma NormalizeRooted(next: string, page: Urls.Url, resolved: Urls.Url)
    requires next == "/d.gif" && page == ExamplePage()
    requires resolved == Urls.Url("http", "", "x.com", "/d.gif", None, "")
    ensures Normalize(next, Some(page)) == Some("http://x.com/d.gif")
  {
    assert next[1] != '/';
    assert !("//" <= next) && Urls.NoCtl(next) && '#' !in next && '?' !in next && ':' !in next;
    Urls.ParsePathOnly(next);
    ResolveRootedAndAbsolute();
    PrintRooted(resolved);
  }

  /** `/d.gif` on the example page resolves to `http://x.com/d.gif`, and
      `http://y.com/e.gif#frag` loses only its fragment. */
  lemma ResolveRootedAndAbsolute()
    ensures Resolve(RelativeRef("/d.gif"), ExamplePage()) == Urls.Url("http", "", "x.com", "/d.gif", None, "")
    ensures var other := Urls.Url("http", "", "y.com", "/e.gif", None, "frag");
            Resolve(other, ExamplePage()) == other.(fragment := "")
  {
  }
}
