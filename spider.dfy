/** The crawler itself: the `Spider` object with its host set, frontier and
    in-flight counter, and the methods that update them. The network and the
    filesystem come in as the functions `fetch` and `store`. */
module Crawler {
  import opened Strings
  import Urls
  import GoPath
  import Reference
  import Extract
  import Frontier

  /** An answer to a GET: the status code, the Content-Type header, the URL
      of the request that produced it (after any redirect), and what the
      external parsers made of the body, `None` when reading it failed. */
  datatype Response = Response(status: int, contentType: string, location: Urls.Url,
                               body: Option<Extract.Content>)

  datatype FetchResult = TransportError | Fetched(response: Response)

  /** How one `getUrl` ended: the error path it left by, or `Processed`
      with the media type and the page location references were resolved against. */
  datatype Outcome =
    | Unparsable
    | HostNotAllowed
    | TransportFailed
    | BadStatus(code: int)
    | ReadFailed
    | StoreFailed
    | ExtractFailed
    | Processed(mediaType: string, location: Urls.Url)

  /** The outcome of visiting one URL and the references the page hands
      back (none unless it was processed). */
  datatype VisitResult = VisitResult(outcome: Outcome, refs: seq<string>)

  /** The hosts `AddHost(urlString)` records: the parsed host, or none when
      the text does not parse. */
  function HostOf(urlString: string): set<string> {
    match Urls.Parse(urlString)
    case Parsed(u) => {u.host}
    case Malformed(_) => {}
  }

  function HostsOf(urls: seq<string>): set<string>
    decreases |urls|
  {
    if urls == [] then {} else HostsOf(urls[..|urls| - 1]) + HostOf(urls[|urls| - 1])
  }

  /** Where a fetched page is written: its path joined under the output folder. */
  function OutputPath(root: string, location: Urls.Url): string {
    GoPath.Join(root, location.path)
  }

  /** What one `getUrl` does with a dequeued string: parse it, check its
      host, fetch it, require status 200, read the body, store it, and
      extract references by media type. Each step that fails ends the visit. */
  function VisitOf(urlString: string, hosts: set<string>, root: string,
                   fetch: string -> FetchResult, store: string -> bool): VisitResult
  {
    match Urls.Parse(urlString)
    case Malformed(_) => VisitResult(Unparsable, [])
    case Parsed(u) =>
      if u.host !in hosts then VisitResult(HostNotAllowed, [])
      else
        match fetch(urlString)
        case TransportError => VisitResult(TransportFailed, [])
        case Fetched(r) =>
          if r.status != 200 then VisitResult(BadStatus(r.status), [])
          else if r.body.None? then VisitResult(ReadFailed, [])
          else if !store(OutputPath(root, r.location)) then VisitResult(StoreFailed, [])
          else
            var mediaType := Extract.MediaType(r.contentType);
            match Extract.References(mediaType, r.body.value)
            case None => VisitResult(ExtractFailed, [])
            case Some(refs) => VisitResult(Processed(mediaType, r.location), refs)
  }

  /** The frontier after a visit: a processed page's references are
      admitted relative to its location; any other outcome changes nothing. */
  function Settle(f: Frontier.State, v: VisitResult): Frontier.State {
    if v.outcome.Processed? then Frontier.AdmitAll(f, v.refs, Some(v.outcome.location)) else f
  }

  /** A string that does not parse, or whose host was never added, is
      abandoned before any fetch: the visit does not depend on the network or
      the filesystem, and it enqueues nothing. */
  lemma HostGate(urlString: string, hosts: set<string>, root: string,
                 fetch: string -> FetchResult, otherFetch: string -> FetchResult,
                 store: string -> bool, otherStore: string -> bool)
    requires Urls.Parse(urlString).Malformed? || Urls.Parse(urlString).url.host !in hosts
    ensures VisitOf(urlString, hosts, root, fetch, store) == VisitOf(urlString, hosts, root, otherFetch, otherStore)
    ensures VisitOf(urlString, hosts, root, fetch, store).outcome in {Unparsable, HostNotAllowed}
    ensures VisitOf(urlString, hosts, root, fetch, store).refs == []
  {
  }

  /** A page is processed only when its URL parsed with an added host, the
      fetch answered 200, the body was read and the file was stored; and it
      then hands back exactly what the extractor of its media type finds. */
  lemma ProcessedOnlyWhenFetched(urlString: string, hosts: set<string>, root: string,
                                 fetch: string -> FetchResult, store: string -> bool)
    ensures var v := VisitOf(urlString, hosts, root, fetch, store);
            v.outcome.Processed? <==>
              Urls.Parse(urlString).Parsed? && Urls.Parse(urlString).url.host in hosts &&
              fetch(urlString).Fetched? && fetch(urlString).response.status == 200 &&
              fetch(urlString).response.body.Some? &&
              store(OutputPath(root, fetch(urlString).response.location)) &&
              Extract.References(Extract.MediaType(fetch(urlString).response.contentType),
                                 fetch(urlString).response.body.value).Some?
    ensures var v := VisitOf(urlString, hosts, root, fetch, store);
            v.outcome.Processed? ==>
              v.outcome.location == fetch(urlString).response.location &&
              Some(v.refs) == Extract.References(v.outcome.mediaType, fetch(urlString).response.body.value)
    ensures var v := VisitOf(urlString, hosts, root, fetch, store);
            !v.outcome.Processed? ==> v.refs == []
  {
    var parsed := Urls.Parse(urlString);
    if parsed.Parsed? && parsed.url.host in hosts {
      var res := fetch(urlString);
      if res.Fetched? && res.response.status == 200 && res.response.body.Some? {
        var mediaType := Extract.MediaType(res.response.contentType);
        assert VisitOf(urlString, hosts, root, fetch, store) ==
               if !store(OutputPath(root, res.response.location)) then VisitResult(StoreFailed, [])
               else match Extract.References(mediaType, res.response.body.value)
                    case None => VisitResult(ExtractFailed, [])
                    case Some(refs) => VisitResult(Processed(mediaType, res.response.location), refs);
      }
    }
  }

  /** Settling a visit keeps the frontier invariant and never forgets a
      viewed string or reorders the queue. */
  lemma SettleKeepsConsistent(f: Frontier.State, served: seq<string>, v: VisitResult)
    requires Frontier.Consistent(f, served)
    ensures Frontier.Consistent(Settle(f, v), served)
    ensures f.viewed <= Settle(f, v).viewed && f.queue <= Settle(f, v).queue
  {
    if v.outcome.Processed? {
      Frontier.AdmitAllKeepsConsistent(f, served, v.refs, Some(v.outcome.location));
      Frontier.AdmitAllGrows(f, v.refs, Some(v.outcome.location));
    }
  }

  /** One `getUrl` on a string that is abandoned at the host gate: the queue
      loses its head, nothing is added, and the string stays viewed. */
  lemma AbandonedStaysViewed(f: Frontier.State, served: seq<string>, hosts: set<string>, root: string,
                             fetch: string -> FetchResult, store: string -> bool)
    requires Frontier.Consistent(f, served) && f.queue != []
    requires Urls.Parse(f.queue[0]).Malformed? || Urls.Parse(f.queue[0]).url.host !in hosts
    ensures var g := Settle(Frontier.Dequeue(f), VisitOf(f.queue[0], hosts, root, fetch, store));
            g.viewed == f.viewed && g.queue == f.queue[1..] && f.queue[0] in g.viewed
  {
    HostGate(f.queue[0], hosts, root, fetch, fetch, store, store);
    assert f.queue[0] in served + f.queue;
  }

  /** The hosts recorded by seeding are those of the seeds that parse. */
  lemma {:induction false} HostsOfMembers(urls: seq<string>, h: string)
    ensures h in HostsOf(urls) <==> exists i :: 0 <= i < |urls| && h in HostOf(urls[i])
    decreases |urls|
  {
    if urls != [] {
      var init := urls[..|urls| - 1];
      HostsOfMembers(init, h);
      if h in HostOf(urls[|urls| - 1]) {
        assert 0 <= |urls| - 1 < |urls| && h in HostOf(urls[|urls| - 1]);
      }
      if exists i :: 0 <= i < |urls| && h in HostOf(urls[i]) {
        var i :| 0 <= i < |urls| && h in HostOf(urls[i]);
        if i < |urls| - 1 {
          assert init[i] == urls[i];
        }
      }
    }
  }

  class Spider {
    const folderRoot: string
    var hosts: set<string>
    var viewed: set<string>
    var queue: seq<string>
    var inProcess: int
    /** Every string taken off the queue so far, in order. */
    ghost var served: seq<string>

    function State(): Frontier.State
      reads this
    {
      Frontier.State(viewed, queue)
    }

    ghost predicate Valid()
      reads this
    {
      Frontier.Consistent(State(), served)
    }

    /** `NewSpider`: empty host set, frontier and counter. */
    constructor (root: string)
      ensures folderRoot == root && hosts == {} && viewed == {} && queue == [] && inProcess == 0
      ensures served == [] && Valid()
    {
      folderRoot := root;
      hosts := {};
      viewed := {};
      queue := [];
      inProcess := 0;
      served := [];
      assert Frontier.Elems([]) == {};
    }

    method ProcessAdd()
      modifies this`inProcess
      ensures inProcess == old(inProcess) + 1
    {
      inProcess := inProcess + 1;
    }

    method ProcessDone()
      modifies this`inProcess
      ensures inProcess == old(inProcess) - 1
    {
      inProcess := inProcess - 1;
    }

    method ProcessAllDone() returns (done: bool)
      ensures done <==> inProcess == 0
    {
      done := inProcess == 0;
    }

    /** Records the host of `urlString`; a text that does not parse changes nothing. */
    method AddHost(urlString: string)
      modifies this`hosts
      ensures hosts == old(hosts) + HostOf(urlString)
      ensures Urls.Parse(urlString).Malformed? ==> hosts == old(hosts)
    {
      var u := Urls.Parse(urlString);
      if u.Malformed? {
        return;
      }
      hosts := hosts + {u.url.host};
    }

    /** Normalizes `next` against the page it was found on (a seed has no
      page), then queues it unless it was viewed before. */
    method EnqueueUrl(next: string, location: Option<Urls.Url>)
      modifies this`viewed, this`queue
      requires Valid()
      ensures Valid()
      ensures State() == Frontier.Admit(old(State()), next, location)
    {
      var urlString := Reference.Normalize(next, location);
      if urlString.None? {
        return;
      }
      if urlString.value in viewed {
        return;
      }
      Frontier.InsertKeepsConsistent(State(), served, urlString.value);
      viewed := viewed + {urlString.value};
      queue := queue + [urlString.value];
    }

    /** The seeding loop of `main`: each comma-separated part of the start
      flag has its host added and is queued verbatim. */
    method Seed(startUrl: string)
      modifies this`hosts, this`viewed, this`queue
      requires Valid()
      ensures Valid()
      ensures hosts == old(hosts) + HostsOf(Split(startUrl, ','))
      ensures State() == Frontier.AdmitAll(old(State()), Split(startUrl, ','), None)
    {
      var urls := Split(startUrl, ',');
      for i := 0 to |urls|
        invariant Valid()
        invariant hosts == old(hosts) + HostsOf(urls[..i])
        invariant State() == Frontier.AdmitAll(old(State()), urls[..i], None)
      {
        assert urls[..i + 1][..i] == urls[..i];
        AddHost(urls[i]);
        EnqueueUrl(urls[i], None);
      }
      assert urls[..|urls|] == urls;
    }

    /** One `getUrl`: take the head of the queue, count it in flight, visit
      it, and count it done on every exit path. */
    method GetUrl(fetch: string -> FetchResult, store: string -> bool) returns (outcome: Outcome)
      modifies this`viewed, this`queue, this`inProcess, this`served
      requires Valid() && queue != []
      ensures Valid()
      ensures served == old(served) + [old(queue)[0]]
      ensures inProcess == old(inProcess)
      ensures var v := VisitOf(old(queue)[0], hosts, folderRoot, fetch, store);
              outcome == v.outcome && State() == Settle(Frontier.Dequeue(old(State())), v)
    {
      Frontier.DequeueKeepsConsistent(State(), served);
      var urlString := queue[0];
      queue := queue[1..];
      served := served + [urlString];
      ProcessAdd();
      outcome := Visit(urlString, fetch, store);
      ProcessDone();
    }

    /** The body of `getUrl` after the dequeue. */
    method Visit(urlString: string, fetch: string -> FetchResult, store: string -> bool) returns (outcome: Outcome)
      modifies this`viewed, this`queue
      requires Valid()
      ensures Valid()
      ensures var v := VisitOf(urlString, hosts, folderRoot, fetch, store);
              outcome == v.outcome && State() == Settle(old(State()), v)
    {
      var parsed := Urls.Parse(urlString);
      if parsed.Malformed? {
        return Unparsable;
      }
      if parsed.url.host !in hosts {
        return HostNotAllowed;
      }
      var res := fetch(urlString);
      if res.TransportError? {
        return TransportFailed;
      }
      var response := res.response;
      if response.status != 200 {
        return BadStatus(response.status);
      }
      var mediaType := Extract.MediaType(response.contentType);
      if response.body.None? {
        return ReadFailed;
      }
      if !store(OutputPath(folderRoot, response.location)) {
        return StoreFailed;
      }
      var failed := Parse(mediaType, response.location, response.body.value);
      if failed {
        return ExtractFailed;
      }
      outcome := Processed(mediaType, response.location);
    }

    /** Dispatches on the media type; `failed` is the markup parse error. */
    method Parse(mediaType: string, location: Urls.Url, content: Extract.Content) returns (failed: bool)
      modifies this`viewed, this`queue
      requires Valid()
      ensures Valid()
      ensures failed <==> Extract.References(mediaType, content).None?
      ensures failed ==> State() == old(State())
      ensures !failed ==>
                State() == Frontier.AdmitAll(old(State()), Extract.References(mediaType, content).value, Some(location))
    {
      failed := false;
      if mediaType == "text/html" {
        if content.markup.None? {
          return true;
        }
        ParseHtml(content.markup.value, location);
      } else if mediaType == "text/css" {
        ParseCss(content.tokens, location);
      }
    }

    /** Queues the four selector groups of a page in turn. */
    method ParseHtml(doc: seq<Extract.Element>, location: Urls.Url)
      modifies this`viewed, this`queue
      requires Valid()
      ensures Valid()
      ensures State() == Frontier.AdmitAll(old(State()), Extract.HtmlReferences(doc), Some(location))
    {
      var f0 := State();
      var links := Extract.MatchAll(doc, Extract.LINKS);
      var imgs := Extract.MatchAll(doc, Extract.IMAGES);
      var styles := Extract.MatchAll(doc, Extract.STYLESHEETS);
      var scripts := Extract.MatchAll(doc, Extract.SCRIPTS);
      var a := Extract.Values(links, "href");
      var b := Extract.Values(imgs, "src");
      var c := Extract.Values(styles, "href");
      var d := Extract.Values(scripts, "src");
      EnqueueGroup(links, "href", location);
      EnqueueGroup(imgs, "src", location);
      Frontier.AdmitAllConcat(f0, a, b, Some(location));
      EnqueueGroup(styles, "href", location);
      Frontier.AdmitAllConcat(f0, a + b, c, Some(location));
      EnqueueGroup(scripts, "src", location);
      Frontier.AdmitAllConcat(f0, a + b + c, d, Some(location));
    }

    /** One loop of `parseHtml`: the `key` value of each node, skipping empty ones. */
    method EnqueueGroup(nodes: seq<Extract.Element>, key: string, location: Urls.Url)
      modifies this`viewed, this`queue
      requires Valid()
      ensures Valid()
      ensures State() == Frontier.AdmitAll(old(State()), Extract.Values(nodes, key), Some(location))
    {
      for i := 0 to |nodes|
        invariant Valid()
        invariant State() == Frontier.AdmitAll(old(State()), Extract.Values(nodes[..i], key), Some(location))
      {
        assert nodes[..i + 1][..i] == nodes[..i];
        var v := Extract.Attr(nodes[i].attrs, key);
        var prev := Extract.Values(nodes[..i], key);
        if v == "" {
          assert Extract.Values(nodes[..i + 1], key) == prev;
          continue;
        }
        EnqueueUrl(v, Some(location));
        assert Extract.Values(nodes[..i + 1], key) == prev + [v];
        assert (prev + [v])[..|prev|] == prev;
      }
      assert nodes[..|nodes|] == nodes;
    }

    /** `parseCss`: the stripped text of every URL token, in order. */
    method ParseCss(tokens: seq<Extract.Token>, location: Urls.Url)
      modifies this`viewed, this`queue
      requires Valid()
      ensures Valid()
      ensures State() == Frontier.AdmitAll(old(State()), Extract.CssReferences(tokens), Some(location))
    {
      for i := 0 to |tokens|
        invariant Valid()
        invariant State() == Frontier.AdmitAll(old(State()), Extract.CssReferences(tokens[..i]), Some(location))
      {
        assert tokens[..i + 1][..i] == tokens[..i];
        var prev := Extract.CssReferences(tokens[..i]);
        if tokens[i].tokenType == Extract.URLToken {
          var us := Extract.StripUrl(tokens[i].data);
          EnqueueUrl(us, Some(location));
          assert Extract.CssReferences(tokens[..i + 1]) == prev + [us];
          assert (prev + [us])[..|prev|] == prev;
        } else {
          assert Extract.CssReferences(tokens[..i + 1]) == prev;
        }
      }
      assert tokens[..|tokens|] == tokens;
    }

    /** The stopping test of the crawl loop: nothing queued and nothing in flight. */
    method Finished() returns (complete: bool)
      ensures complete <==> queue == [] && inProcess == 0
    {
      var done := ProcessAllDone();
      complete := |queue| == 0 && done;
    }
  }
}
