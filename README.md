# spider crawl engine, in Dafny

A model of the crawl engine of `kardianos/spider`, a small Go web mirroring tool, with proofs about it.
The tool starts from one or more seed URLs. It fetches each page of the allowed hosts, writes the page under an output folder, extracts the links, images, stylesheets and scripts the page references, and queues every URL it has not seen before.

The model is sequential. It is made of these modules:

- `Strings` (`strings.dfy`): the Go `strings`/`bytes` operations the engine uses. These are `Split`, the first-separator cut behind `SplitN(…, 2)[0]`, and `TrimPrefix`/`TrimSuffix`/`Trim`.
- `GoPath` (`paths.dfy`): Go's `path.IsAbs`, `path.Clean`, `path.Dir` and `path.Join`.
- `Urls` (`urls.dfy`): a URL record with a parser and a printer that follow `url.Parse` and `URL.String` for the parts the crawler touches.
- `Reference` (`reference.dfy`): how `EnqueueUrl` resolves a reference against the page it was found on. This is the crawler's own rule, not section 5.2 of RFC 3986. Its quirks are kept:
  - a reference with an empty path resolves to the page's directory, even when the reference names another host;
  - rooted reference paths are not cleaned.
- `Extract` (`extract.dfy`): the media-type cut and dispatch, the `attr` lookup, the four selector groups of `parseHtml`, and the `url(…)` stripping of `parseCss`.
- `Frontier` (`frontier.dfy`): the `viewed` set and the queue as a value. It defines the check-and-insert and the invariant that no string is ever queued twice.
- `Crawler` (`spider.dfy`): the `Spider` class. It holds the host set, the frontier and the in-flight counter. Its methods are `AddHost`, `EnqueueUrl`, the seeding loop, `getUrl`, `Parse`, `parseHtml` and `parseCss`, each proved against the pure functions above.

In the class, the network and the filesystem are the function parameters `fetch` (URL text to response) and `store` (output path to success). A ghost field `served` records the strings taken off the queue. The class invariant `Valid()` says two things:
- `served` followed by the queue has no duplicates;
- `viewed` is exactly the set of strings ever queued.

## Model

| member | source | states |
|---|---|---|
| Strings.CutAt | main.go:170 | the part before the first `;` holds no `;`; with a separator, text = before + sep + after; without one, before is the whole text |
| Strings.CutAtFirst | main.go:170 | cutting `a + sep + b` with a separator-free `a` yields exactly `a` and `b` |
| Strings.Split | main.go:37 | `strings.Split` gives at least one part, no part holds the separator, and joining the parts gives the text back |
| Strings.SplitJoinWith | main.go:37 | the converse round trip: splitting a join of separator-free parts gives the parts back |
| Strings.SplitTrailing | main.go:37 | a trailing separator adds exactly one empty part |
| Strings.TrimPrefix | main.go:282 | one leading `url(` is removed when present, and the text is unchanged otherwise |
| Strings.TrimSuffix | main.go:283 | one trailing `)` is removed when present, and the text is unchanged otherwise |
| Strings.Trim | main.go:284 | Definition of `bytes.Trim` as `TrimRight` after `TrimLeft`; see TrimLeft, TrimRight, TrimEnclosed |
| Strings.TrimLeft | main.go:284 | the result is a suffix; every removed character is a cut character; the result does not start with one |
| Strings.TrimRight | main.go:284 | the result is a prefix; every removed character is a cut character; the result does not end with one |
| Strings.TrimEnclosed | main.go:284 | trimming `c + s + c` for a cut character `c` and an untrimmed `s` gives `s` |
| GoPath.IsAbs | main.go:123 | Definition of `path.IsAbs`: the path starts with a slash |
| GoPath.Clean | main.go:124 | Definition of `path.Clean`; see CleanKeepsRoot, CleanIdempotent, CleanTrailingSlash, CleanDotSlash |
| GoPath.Dir | main.go:124 | Definition of `path.Dir`; see DirShape, DirExample |
| GoPath.Join | main.go:124 | Definition of `path.Join`; see JoinOntoDir, JoinSiblingExample, JoinParentExample |
| GoPath.UpToLastSlash | main.go:124 | the directory half of a path is a prefix ending in `/` (or empty), and no `/` follows it |
| GoPath.ReduceReduced | main.go:124 | lexical reduction yields only real names, with `..` only as a leading run and never under a root |
| GoPath.CleanKeepsRoot | main.go:124 | `path.Clean` never yields "" and keeps a path rooted exactly when it was |
| GoPath.CleanIdempotent | main.go:124 | a cleaned path is its own clean form |
| GoPath.CleanTrailingSlash | main.go:124 | a trailing slash does not change the clean form of a non-empty path |
| GoPath.CleanDotSlash | main.go:124 | a leading `./` does not change the clean form of a relative path |
| GoPath.DirShape | main.go:124 | `path.Dir` is non-empty, clean, and rooted exactly when its argument is |
| GoPath.JoinOntoDir | main.go:124 | `path.Join(path.Dir(base), p)` is the clean form of `Dir(base) + "/" + p` |
| GoPath.DirExample | main.go:124 | the directory of `/a/b.html` is `/a` |
| GoPath.JoinSiblingExample | main.go:124 | `c.gif` joined onto `/a` is `/a/c.gif` |
| GoPath.JoinParentExample | main.go:124 | `../c.gif` joined onto `/a` is `/c.gif` |
| Urls.SchemeEnd | main.go:113 | the scheme scan stops at the first non-scheme character |
| Urls.ParseToString | main.go:113-127 | printing an absolute URL and parsing the text back gives the same URL |
| Urls.CutFragment | main.go:113-127 | the parser takes the fragment off at the first `#`, and the printer's `#fragment` suffix comes back off as exactly that fragment |
| Urls.GetSchemeOf | main.go:113 | a letter followed by scheme characters and a colon is split off as the scheme, the rest kept whole |
| Urls.ParseSchemeAndFragment | main.go:113 | the parser takes off the fragment at the first `#` and a valid lower-case scheme at the first `:` |
| Urls.ParseHierarchical | main.go:113 | `//host/path?query` comes apart into exactly its host, path and query |
| Urls.ParsePathOnly | main.go:113 | a reference with no scheme, authority, query, fragment or colon parses to a URL whose only part is that text as its path |
| Reference.Resolve | main.go:117-126 | the resolved URL has no fragment and keeps the reference's query and rootless part |
| Reference.Normalize | main.go:110-128 | Definition of the key `EnqueueUrl` builds; see NormalizeCases, NormalizeAbsolute, ResolveIdempotent |
| Reference.ResolveAuthority | main.go:117-122 | the scheme and host come from the page only when the reference has none |
| Reference.ResolvePath | main.go:123-125 | a rooted reference path is kept as written; any other path becomes `Clean(Dir(page) + "/" + ref)`, which is clean and rooted exactly when the page path is |
| Reference.EmptyPathResolvesToDirectory | main.go:123-125 | a reference with an empty path resolves to the page's directory |
| Reference.ResolveIdempotent | main.go:117-126 | resolving an already resolved URL again against a page with a rooted or empty path changes nothing |
| Reference.NormalizeAbsolute | main.go:112-128 | the text of an absolute URL with a host and a rooted path normalizes to itself minus its fragment |
| Reference.NormalizeCases | main.go:110-116 | a seed is taken verbatim, fragment and all; a reference that does not parse yields nothing |
| Reference.ResolveSibling | main.go:117-127 | `c.gif` on `http://x.com/a/b.html` resolves to `http://x.com/a/c.gif` |
| Reference.ResolveParent | main.go:117-127 | `../c.gif` on the same page resolves to `http://x.com/c.gif` |
| Reference.ResolveRootedAndAbsolute | main.go:117-127 | `/d.gif` resolves to `http://x.com/d.gif`; `http://y.com/e.gif#frag` loses only its fragment |
| Reference.NormalizeSibling | main.go:110-128 | the key built for the text `c.gif` found on `http://x.com/a/b.html` is the text `http://x.com/a/c.gif` |
| Reference.NormalizeParent | main.go:110-128 | the key built for the text `../c.gif` found on the same page is the text `http://x.com/c.gif` |
| Reference.NormalizeRooted | main.go:110-128 | the key built for the text `/d.gif` found on the same page is the text `http://x.com/d.gif` |
| Extract.Attr | main.go:229-236 | the value of the first attribute with the key, or "" when none has it |
| Extract.MatchAll | main.go:224-227 | the matched elements all come from the page and match the selector, and every matching element is among them |
| Extract.MatchIndices | main.go:224-227 | the positions of the matching elements, strictly increasing, each in range, and holding exactly the positions whose element matches |
| Extract.MatchAllInDocumentOrder | main.go:224-227 | the k-th matched element is the element at the k-th matching position: matches come in document order |
| Extract.Values | main.go:240-267 | Definition of one group's enqueued strings; see ValuesMembers, Spider.EnqueueGroup |
| Extract.HtmlReferences | main.go:218-270 | Definition of a page's enqueued strings; see HtmlReferencesMembers, Spider.ParseHtml |
| Extract.ValuesMembers | main.go:240-267 | a string is passed on for a group exactly when it is the non-empty value of one of its nodes |
| Extract.HtmlReferencesMembers | main.go:218-270 | a string is enqueued from a page exactly when some `a[href]`, `img[src]`, `link[href][rel="stylesheet"]` or `script[src]` element has it as its first non-empty value for that key |
| Extract.StripUrl | main.go:280-285 | the stripped reference neither starts nor ends with a quote |
| Extract.StripUrlUnwraps | main.go:280-285 | `url(` + quote + s + quote + `)` strips back to `s` for double, single and no quotes |
| Extract.StripDoubleQuoted | main.go:282-284 | `url("a.gif")` gives `a.gif` |
| Extract.StripSingleQuoted | main.go:282-284 | `url('la.gif')` gives `la.gif` |
| Extract.StripUnquoted | main.go:282-284 | `url(ps.gif)` gives `ps.gif` |
| Extract.CssReferencesCount | main.go:279-286 | one reference per URL token, an empty one included, and none for other tokens |
| Extract.CssReferences | main.go:271-290 | Definition of a stylesheet's enqueued strings; see CssReferencesCount, CssReferencesStripUrlData, Spider.ParseCss |
| Extract.CssReferencesStripUrlData | main.go:279-286 | there are as many references as URL tokens, and the k-th reference is the stripped text of the k-th URL token |
| Extract.UrlDataMembers | main.go:279-286 | a text is among the URL-token texts exactly when some URL token carries it |
| Extract.MediaType | main.go:169-170 | the media type is the header up to its first `;`, with no trimming |
| Extract.MediaTypeIs | main.go:170 | the media type is a given `;`-free type exactly when the header is that type alone or followed at once by `;` |
| Extract.HtmlHeaders | main.go:169-209 | extraction is selected exactly for `text/html` or `text/css`, alone or followed at once by `;` |
| Extract.KindOf | main.go:201-209 | Definition of the media-type dispatch; see HtmlHeaders, MediaTypeIs |
| Extract.References | main.go:201-209 | Definition of what a fetched body enqueues per media type; see UnhandledExtractsNothing, Spider.Parse |
| Extract.UnhandledExtractsNothing | main.go:201-209 | any other media type enqueues nothing and is not an error |
| Frontier.Insert | main.go:130-138 | Definition of the check-and-insert; see InsertKeepsConsistent, AdmitAllIsDedup |
| Frontier.Admit | main.go:110-138 | Definition of `EnqueueUrl` on the frontier; see MalformedDropped, Spider.EnqueueUrl |
| Frontier.AdmitAll | main.go:110-138 | Definition of a run of enqueues; see AdmitAllKeepsConsistent, AdmitAllIsDedup, AdmitAllAgain, AdmitAllGrows, AdmitAllConcat |
| Frontier.Dequeue | main.go:142 | Definition of the receive from the queue; see DequeueKeepsConsistent |
| Frontier.InsertKeepsConsistent | main.go:130-138 | check-and-insert keeps "no string queued twice, `viewed` = all strings ever queued", and leaves the string queued exactly once |
| Frontier.AdmitAllKeepsConsistent | main.go:130-138 | any run of enqueues keeps that invariant |
| Frontier.AdmitAllIsDedup | main.go:110-138 | a run of enqueues marks every normalized string viewed and appends, in order, the first occurrence of each one not viewed before |
| Frontier.AdmitAllAgain | main.go:130-138 | after a run of enqueues every normalized string is viewed, and repeating the run changes nothing |
| Frontier.AdmitAllGrows | main.go:130-138 | `viewed` never shrinks and the queue is only appended to |
| Frontier.AdmitAllConcat | main.go:240-267 | enqueuing two lists one after the other is enqueuing their concatenation |
| Frontier.SeedKeys | main.go:110-112 | seeds are not parsed: each is its own key |
| Frontier.SeedsQueuedVerbatim | main.go:38-41 | seeding queues, verbatim and in order, each seed not viewed before |
| Frontier.MalformedDropped | main.go:113-116 | a reference found on a page that does not parse leaves `viewed` and the queue as they were |
| Frontier.DequeueKeepsConsistent | main.go:142 | taking the head off the queue keeps the invariant once that string counts as served |
| Crawler.HostOf | main.go:99-108 | Definition of the host `AddHost` records; see HostsOfMembers, Spider.AddHost |
| Crawler.OutputPath | main.go:182 | Definition of the output file path; see Spider.Visit |
| Crawler.VisitOf | main.go:146-198 | Definition of one visit's outcome and references; see HostGate, ProcessedOnlyWhenFetched, Spider.Visit |
| Crawler.Settle | main.go:141-199 | Definition of the frontier after a visit; see SettleKeepsConsistent, AbandonedStaysViewed, Spider.GetUrl |
| Crawler.HostGate | main.go:146-156 | a dequeued string that does not parse, or whose host was never added, is abandoned before any fetch or write and enqueues nothing |
| Crawler.ProcessedOnlyWhenFetched | main.go:146-198 | a page is processed exactly when it parsed with an added host, answered 200, was read and stored, and its media type's extractor succeeded; only then does it hand back references, exactly those the extractor finds |
| Crawler.SettleKeepsConsistent | main.go:141-199 | the end of any `getUrl` keeps the frontier invariant, never forgets a viewed string and only appends to the queue |
| Crawler.AbandonedStaysViewed | main.go:151-156 | a string abandoned at the host gate leaves the queue but stays in `viewed` |
| Crawler.HostsOf | main.go:37-39 | Definition of the hosts the seeding loop records; see HostsOfMembers, Spider.Seed |
| Crawler.HostsOfMembers | main.go:37-41 | the recorded hosts are exactly those of the seeds that parse |
| Crawler.Spider.constructor | main.go:58-65 | a new spider has no hosts, an empty frontier and a zero counter |
| Crawler.Spider.ProcessAdd | main.go:67-71 | the counter goes up by one |
| Crawler.Spider.ProcessDone | main.go:73-77 | the counter goes down by one |
| Crawler.Spider.ProcessAllDone | main.go:78-82 | true exactly when the counter is zero |
| Crawler.Spider.AddHost | main.go:99-108 | adds exactly the parsed host, and leaves the hosts unchanged when the text does not parse |
| Crawler.Spider.EnqueueUrl | main.go:110-139 | the frontier becomes its check-and-insert of the normalized reference, and the invariant is kept |
| Crawler.Spider.Seed | main.go:37-41 | each comma-separated seed has its host recorded and is enqueued verbatim, in order |
| Crawler.Spider.GetUrl | main.go:141-199 | the head is dequeued and served; the counter is back where it was on every exit path; the outcome and the new frontier are those of the visit |
| Crawler.Spider.Visit | main.go:146-198 | each failing step (parse, host, transport, status, read, store, extract) ends the visit; a processed page's references are admitted against its location |
| Crawler.Spider.Parse | main.go:201-209 | fails exactly on a markup parse error, and then changes nothing; otherwise it admits the references of the media type |
| Crawler.Spider.ParseHtml | main.go:218-270 | enqueues the `a`, `img`, stylesheet `link` and `script` groups in that order |
| Crawler.Spider.EnqueueGroup | main.go:240-267 | enqueues the non-empty values of one group, in match order |
| Crawler.Spider.ParseCss | main.go:271-290 | enqueues the stripped text of every URL token, in order |
| Crawler.Spider.Finished | main.go:93 | true exactly when the queue is empty and nothing is in flight |

## Left out

- `Run` (main.go:84-98): the ticker, the goroutine per tick and the racy completion check. Only the completion test itself is modelled (`Spider.Finished`). Everything else is sequential.
- The mutexes `lock` and `inProcessLock`: in a sequential model, locking is implicit.
- The queue channel's capacity of 100 and its blocking: the queue is an unbounded sequence. `GetUrl` requires a non-empty queue where the receive would block.
- `http.Get`, the body copy, `os.MkdirAll` and `ioutil.WriteFile` (main.go:158-192): these are network and filesystem I/O. They are the `fetch` and `store` parameters. A failed body read is a response whose `body` is `None`. `OutputPath` models the file path with `path.Join`, which agrees with `filepath.Join` on slash-separated systems.
- `Urls.Parse`, `Urls.ToString`: a simplified stand-in for `url.Parse` and `URL.String`. Percent-encoding, user information, host and port validation, `RawPath` and `OmitHost` are not modelled. Only the control-character, missing-scheme and colon-in-first-segment errors are.
- `html.Parse`, cascadia selector matching and the `tdewolff/parse/css` tokenizer: these are foreign libraries. Their output is an input here: a document-order list of elements (or a markup parse error), and a token list. `Extract.MatchAll` filters that list by tag and attributes.
- `Crawler.Spider.ParseCss`: the stylesheet parser's grammar units are flattened into one token list. The loop over `parser.Next()` up to `ErrorGrammar` is that list's end.
- `flag` parsing, `os.Exit` and `log.Printf` (main.go:23-35): these are command-line plumbing and logging.
- `Crawler.Spider.GetUrl`: the `defer res.Body.Close()` is not modelled, because no body is held open.
