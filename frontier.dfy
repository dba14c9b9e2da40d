/** The frontier: the `viewed` set of every string ever enqueued and the
    `queue` of strings waiting to be fetched, with the check-and-insert of
    `Spider.EnqueueUrl` as a function on them. */
module Frontier {
  import opened Strings
  import Urls
  import Reference

  datatype State = State(viewed: set<string>, queue: seq<string>)

  /** The check-and-insert on an already normalized string: a string seen
      before is ignored, a new one is marked viewed and appended to the queue. */
  function Insert(f: State, key: string): State {
    if key in f.viewed then f else State(f.viewed + {key}, f.queue + [key])
  }

  /** `EnqueueUrl(next, location)`: normalize, then check-and-insert; a
      reference that does not parse is dropped. */
  function Admit(f: State, next: string, location: Option<Urls.Url>): State {
    match Reference.Normalize(next, location)
    case None => f
    case Some(key) => Insert(f, key)
  }

  /** `EnqueueUrl` for each reference in turn. */
  function AdmitAll(f: State, refs: seq<string>, location: Option<Urls.Url>): State
    decreases |refs|
  {
    if refs == [] then f
    else Admit(AdmitAll(f, refs[..|refs| - 1], location), refs[|refs| - 1], location)
  }

  /** The receive from the queue channel. */
  function Dequeue(f: State): State
    requires f.queue != []
  {
    f.(queue := f.queue[1..])
  }

  function Elems(s: seq<string>): set<string> {
    set x | x in s
  }

  predicate Distinct(s: seq<string>) {
    forall i, j :: 0 <= i < j < |s| ==> s[i] != s[j]
  }

  /** The frontier's invariant, given the strings already taken off the
      queue (`served`): nothing was ever queued twice, and `viewed` holds
      exactly the strings ever queued. */
  ghost predicate Consistent(f: State, served: seq<string>) {
    Distinct(served + f.queue) && f.viewed == Elems(served + f.queue)
  }

  /** The normalized strings of `refs`, in order, skipping those that do not parse. */
  function Keys(refs: seq<string>, location: Option<Urls.Url>): seq<string>
    decreases |refs|
  {
    if refs == [] then []
    else
      var k := Reference.Normalize(refs[|refs| - 1], location);
      Keys(refs[..|refs| - 1], location) + (if k.Some? then [k.value] else [])
  }

  /** The first occurrence of each string of `keys` that is not in `seen`, in order. */
  function Unseen(keys: seq<string>, seen: set<string>): seq<string>
    decreases |keys|
  {
    if keys == [] then []
    else
      var init := keys[..|keys| - 1];
      var k := keys[|keys| - 1];
      Unseen(init, seen) + (if k in seen || k in init then [] else [k])
  }

  lemma DistinctAppend(s: seq<string>, x: string)
    requires Distinct(s) && x !in s
    ensures Distinct(s + [x])
  {
  }

  /** Inserting keeps the invariant, and afterwards the string occurs exactly
      once among everything ever queued. */
  lemma InsertKeepsConsistent(f: State, served: seq<string>, key: string)
    requires Consistent(f, served)
    ensures Consistent(Insert(f, key), served)
    ensures var all := served + Insert(f, key).queue;
            key in all && forall i, j :: 0 <= i < j < |all| && all[i] == key ==> all[j] != key
  {
    var all := served + f.queue;
    if key !in f.viewed {
      assert key !in all;
      assert served + (f.queue + [key]) == all + [key];
      DistinctAppend(all, key);
      assert Elems(all + [key]) == Elems(all) + {key};
    }
  }

  lemma {:induction false} AdmitAllKeepsConsistent(f: State, served: seq<string>, refs: seq<string>, location: Option<Urls.Url>)
    requires Consistent(f, served)
    ensures Consistent(AdmitAll(f, refs, location), served)
    decreases |refs|
  {
    if refs != [] {
      var g := AdmitAll(f, refs[..|refs| - 1], location);
      AdmitAllKeepsConsistent(f, served, refs[..|refs| - 1], location);
      var k := Reference.Normalize(refs[|refs| - 1], location);
      if k.Some? {
        InsertKeepsConsistent(g, served, k.value);
      }
    }
  }

  lemma UnseenSnoc(keys: seq<string>, k: string, seen: set<string>)
    ensures Unseen(keys + [k], seen) == Unseen(keys, seen) + (if k in seen || k in keys then [] else [k])
  {
    assert (keys + [k])[..|keys|] == keys;
  }

  /** One more key, inserted into the deduplicated state, extends it by that key. */
  lemma InsertDedupStep(f: State, keys: seq<string>, k: string)
    ensures Insert(State(f.viewed + Elems(keys), f.queue + Unseen(keys, f.viewed)), k) ==
            State(f.viewed + Elems(keys + [k]), f.queue + Unseen(keys + [k], f.viewed))
  {
    var g := State(f.viewed + Elems(keys), f.queue + Unseen(keys, f.viewed));
    UnseenSnoc(keys, k, f.viewed);
    ElemsSnoc(keys, k);
    assert k in g.viewed <==> k in f.viewed || k in keys;
    if k in g.viewed {
      assert Unseen(keys + [k], f.viewed) == Unseen(keys, f.viewed) + [];
      assert f.viewed + Elems(keys + [k]) == g.viewed;
    } else {
      assert f.queue + Unseen(keys + [k], f.viewed) == g.queue + [k];
    }
  }

  lemma ElemsSnoc(keys: seq<string>, k: string)
    ensures Elems(keys + [k]) == Elems(keys) + {k}
    ensures forall x :: x in Elems(keys) <==> x in keys
  {
  }

  /** Admitting references one by one is the same as normalizing them all,
      marking every result viewed, and appending to the queue, in order of
      first occurrence, those not viewed before. */
  lemma {:induction false} AdmitAllIsDedup(f: State, refs: seq<string>, location: Option<Urls.Url>)
    ensures AdmitAll(f, refs, location) ==
            State(f.viewed + Elems(Keys(refs, location)), f.queue + Unseen(Keys(refs, location), f.viewed))
    decreases |refs|
  {
    if refs == [] {
      assert Elems([]) == {};
    } else {
      var init := refs[..|refs| - 1];
      AdmitAllIsDedup(f, init, location);
      var k := Reference.Normalize(refs[|refs| - 1], location);
      var initKeys := Keys(init, location);
      if k.Some? {
        assert Keys(refs, location) == initKeys + [k.value];
        InsertDedupStep(f, initKeys, k.value);
      } else {
        assert Keys(refs, location) == initKeys;
      }
    }
  }

  lemma {:induction false} UnseenOfSeen(keys: seq<string>, seen: set<string>)
    requires Elems(keys) <= seen
    ensures Unseen(keys, seen) == []
    decreases |keys|
  {
    if keys != [] {
      var init := keys[..|keys| - 1];
      assert keys[|keys| - 1] in Elems(keys);
      assert Elems(init) <= Elems(keys);
      UnseenOfSeen(init, seen);
    }
  }

  /** Every reference that normalizes ends up viewed, and admitting the same
      references a second time changes nothing. */
  lemma AdmitAllAgain(f: State, refs: seq<string>, location: Option<Urls.Url>)
    ensures var g := AdmitAll(f, refs, location);
            Elems(Keys(refs, location)) <= g.viewed && AdmitAll(g, refs, location) == g
  {
    var g := AdmitAll(f, refs, location);
    var keys := Keys(refs, location);
    AdmitAllIsDedup(f, refs, location);
    AdmitAllIsDedup(g, refs, location);
    UnseenOfSeen(keys, g.viewed);
    assert g.viewed + Elems(keys) == g.viewed;
    assert g.queue + [] == g.queue;
  }

  /** Admitting never forgets a viewed string and only appends to the queue. */
  lemma {:induction false} AdmitAllGrows(f: State, refs: seq<string>, location: Option<Urls.Url>)
    ensures f.viewed <= AdmitAll(f, refs, location).viewed
    ensures f.queue <= AdmitAll(f, refs, location).queue
    decreases |refs|
  {
    if refs != [] {
      AdmitAllGrows(f, refs[..|refs| - 1], location);
    }
  }

  lemma {:induction false} AdmitAllConcat(f: State, a: seq<string>, b: seq<string>, location: Option<Urls.Url>)
    ensures AdmitAll(f, a + b, location) == AdmitAll(AdmitAll(f, a, location), b, location)
    decreases |b|
  {
    if b == [] {
      assert a + b == a;
    } else {
      assert (a + b)[..|a + b| - 1] == a + b[..|b| - 1];
      assert (a + b)[|a + b| - 1] == b[|b| - 1];
      AdmitAllConcat(f, a, b[..|b| - 1], location);
    }
  }

  /** Seeds are not parsed: every one of them is its own key. */
  lemma {:induction false} SeedKeys(refs: seq<string>)
    ensures Keys(refs, None) == refs
    decreases |refs|
  {
    if refs != [] {
      SeedKeys(refs[..|refs| - 1]);
      assert refs[..|refs| - 1] + [refs[|refs| - 1]] == refs;
    }
  }

  /** Seeding queues, verbatim and in order, the first occurrence of every
      seed not viewed before, and marks them all viewed. */
  lemma SeedsQueuedVerbatim(f: State, refs: seq<string>)
    ensures AdmitAll(f, refs, None) == State(f.viewed + Elems(refs), f.queue + Unseen(refs, f.viewed))
  {
    SeedKeys(refs);
    AdmitAllIsDedup(f, refs, None);
  }

  /** A reference found on a page that does not parse leaves the frontier as it was. */
  lemma MalformedDropped(f: State, next: string, base: Urls.Url)
    requires Urls.Parse(next).Malformed?
    ensures Admit(f, next, Some(base)) == f
  {
  }

  /** Taking the head off the queue keeps the invariant once it is counted as served. */
  lemma DequeueKeepsConsistent(f: State, served: seq<string>)
    requires f.queue != [] && Consistent(f, served)
    ensures Consistent(Dequeue(f), served + [f.queue[0]])
  {
    assert (served + [f.queue[0]]) + f.queue[1..] == served + f.queue;
  }
}
