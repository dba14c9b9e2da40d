/** Go's slash-separated `path` package as the crawler uses it: `IsAbs`,
    `Dir`, `Join` and the lexical `Clean` both of them end with. */
module GoPath {
  import opened Strings

  predicate IsAbs(p: string) {
    |p| > 0 && p[0] == '/'
  }

  /** A stack of names that cleaning can produce: no empty names, no ".",
      no slashes, ".." only as a leading run, and none at all under a root. */
  predicate Reduced(stack: seq<string>, rooted: bool) {
    (forall i :: 0 <= i < |stack| ==> stack[i] != "" && stack[i] != "." && '/' !in stack[i]) &&
    (forall i, j :: 0 <= i < j < |stack| && stack[j] == ".." ==> stack[i] == "..") &&
    (rooted ==> forall i :: 0 <= i < |stack| ==> stack[i] != "..")
  }

  /** Reading one more name: empty and "." vanish, ".." drops the last real
      name (or is kept at the front of a relative path), anything else is pushed. */
  function Step(stack: seq<string>, name: string, rooted: bool): seq<string> {
    if name == "" || name == "." then stack
    else if name == ".." then
      if |stack| > 0 && stack[|stack| - 1] != ".." then stack[..|stack| - 1]
      else if rooted then stack
      else stack + [".."]
    else stack + [name]
  }

  function Reduce(stack: seq<string>, names: seq<string>, rooted: bool): seq<string>
    decreases |names|
  {
    if names == [] then stack else Reduce(Step(stack, names[0], rooted), names[1..], rooted)
  }

  /** `path.Clean`: the shortest lexically equivalent path. */
  function Clean(p: string): string {
    if p == "" then "."
    else
      var rooted := p[0] == '/';
      var names := Reduce([], Split(p, '/'), rooted);
      if rooted then "/" + JoinWith(names, '/')
      else if names == [] then "."
      else JoinWith(names, '/')
  }

  /** The prefix of `p` up to and including its last slash (empty without one),
      i.e. the directory half of `path.Split`. */
  function UpToLastSlash(p: string): (d: string)
    ensures d <= p
    ensures d == [] || d[|d| - 1] == '/'
    ensures '/' !in p[|d|..]
    decreases |p|
  {
    if p == [] then []
    else if p[|p| - 1] == '/' then p
    else UpToLastSlash(p[..|p| - 1])
  }

  /** `path.Dir`: everything but the last element, cleaned. */
  function Dir(p: string): string {
    Clean(UpToLastSlash(p))
  }

  /** `path.Join` of two elements: empty elements are skipped, the rest are
      joined with a slash and cleaned; two empty elements give "". */
  function Join(a: string, b: string): string {
    if a == "" && b == "" then ""
    else if a == "" then Clean(b)
    else Clean(a + "/" + b)
  }

  lemma {:induction false} StepReduced(stack: seq<string>, name: string, rooted: bool)
    requires Reduced(stack, rooted) && '/' !in name
    ensures Reduced(Step(stack, name, rooted), rooted)
  {
    if name == ".." && |stack| > 0 && stack[|stack| - 1] != ".." {
      var s := stack[..|stack| - 1];
      assert forall i :: 0 <= i < |s| ==> s[i] == stack[i];
    } else if name == ".." && !rooted && !(|stack| > 0 && stack[|stack| - 1] != "..") {
      var s := stack + [".."];
      assert forall i :: 0 <= i < |stack| ==> stack[i] == "..";
      assert forall i :: 0 <= i < |s| ==> s[i] == "..";
    }
  }

  lemma {:induction false} ReduceReduced(stack: seq<string>, names: seq<string>, rooted: bool)
    requires Reduced(stack, rooted)
    requires forall i :: 0 <= i < |names| ==> '/' !in names[i]
    ensures Reduced(Reduce(stack, names, rooted), rooted)
    decreases |names|
  {
    if names != [] {
      StepReduced(stack, names[0], rooted);
      ReduceReduced(Step(stack, names[0], rooted), names[1..], rooted);
    }
  }

  /** Names that are already reduced pass through unchanged. */
  lemma {:induction false} ReduceKeepsReduced(stack: seq<string>, names: seq<string>, rooted: bool)
    requires Reduced(stack + names, rooted)
    ensures Reduce(stack, names, rooted) == stack + names
    decreases |names|
  {
    if names != [] {
      var all := stack + names;
      assert all[|stack|] == names[0];
      if names[0] == ".." {
        assert forall i :: 0 <= i < |stack| ==> stack[i] == all[i] == "..";
      }
      assert Step(stack, names[0], rooted) == stack + [names[0]];
      assert (stack + [names[0]]) + names[1..] == all;
      ReduceKeepsReduced(stack + [names[0]], names[1..], rooted);
    }
  }

  /** What `Clean` produces from a non-empty path, in terms of the reduced names. */
  lemma CleanShape(p: string)
    requires p != ""
    ensures var rooted := p[0] == '/';
            var names := Reduce([], Split(p, '/'), rooted);
            Reduced(names, rooted) &&
            Clean(p) == (if rooted then "/" + JoinWith(names, '/')
                         else if names == [] then "." else JoinWith(names, '/'))
  {
    ReduceReduced([], Split(p, '/'), p[0] == '/');
  }

  /** `Clean` never yields "" and keeps a path rooted exactly when it was. */
  lemma CleanKeepsRoot(p: string)
    ensures Clean(p) != ""
    ensures IsAbs(Clean(p)) <==> IsAbs(p)
  {
    if p != "" {
      CleanShape(p);
      var names := Reduce([], Split(p, '/'), p[0] == '/');
      if p[0] != '/' && names != [] {
        JoinWithStartsWithFirst(names, '/');
        assert names[0][0] == JoinWith(names, '/')[0];
      }
    }
  }

  /** A rooted path built from reduced names is already clean. */
  lemma CleanRootedReduced(names: seq<string>)
    requires Reduced(names, true)
    ensures Clean("/" + JoinWith(names, '/')) == "/" + JoinWith(names, '/')
  {
    var body := JoinWith(names, '/');
    var c := "/" + body;
    assert c == [] + ['/'] + body;
    CutAtFirst([], body, '/');
    assert Split(c, '/') == [[]] + Split(body, '/');
    if names == [] {
      assert body == [];
      CutAtAbsent([], '/');
      assert Split(body, '/') == [[]];
      var parts: seq<string> := [[], []];
      assert Split(c, '/') == parts;
      assert Reduce([], parts[1..], true) == [];
      assert Reduce([], Split(c, '/'), true) == [];
    } else {
      SplitJoinWith(names, '/');
      var parts := [[]] + names;
      assert Split(c, '/') == parts;
      assert parts[0] == [] && parts[1..] == names;
      assert Reduce([], parts, true) == Reduce([], names, true);
      assert [] + names == names;
      ReduceKeepsReduced([], names, true);
      assert Reduce([], Split(c, '/'), true) == names;
    }
  }

  /** A relative path built from a non-empty list of reduced names is already clean. */
  lemma CleanRelativeReduced(names: seq<string>)
    requires Reduced(names, false) && names != []
    ensures Clean(JoinWith(names, '/')) == JoinWith(names, '/')
  {
    var c := JoinWith(names, '/');
    JoinWithStartsWithFirst(names, '/');
    assert names[0] != "" && '/' !in names[0];
    assert c != "" && c[0] == names[0][0] != '/';
    SplitJoinWith(names, '/');
    assert [] + names == names;
    ReduceKeepsReduced([], names, false);
    assert Reduce([], Split(c, '/'), false) == names;
  }

  /** Cleaning is idempotent: a cleaned path is its own clean form. */
  lemma CleanIdempotent(p: string)
    ensures Clean(Clean(p)) == Clean(p)
  {
    if p == "" {
      assert Split(".", '/') == ["."];
    } else {
      var rooted := p[0] == '/';
      CleanShape(p);
      var names := Reduce([], Split(p, '/'), rooted);
      if rooted {
        CleanRootedReduced(names);
      } else if names == [] {
        assert Split(".", '/') == ["."];
      } else {
        CleanRelativeReduced(names);
      }
    }
  }

  lemma {:induction false} ReduceDropsTrailingEmpty(stack: seq<string>, names: seq<string>, rooted: bool)
    ensures Reduce(stack, names + [""], rooted) == Reduce(stack, names, rooted)
    decreases |names|
  {
    if names != [] {
      assert (names + [""])[1..] == names[1..] + [""];
      ReduceDropsTrailingEmpty(Step(stack, names[0], rooted), names[1..], rooted);
    } else {
      assert Reduce(stack, [""], rooted) == Reduce(stack, [], rooted);
    }
  }

  /** A trailing slash does not change the clean form of a non-empty path. */
  lemma CleanTrailingSlash(p: string)
    requires p != ""
    ensures Clean(p + "/") == Clean(p)
  {
    SplitTrailing(p, '/');
    ReduceDropsTrailingEmpty([], Split(p, '/'), p[0] == '/');
    assert (p + "/")[0] == p[0];
  }

  /** A leading `./` does not change the clean form of a relative path. */
  lemma CleanDotSlash(q: string)
    requires !IsAbs(q)
    ensures Clean("./" + q) == Clean(q)
  {
    if q == "" {
      assert "./" + q == "." + "/";
      CleanTrailingSlash(".");
      assert Split(".", '/') == ["."];
    } else {
      assert "./" + q == "." + ['/'] + q;
      CutAtFirst(".", q, '/');
      assert Split("./" + q, '/') == ["."] + Split(q, '/');
      assert (["."] + Split(q, '/'))[1..] == Split(q, '/');
      assert Reduce([], ["."] + Split(q, '/'), false) == Reduce([], Split(q, '/'), false);
    }
  }

  /** `Dir` gives a clean, non-empty path, rooted exactly when `p` is. */
  lemma DirShape(p: string)
    ensures Dir(p) != ""
    ensures Clean(Dir(p)) == Dir(p)
    ensures IsAbs(Dir(p)) <==> IsAbs(p)
  {
    var d := UpToLastSlash(p);
    CleanKeepsRoot(d);
    CleanIdempotent(d);
    if IsAbs(p) {
      assert '/' in p[0..];
      assert d != [];
      assert d[0] == p[0];
    }
  }

  /** A non-empty path given as its slash-separated parts cleans by reducing those parts. */
  lemma CleanOfParts(p: string, parts: seq<string>)
    requires |parts| >= 1 && forall i :: 0 <= i < |parts| ==> '/' !in parts[i]
    requires p == JoinWith(parts, '/') && p != ""
    ensures p[0] == '/' ==> Clean(p) == "/" + JoinWith(Reduce([], parts, true), '/')
  {
    SplitJoinWith(parts, '/');
  }

  lemma ReduceDirExample(parts: seq<string>)
    requires parts == ["", "a", ""]
    ensures Reduce([], parts, true) == ["a"]
  {
    assert Step([], parts[0], true) == [];
    assert Reduce([], parts, true) == Reduce([], parts[1..], true);
    assert Step([], parts[1], true) == ["a"] && parts[1..][1..] == parts[2..];
    assert Reduce([], parts[1..], true) == Reduce(["a"], parts[2..], true);
    assert Step(["a"], parts[2], true) == ["a"] && parts[2..][1..] == [];
    assert Reduce(["a"], parts[2..], true) == Reduce(["a"], [], true);
  }

  /** The directory of `/a/b.html` is `/a`. */
  lemma DirExample(page: string)
    requires page == "/a/b.html"
    ensures Dir(page) == "/a"
  {
    assert page == "/a/" + "b.html";
    assert UpToLastSlash(page) == UpToLastSlash("/a/");
    var parts := ["", "a", ""];
    assert JoinWith(parts, '/') == "/a/";
    CleanOfParts("/a/", parts);
    ReduceDirExample(parts);
  }

  lemma ReduceSiblingExample(parts: seq<string>)
    requires parts == ["", "a", "c.gif"]
    ensures Reduce([], parts, true) == ["a", "c.gif"]
  {
    assert Step([], parts[0], true) == [];
    assert Reduce([], parts, true) == Reduce([], parts[1..], true);
    assert Step([], parts[1], true) == ["a"] && parts[1..][1..] == parts[2..];
    assert Reduce([], parts[1..], true) == Reduce(["a"], parts[2..], true);
    assert Step(["a"], parts[2], true) == ["a", "c.gif"] && parts[2..][1..] == [];
    assert Reduce(["a"], parts[2..], true) == Reduce(["a", "c.gif"], [], true);
  }

  /** `c.gif` joined onto `/a` is `/a/c.gif`. */
  lemma JoinSiblingExample(dir: string, ref: string)
    requires dir == "/a" && ref == "c.gif"
    ensures Join(dir, ref) == "/a/c.gif"
  {
    var parts := ["", "a", "c.gif"];
    assert JoinWith(parts, '/') == dir + "/" + ref;
    CleanOfParts(dir + "/" + ref, parts);
    ReduceSiblingExample(parts);
  }

  lemma ReduceParentExample(parts: seq<string>)
    requires parts == ["", "a", "..", "c.gif"]
    ensures Reduce([], parts, true) == ["c.gif"]
  {
    assert Step([], parts[0], true) == [];
    assert Reduce([], parts, true) == Reduce([], parts[1..], true);
    assert Step([], parts[1], true) == ["a"] && parts[1..][1..] == parts[2..];
    assert Reduce([], parts[1..], true) == Reduce(["a"], parts[2..], true);
    assert Step(["a"], parts[2], true) == [] && parts[2..][1..] == parts[3..];
    assert Reduce(["a"], parts[2..], true) == Reduce([], parts[3..], true);
    assert Step([], parts[3], true) == ["c.gif"] && parts[3..][1..] == [];
    assert Reduce([], parts[3..], true) == Reduce(["c.gif"], [], true);
  }

  /** `../c.gif` joined onto `/a` climbs back to `/c.gif`. */
  lemma JoinParentExample(dir: string, ref: string)
    requires dir == "/a" && ref == "../c.gif"
    ensures Join(dir, ref) == "/c.gif"
  {
    var parts := ["", "a", "..", "c.gif"];
    assert JoinWith(parts, '/') == dir + "/" + ref;
    CleanOfParts(dir + "/" + ref, parts);
    ReduceParentExample(parts);
  }

  /** Joining onto a directory is cleaning the slash-joined pair. */
  lemma JoinOntoDir(base: string, p: string)
    ensures Join(Dir(base), p) == Clean(Dir(base) + "/" + p)
  {
    DirShape(base);
  }
}
