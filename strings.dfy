/** The handful of Go `strings`/`bytes` operations the crawl engine leans on,
    stated over `string` (a `seq<char>`). */
module Strings {

  datatype Option<T> = None | Some(value: T)

  /** Result of `strings.Cut(s, sep)`: the text before the first separator,
      the text after it, and whether a separator was there at all. */
  datatype Cut = Cut(before: string, after: string, found: bool)

  function CutAt(s: string, sep: char): (c: Cut)
    ensures sep !in c.before
    ensures c.found ==> s == c.before + [sep] + c.after
    ensures !c.found ==> c.before == s && c.after == []
    decreases |s|
  {
    if s == [] then Cut([], [], false)
    else if s[0] == sep then Cut([], s[1..], true)
    else
      var c := CutAt(s[1..], sep);
      Cut([s[0]] + c.before, c.after, c.found)
  }

  /** Cutting at the first separator recovers any decomposition whose left part is separator-free. */
  lemma CutAtFirst(a: string, b: string, sep: char)
    requires sep !in a
    ensures CutAt(a + [sep] + b, sep) == Cut(a, b, true)
  {
    var s := a + [sep] + b;
    var c := CutAt(s, sep);
    assert s[|a|] == sep;
    assert s[..|a|] == a;
    assert c.found;
    assert s[|c.before|] == sep;
    assert forall i :: 0 <= i < |a| ==> s[i] == a[i];
    assert forall i :: 0 <= i < |c.before| ==> s[i] == c.before[i];
    assert |c.before| == |a|;
    assert c.before == s[..|a|];
    assert c.after == s[|a| + 1..] == b;
  }

  lemma CutAtAbsent(a: string, sep: char)
    requires sep !in a
    ensures CutAt(a, sep) == Cut(a, [], false)
  {
  }

  /** Joins parts with the separator between them (`strings.Join`). */
  function JoinWith(parts: seq<string>, sep: char): string
    decreases |parts|
  {
    if parts == [] then []
    else if |parts| == 1 then parts[0]
    else parts[0] + [sep] + JoinWith(parts[1..], sep)
  }

  /** `strings.Split(s, sep)`: never empty, no part holds the separator, and joining the parts gives `s` back. */
  function Split(s: string, sep: char): (parts: seq<string>)
    ensures |parts| >= 1
    ensures forall i :: 0 <= i < |parts| ==> sep !in parts[i]
    ensures JoinWith(parts, sep) == s
    decreases |s|
  {
    var c := CutAt(s, sep);
    if c.found then [c.before] + Split(c.after, sep) else [s]
  }

  /** The other half of the round trip: splitting a join of separator-free parts gives the parts back. */
  lemma {:induction false} SplitJoinWith(parts: seq<string>, sep: char)
    requires |parts| >= 1
    requires forall i :: 0 <= i < |parts| ==> sep !in parts[i]
    ensures Split(JoinWith(parts, sep), sep) == parts
    decreases |parts|
  {
    if |parts| == 1 {
      CutAtAbsent(parts[0], sep);
    } else {
      var rest := JoinWith(parts[1..], sep);
      CutAtFirst(parts[0], rest, sep);
      SplitJoinWith(parts[1..], sep);
    }
  }

  lemma {:induction false} JoinWithAppend(parts: seq<string>, last: string, sep: char)
    requires |parts| >= 1
    ensures JoinWith(parts + [last], sep) == JoinWith(parts, sep) + [sep] + last
    decreases |parts|
  {
    if |parts| > 1 {
      assert (parts + [last])[1..] == parts[1..] + [last];
      JoinWithAppend(parts[1..], last, sep);
    }
  }

  /** A trailing separator adds one empty part at the end. */
  lemma SplitTrailing(s: string, sep: char)
    ensures Split(s + [sep], sep) == Split(s, sep) + [[]]
  {
    var parts := Split(s, sep) + [[]];
    JoinWithAppend(Split(s, sep), [], sep);
    assert JoinWith(parts, sep) == s + [sep];
    assert forall i :: 0 <= i < |parts| ==> sep !in parts[i] by {
      forall i | 0 <= i < |parts| ensures sep !in parts[i] {
        if i < |parts| - 1 { assert parts[i] == Split(s, sep)[i]; }
      }
    }
    SplitJoinWith(parts, sep);
  }

  /** A join starts with its first part. */
  lemma JoinWithStartsWithFirst(parts: seq<string>, sep: char)
    requires |parts| >= 1
    ensures parts[0] <= JoinWith(parts, sep)
  {
  }

  /** `bytes.TrimPrefix`: drops `prefix` once when `s` starts with it. */
  function TrimPrefix(s: string, prefix: string): (r: string)
    ensures prefix <= s ==> s == prefix + r
    ensures !(prefix <= s) ==> r == s
  {
    if prefix <= s then s[|prefix|..] else s
  }

  /** `bytes.TrimSuffix`: drops `suffix` once when `s` ends with it. */
  function TrimSuffix(s: string, suffix: string): (r: string)
    ensures HasSuffix(s, suffix) ==> s == r + suffix
    ensures !HasSuffix(s, suffix) ==> r == s
  {
    if HasSuffix(s, suffix) then s[..|s| - |suffix|] else s
  }

  predicate HasSuffix(s: string, suffix: string) {
    |suffix| <= |s| && s[|s| - |suffix|..] == suffix
  }

  /** `bytes.TrimLeft`: drops every leading character that is in `cutset`. */
  function TrimLeft(s: string, cutset: set<char>): (r: string)
    ensures |r| <= |s| && r == s[|s| - |r|..]
    ensures forall i :: 0 <= i < |s| - |r| ==> s[i] in cutset
    ensures r == [] || r[0] !in cutset
    decreases |s|
  {
    if s != [] && s[0] in cutset then TrimLeft(s[1..], cutset) else s
  }

  /** `bytes.TrimRight`: drops every trailing character that is in `cutset`. */
  function TrimRight(s: string, cutset: set<char>): (r: string)
    ensures |r| <= |s| && r == s[..|r|]
    ensures forall i :: |r| <= i < |s| ==> s[i] in cutset
    ensures r == [] || r[|r| - 1] !in cutset
    decreases |s|
  {
    if s != [] && s[|s| - 1] in cutset then TrimRight(s[..|s| - 1], cutset) else s
  }

  /** `bytes.Trim`: both ends. */
  function Trim(s: string, cutset: set<char>): string {
    TrimRight(TrimLeft(s, cutset), cutset)
  }

  lemma TrimPrefixOf(prefix: string, s: string)
    ensures TrimPrefix(prefix + s, prefix) == s
  {
    assert prefix <= prefix + s;
  }

  lemma TrimSuffixOf(s: string, suffix: string)
    ensures TrimSuffix(s + suffix, suffix) == s
  {
    assert (s + suffix)[|s|..] == suffix;
    assert (s + suffix)[..|s|] == s;
  }

  /** Trimming leaves alone a text that neither starts nor ends with a cut character. */
  lemma TrimKeepsUntrimmed(s: string, cutset: set<char>)
    requires s == [] || (s[0] !in cutset && s[|s| - 1] !in cutset)
    ensures Trim(s, cutset) == s
  {
  }

  /** Trimming strips one cut character from each end of such a text. */
  lemma TrimEnclosed(s: string, c: char, cutset: set<char>)
    requires c in cutset
    requires s == [] || (s[0] !in cutset && s[|s| - 1] !in cutset)
    ensures Trim([c] + s + [c], cutset) == s
  {
    var w := [c] + s + [c];
    assert w[1..] == s + [c];
    assert TrimLeft(w, cutset) == TrimLeft(s + [c], cutset);
    if s == [] {
      assert TrimLeft([c], cutset) == TrimLeft([], cutset) == [];
    } else {
      assert (s + [c])[0] == s[0];
      assert TrimLeft(s + [c], cutset) == s + [c];
      assert (s + [c])[..|s|] == s;
      assert TrimRight(s + [c], cutset) == TrimRight(s, cutset) == s;
    }
  }
}
