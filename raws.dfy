/**
 * The raw-descriptor tree of `mmolib/src/raws.rs`: a trie over path
 * segments whose nodes hold leaves (`level`) and child trees (`subtrees`),
 * filled in place by `insert` and read by `search` and `search_for_all`.
 */
module Raws {
  import opened Wrappers

  /** `serde_json::Value`, the payload of a descriptor file. */
  datatype Json =
    | JNull
    | JBool(b: bool)
    | JNumber(n: int)
    | JString(s: string)
    | JArray(items: seq<Json>)
    | JObject(fields: map<string, Json>)

  /** A descriptor: its JSON payload and the path it was filed under. */
  datatype Raw = Raw(dat: Json, path: seq<string>)

  function RawPath(r: Raw): seq<string>
  {
    r.path
  }

  function RawDat(r: Raw): Json
  {
    r.dat
  }

  /** `Raw::new`: what `path()` and `dat()` later return. */
  function NewRaw(path: seq<string>, dat: Json): (r: Raw)
    ensures RawPath(r) == path && RawDat(r) == dat
  {
    Raw(dat, path)
  }

  // ---------------------------------------------------------------------
  // The abstract value of a tree.

  datatype Trie = Trie(level: map<string, Raw>, subtrees: map<string, Trie>)

  const EmptyTrie: Trie := Trie(map[], map[])

  /** `insert`: file `raw` under `path`, creating missing subtrees on the way. */
  function TrieInsert(t: Trie, raw: Raw, path: seq<string>): Trie
    requires |path| >= 1
    decreases |path|
  {
    if |path| == 1 then
      t.(level := t.level[path[0] := raw])
    else
      var child := if path[0] in t.subtrees then t.subtrees[path[0]] else EmptyTrie;
      t.(subtrees := t.subtrees[path[0] := TrieInsert(child, raw, path[1..])])
  }

  /** `search`: the leaf named by the last segment of `path`, if any. */
  function TrieSearch(t: Trie, path: seq<string>): Option<Raw>
    requires |path| >= 1
    decreases |path|
  {
    if |path| == 1 then
      if path[0] in t.level then Some(t.level[path[0]]) else None
    else if path[0] in t.subtrees then TrieSearch(t.subtrees[path[0]], path[1..])
    else None
  }

  /**
   * The leaves `search_for_all` returns: those of the node reached by following
   * `path`, or of the deepest node reached when a segment has no subtree.
   */
  function TrieSearchAll(t: Trie, path: seq<string>): map<string, Raw>
    decreases |path|
  {
    if |path| == 0 then t.level
    else if path[0] in t.subtrees then TrieSearchAll(t.subtrees[path[0]], path[1..])
    else t.level
  }

  /** The values of `m` at the keys `ks`, with multiplicity. */
  ghost function ValuesOver(m: map<string, Raw>, ks: set<string>): multiset<Raw>
    requires ks <= m.Keys
    decreases ks
  {
    if ks == {} then multiset{}
    else
      var k :| k in ks;
      ValuesOver(m, ks - {k}) + multiset{m[k]}
  }

  /** `values()`: every value of the map, counted once per key. */
  ghost function ValuesOf(m: map<string, Raw>): multiset<Raw>
  {
    ValuesOver(m, m.Keys)
  }

  /** Any key can be taken out first: the multiset does not depend on the order. */
  lemma {:induction false} ValuesOverRemove(m: map<string, Raw>, ks: set<string>, k: string)
    requires ks <= m.Keys && k in ks
    ensures ValuesOver(m, ks) == ValuesOver(m, ks - {k}) + multiset{m[k]}
    decreases ks
  {
    var j :| j in ks && ValuesOver(m, ks) == ValuesOver(m, ks - {j}) + multiset{m[j]};
    if j != k {
      ValuesOverRemove(m, ks - {j}, k);
      ValuesOverRemove(m, ks - {k}, j);
      assert ks - {j} - {k} == ks - {k} - {j};
    }
  }

  /** One entry per key, and exactly the map's values. */
  lemma {:induction false} ValuesOverFacts(m: map<string, Raw>, ks: set<string>)
    requires ks <= m.Keys
    ensures |ValuesOver(m, ks)| == |ks|
    ensures forall v :: v in ValuesOver(m, ks) <==> exists k :: k in ks && m[k] == v
    decreases ks
  {
    if ks != {} {
      var k :| k in ks;
      ValuesOverRemove(m, ks, k);
      ValuesOverFacts(m, ks - {k});
    }
  }

  lemma ValuesOfFacts(m: map<string, Raw>)
    ensures |ValuesOf(m)| == |m|
    ensures forall v :: v in ValuesOf(m) <==> v in m.Values
  {
    ValuesOverFacts(m, m.Keys);
  }

  // ---------------------------------------------------------------------
  // Laws of insert and search.

  /** A one-segment insert sets the leaf, replacing any earlier one, and nothing else. */
  lemma InsertLeaf(t: Trie, raw: Raw, k: string)
    ensures TrieInsert(t, raw, [k]).level == t.level[k := raw]
    ensures TrieInsert(t, raw, [k]).subtrees == t.subtrees
  {
  }

  /**
   * A longer insert leaves this node's leaves alone and recurses into the
   * subtree of the first segment, which it creates empty when missing.
   */
  lemma InsertDeep(t: Trie, raw: Raw, path: seq<string>)
    requires |path| >= 2
    ensures TrieInsert(t, raw, path).level == t.level
    ensures TrieInsert(t, raw, path).subtrees.Keys == t.subtrees.Keys + {path[0]}
    ensures TrieInsert(t, raw, path).subtrees[path[0]]
            == TrieInsert(if path[0] in t.subtrees then t.subtrees[path[0]] else EmptyTrie, raw, path[1..])
    ensures forall k :: k in t.subtrees && k != path[0] ==> TrieInsert(t, raw, path).subtrees[k] == t.subtrees[k]
  {
  }

  lemma SearchEmpty(path: seq<string>)
    requires |path| >= 1
    ensures TrieSearch(EmptyTrie, path) == None
  {
  }

  /** After `insert(raw, p)`, `search(p)` finds `raw`. */
  lemma {:induction false} SearchAfterInsert(t: Trie, raw: Raw, p: seq<string>)
    requires |p| >= 1
    ensures TrieSearch(TrieInsert(t, raw, p), p) == Some(raw)
    decreases |p|
  {
    if |p| > 1 {
      var child := if p[0] in t.subtrees then t.subtrees[p[0]] else EmptyTrie;
      SearchAfterInsert(child, raw, p[1..]);
    }
  }

  /** `insert(raw, p)` changes what `search` finds at no other path. */
  lemma {:induction false} SearchOtherUnaffected(t: Trie, raw: Raw, p: seq<string>, q: seq<string>)
    requires |p| >= 1 && |q| >= 1 && p != q
    ensures TrieSearch(TrieInsert(t, raw, p), q) == TrieSearch(t, q)
    decreases |p|
  {
    if |p| > 1 && |q| > 1 && p[0] == q[0] {
      assert p == [p[0]] + p[1..] && q == [q[0]] + q[1..];
      if p[0] in t.subtrees {
        SearchOtherUnaffected(t.subtrees[p[0]], raw, p[1..], q[1..]);
      } else {
        SearchOtherUnaffected(EmptyTrie, raw, p[1..], q[1..]);
        SearchEmpty(q[1..]);
      }
    }
  }

  /** A leaf at `[a]` and a subtree at `a` live side by side. */
  lemma LeafAndSubtreeCoexist(t: Trie, r1: Raw, r2: Raw, a: string, b: string)
    ensures var t' := TrieInsert(TrieInsert(t, r1, [a]), r2, [a, b]);
      TrieSearch(t', [a]) == Some(r1) && TrieSearch(t', [a, b]) == Some(r2)
  {
    SearchAfterInsert(t, r1, [a]);
    SearchOtherUnaffected(TrieInsert(t, r1, [a]), r2, [a, b], [a]);
    SearchAfterInsert(TrieInsert(t, r1, [a]), r2, [a, b]);
  }

  /** `search` gives None as soon as an inner segment has no subtree. */
  lemma SearchMissingSubtree(t: Trie, q: seq<string>)
    requires |q| >= 2 && q[0] !in t.subtrees
    ensures TrieSearch(t, q) == None
  {
  }

  /**
   * `search_for_all` of the empty path lists this node's leaves; when a
   * segment has no subtree it falls back to the current node's leaves
   * instead of returning nothing.
   */
  lemma SearchAllFallback(t: Trie, q: seq<string>)
    ensures |q| == 0 ==> TrieSearchAll(t, q) == t.level
    ensures |q| >= 1 && q[0] !in t.subtrees ==> TrieSearchAll(t, q) == t.level
  {
  }

  /** After `insert(raw, p + [k])`, listing the directory `p` includes `raw`. */
  lemma {:induction false} SearchAllAfterInsert(t: Trie, raw: Raw, p: seq<string>, k: string)
    ensures var m := TrieSearchAll(TrieInsert(t, raw, p + [k]), p);
      k in m && m[k] == raw
    decreases |p|
  {
    if |p| > 0 {
      var child := if p[0] in t.subtrees then t.subtrees[p[0]] else EmptyTrie;
      assert (p + [k])[1..] == p[1..] + [k];
      SearchAllAfterInsert(child, raw, p[1..], k);
    }
  }

  // ---------------------------------------------------------------------
  // The tree as an object updated in place. Its subtrees are owned values
  // (no subtree is shared or aliased), so they are kept as `Trie` values.

  class RawTree {
    var level: map<string, Raw>
    var subtrees: map<string, Trie>

    /** The abstract value of the whole tree. */
    function Model(): Trie
      reads this
    {
      Trie(level, subtrees)
    }

    /** `RawTree::new_empty`. */
    constructor Empty()
      ensures Model() == EmptyTrie
    {
      level := map[];
      subtrees := map[];
    }

    /** `insert`: file `raw` under `path`, creating missing subtrees on the way. */
    method Insert(raw: Raw, path: seq<string>)
      requires |path| >= 1
      modifies this
      ensures Model() == TrieInsert(old(Model()), raw, path)
    {
      if |path| == 1 {
        level := level[path[0] := raw];
      } else {
        var key := path[0];
        var child := if key in subtrees then subtrees[key] else EmptyTrie;
        subtrees := subtrees[key := TrieInsert(child, raw, path[1..])];
      }
    }

    /** `search`. */
    method Search(path: seq<string>) returns (r: Option<Raw>)
      requires |path| >= 1
      ensures r == TrieSearch(Model(), path)
    {
      if |path| == 1 {
        r := if path[0] in level then Some(level[path[0]]) else None;
      } else if path[0] in subtrees {
        r := TrieSearch(subtrees[path[0]], path[1..]);
      } else {
        r := None;
      }
    }

    /** `search_for_all`: the result's order is left open, so it is stated as a multiset. */
    method SearchForAll(path: seq<string>) returns (r: seq<Raw>)
      ensures multiset(r) == ValuesOf(TrieSearchAll(Model(), path))
    {
      if |path| == 0 {
        r := CollectValues(level);
      } else if path[0] in subtrees {
        r := CollectValues(TrieSearchAll(subtrees[path[0]], path[1..]));
      } else {
        r := CollectValues(level);
      }
    }
  }

  /** `values().collect()`: every value once per key, in no particular order. */
  method CollectValues(m: map<string, Raw>) returns (r: seq<Raw>)
    ensures multiset(r) == ValuesOf(m)
  {
    r := [];
    var rest := m.Keys;
    while rest != {}
      invariant rest <= m.Keys
      invariant multiset(r) + ValuesOver(m, rest) == ValuesOf(m)
      decreases rest
    {
      var k :| k in rest;
      ValuesOverRemove(m, rest, k);
      r := r + [m[k]];
      rest := rest - {k};
    }
  }

  // ---------------------------------------------------------------------
  // Splitting a path string.

  /** `path.split("/")`: the segments between slashes, empty ones included. */
  function Split(s: string): (r: seq<string>)
    ensures |r| >= 1
    decreases |s|
  {
    if |s| == 0 then [""]
    else
      var r := Split(s[..|s| - 1]);
      if s[|s| - 1] == '/' then r + [""]
      else r[..|r| - 1] + [r[|r| - 1] + [s[|s| - 1]]]
  }

  /** The segments put back together with slashes between them. */
  function Join(segments: seq<string>): string
    requires |segments| >= 1
    decreases |segments|
  {
    if |segments| == 1 then segments[0]
    else Join(segments[..|segments| - 1]) + "/" + segments[|segments| - 1]
  }

  /** `split_path`: push each segment of the split onto a vector. */
  method SplitPath(s: string) returns (v: seq<string>)
    ensures v == Split(s)
  {
    v := [];
    var cur := "";
    var i := 0;
    while i < |s|
      invariant 0 <= i <= |s|
      invariant v + [cur] == Split(s[..i])
    {
      assert s[..i + 1][..i] == s[..i];
      if s[i] == '/' {
        v := v + [cur];
        cur := "";
      } else {
        cur := cur + [s[i]];
      }
      i := i + 1;
    }
    assert s[..i] == s;
    v := v + [cur];
  }

  /** No segment contains a slash. */
  lemma {:induction false} SplitNoSlash(s: string)
    ensures forall i :: 0 <= i < |Split(s)| ==> '/' !in Split(s)[i]
    decreases |s|
  {
    if |s| > 0 {
      SplitNoSlash(s[..|s| - 1]);
    }
  }

  lemma JoinSnoc(xs: seq<string>, c: char)
    requires |xs| >= 1
    ensures Join(xs[..|xs| - 1] + [xs[|xs| - 1] + [c]]) == Join(xs) + [c]
  {
    var ys := xs[..|xs| - 1] + [xs[|xs| - 1] + [c]];
    if |xs| > 1 {
      assert ys[..|ys| - 1] == xs[..|xs| - 1];
    }
  }

  /** Joining the segments with slashes gives the string back. */
  lemma {:induction false} JoinSplit(s: string)
    ensures Join(Split(s)) == s
    decreases |s|
  {
    if |s| > 0 {
      var s' := s[..|s| - 1];
      JoinSplit(s');
      var r := Split(s');
      if s[|s| - 1] == '/' {
        assert (r + [""])[..|r|] == r;
      } else {
        JoinSnoc(r, s[|s| - 1]);
      }
      assert s' + [s[|s| - 1]] == s;
    }
  }

  lemma {:induction false} SplitAfterSlash(a: string, w: string)
    requires '/' !in w
    ensures Split(a + "/" + w) == Split(a) + [w]
    decreases |w|
  {
    if |w| == 0 {
      assert a + "/" + w == a + "/";
      assert (a + "/")[..|a|] == a;
    } else {
      var w' := w[..|w| - 1];
      var s := a + "/" + w;
      assert s[..|s| - 1] == a + "/" + w';
      SplitAfterSlash(a, w');
      assert w' + [w[|w| - 1]] == w;
    }
  }

  lemma {:induction false} SplitNoSlashSegment(w: string)
    requires '/' !in w
    ensures Split(w) == [w]
    decreases |w|
  {
    if |w| > 0 {
      SplitNoSlashSegment(w[..|w| - 1]);
      assert w[..|w| - 1] + [w[|w| - 1]] == w;
    }
  }

  /** Splitting a slash-joined list of slash-free segments gives the list back. */
  lemma {:induction false} SplitJoin(segments: seq<string>)
    requires |segments| >= 1
    requires forall i :: 0 <= i < |segments| ==> '/' !in segments[i]
    ensures Split(Join(segments)) == segments
    decreases |segments|
  {
    if |segments| == 1 {
      SplitNoSlashSegment(segments[0]);
    } else {
      var init := segments[..|segments| - 1];
      SplitJoin(init);
      SplitAfterSlash(Join(init), segments[|segments| - 1]);
    }
  }
}
