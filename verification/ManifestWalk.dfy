/**
  `collectEntryCSS` of `src/server/app_routes.ts`: the style sheets that a Vite
  entry needs, gathered by a walk over an import graph that may be cyclic and may
  name chunks the manifest does not hold.
 */
module ManifestWalk {
  import opened Sequences

  /** An absent `css` or `imports` array is the empty one. */
  datatype Chunk = Chunk(css: seq<string>, imports: seq<string>)

  type Manifest = map<string, Chunk>

  function Imports(m: Manifest, key: string): seq<string> {
    if key in m then m[key].imports else []
  }

  function Css(m: Manifest, key: string): seq<string> {
    if key in m then m[key].css else []
  }

  // ----- a set that remembers insertion order -----

  /** Inserts the elements of `s` that are not there yet, in order. */
  function Merge(acc: seq<string>, s: seq<string>): seq<string>
    decreases s
  {
    if s == [] then acc else Merge(if s[0] in acc then acc else acc + [s[0]], s[1..])
  }

  lemma {:induction false} MergeMembers(acc: seq<string>, s: seq<string>, x: string)
    ensures x in Merge(acc, s) <==> x in acc || x in s
    decreases s
  {
    if s != [] {
      MergeMembers(if s[0] in acc then acc else acc + [s[0]], s[1..], x);
    }
  }

  lemma {:induction false} MergeDistinct(acc: seq<string>, s: seq<string>)
    requires Distinct(acc)
    ensures Distinct(Merge(acc, s))
    decreases s
  {
    if s != [] {
      MergeDistinct(if s[0] in acc then acc else acc + [s[0]], s[1..]);
    }
  }

  lemma {:induction false} MergeAppend(acc: seq<string>, s: seq<string>, t: seq<string>)
    ensures Merge(acc, s + t) == Merge(Merge(acc, s), t)
    decreases s
  {
    if s == [] {
      assert s + t == t;
    } else {
      assert (s + t)[1..] == s[1..] + t;
      MergeAppend(if s[0] in acc then acc else acc + [s[0]], s[1..], t);
    }
  }

  lemma {:induction false} MergeNothingNew(acc: seq<string>, s: seq<string>)
    requires forall x :: x in s ==> x in acc
    ensures Merge(acc, s) == acc
    decreases s
  {
    if s != [] {
      MergeNothingNew(acc, s[1..]);
    }
  }

  /** The style sheets of a list of chunks, one list after the other. */
  function AllCss(m: Manifest, keys: seq<string>): seq<string> {
    if keys == [] then [] else Css(m, keys[0]) + AllCss(m, keys[1..])
  }

  lemma {:induction false} AllCssContains(m: Manifest, keys: seq<string>, file: string)
    ensures file in AllCss(m, keys) <==> exists k :: k in keys && file in Css(m, k)
  {
    if keys != [] {
      AllCssContains(m, keys[1..], file);
      assert forall k :: k in keys <==> k == keys[0] || k in keys[1..];
    }
  }

  lemma {:induction false} AllCssAppend(m: Manifest, s: seq<string>, t: seq<string>)
    ensures AllCss(m, s + t) == AllCss(m, s) + AllCss(m, t)
  {
    if s == [] {
      assert s + t == t;
    } else {
      assert (s + t)[1..] == s[1..] + t;
      AllCssAppend(m, s[1..], t);
    }
  }

  lemma {:induction false} MergeOne(acc: seq<string>, s: seq<string>, i: nat)
    requires i < |s|
    ensures Merge(acc, s[..i + 1]) ==
            if s[i] in Merge(acc, s[..i]) then Merge(acc, s[..i]) else Merge(acc, s[..i]) + [s[i]]
  {
    assert s[..i + 1] == s[..i] + [s[i]];
    MergeAppend(acc, s[..i], [s[i]]);
  }

  lemma {:induction false} CssOfOneMore(m: Manifest, keys: seq<string>, key: string)
    ensures Merge([], AllCss(m, keys + [key])) == Merge(Merge([], AllCss(m, keys)), Css(m, key))
  {
    AllCssAppend(m, keys, [key]);
    assert AllCss(m, [key]) == Css(m, key);
    MergeAppend([], AllCss(m, keys), Css(m, key));
  }

  // ----- the walk -----

  /**
    The chunks a walk from `key` enters, appended to the ones entered before. This is
    the order in which `visited` grows.
   */
  function Walk(m: Manifest, key: string, visited: seq<string>): (r: seq<string>)
    ensures visited <= r && key in r
    decreases m.Keys - Members(visited), 1, 0
  {
    if key in visited then visited
    else if key !in m then visited + [key]
    else
      assert key in m.Keys - Members(visited) && key !in m.Keys - Members(visited + [key]);
      WalkAll(m, m[key].imports, visited + [key])
  }

  function WalkAll(m: Manifest, keys: seq<string>, visited: seq<string>): (r: seq<string>)
    ensures visited <= r && forall k :: k in keys ==> k in r
    decreases m.Keys - Members(visited), 2, |keys|
  {
    if keys == [] then visited else
      var first := Walk(m, keys[0], visited);
      assert Members(visited) <= Members(first);
      WalkAll(m, keys[1..], first)
  }

  class CssWalk {
    const manifest: Manifest
    var css: seq<string>        // a Set, in insertion order
    var visited: set<string>
    ghost var order: seq<string>

    ghost predicate Valid()
      reads this
    {
      visited == Members(order) && css == Merge([], AllCss(manifest, order))
    }

    constructor (manifest: Manifest)
      ensures Valid() && this.manifest == manifest && order == []
    {
      this.manifest, css, visited, order := manifest, [], {}, [];
    }

    method Visit(key: string)
      requires Valid()
      modifies this
      ensures Valid() && order == Walk(manifest, key, old(order))
      decreases manifest.Keys - visited
    {
      if key in visited { return; }
      ghost var before := order;
      visited, order := visited + {key}, order + [key];
      assert visited == Members(order) by {
        assert forall x :: x in order <==> x in before || x == key;
      }
      CssOfOneMore(manifest, before, key);
      if key !in manifest { return; }
      var chunk := manifest[key];
      for i := 0 to |chunk.css|
        invariant visited == Members(order) && order == before + [key]
        invariant css == Merge(Merge([], AllCss(manifest, before)), chunk.css[..i])
      {
        MergeOne(Merge([], AllCss(manifest, before)), chunk.css, i);
        if chunk.css[i] !in css {
          css := css + [chunk.css[i]];
        }
      }
      assert chunk.css[..|chunk.css|] == chunk.css;
      ghost var whole := WalkAll(manifest, chunk.imports, order);
      for i := 0 to |chunk.imports|
        invariant Valid() && old(visited) + {key} <= visited
        invariant whole == WalkAll(manifest, chunk.imports[i..], order)
      {
        ghost var entered := order;
        assert manifest.Keys - visited < manifest.Keys - old(visited) by {
          assert key in manifest.Keys - old(visited) && key !in manifest.Keys - visited;
        }
        Visit(chunk.imports[i]);
        assert Members(entered) <= Members(order);
      }
    }
  }

  method CollectEntryCSS(manifest: Manifest, entryKey: string) returns (css: seq<string>)
    ensures css == Merge([], AllCss(manifest, Walk(manifest, entryKey, [])))
  {
    var walk := new CssWalk(manifest);
    walk.Visit(entryKey);
    css := walk.css;
  }

  // ----- the plain search it refines -----

  /**
    A preorder search that keeps no visited set: it only refuses to re-enter a chunk
    that is still open on the current path. It lists a chunk once for every simple
    path that reaches it, so it can take exponential time.
   */
  function Search(m: Manifest, key: string, path: set<string>): seq<string>
    decreases m.Keys - path, 1, 0
  {
    if key in path then []
    else if key !in m then [key]
    else
      assert key in m.Keys - path && key !in m.Keys - (path + {key});
      [key] + SearchAll(m, m[key].imports, path + {key})
  }

  function SearchAll(m: Manifest, keys: seq<string>, path: set<string>): seq<string>
    decreases m.Keys - path, 2, |keys|
  {
    if keys == [] then [] else Search(m, keys[0], path) + SearchAll(m, keys[1..], path)
  }

  /** Every chunk that has been entered and left again has had all its imports entered. */
  ghost predicate Finished(m: Manifest, visited: seq<string>, path: set<string>) {
    forall k, i :: k in visited && k !in path && 0 <= i < |Imports(m, k)| ==> Imports(m, k)[i] in visited
  }

  /** A plain search started inside finished territory meets nothing new. */
  lemma {:induction false} SearchStaysFinished(m: Manifest, key: string, visited: seq<string>, path: set<string>)
    requires key in visited && Finished(m, visited, path)
    ensures forall k :: k in Search(m, key, path) ==> k in visited
    decreases m.Keys - path, 1, 0
  {
    if key !in path && key in m {
      assert key in m.Keys - path && key !in m.Keys - (path + {key});
      assert Imports(m, key) == m[key].imports;
      SearchAllStaysFinished(m, m[key].imports, visited, path + {key});
    }
  }

  lemma {:induction false} SearchAllStaysFinished(m: Manifest, keys: seq<string>, visited: seq<string>,
      path: set<string>)
    requires Finished(m, visited, path) && forall i :: 0 <= i < |keys| ==> keys[i] in visited
    ensures forall k :: k in SearchAll(m, keys, path) ==> k in visited
    decreases m.Keys - path, 2, |keys|
  {
    if keys != [] {
      SearchStaysFinished(m, keys[0], visited, path);
      SearchAllStaysFinished(m, keys[1..], visited, path);
    }
  }

  /** The walk enters exactly what the plain search meets, each chunk where it is met first. */
  lemma {:induction false} WalkRefinesSearch(m: Manifest, key: string, visited: seq<string>, path: set<string>)
    requires path <= Members(visited) && Finished(m, visited, path)
    ensures Walk(m, key, visited) == Merge(visited, Search(m, key, path))
    ensures Finished(m, Walk(m, key, visited), path)
    decreases m.Keys - Members(visited), 1, 0
  {
    if key in visited {
      SearchStaysFinished(m, key, visited, path);
      MergeNothingNew(visited, Search(m, key, path));
    } else if key !in m {
      assert key !in path;
      assert Merge(visited, [key]) == Merge(visited + [key], []);
    } else {
      var inner, entered := path + {key}, visited + [key];
      assert key in m.Keys - Members(visited) && key !in m.Keys - Members(entered);
      assert key !in path && inner <= Members(entered);
      WalkAllRefinesSearch(m, m[key].imports, entered, inner);
      MergeAppend(visited, [key], SearchAll(m, m[key].imports, inner));
      assert Merge(visited, [key]) == Merge(entered, []);
    }
  }

  lemma {:induction false} WalkAllRefinesSearch(m: Manifest, keys: seq<string>, visited: seq<string>, path: set<string>)
    requires path <= Members(visited) && Finished(m, visited, path)
    ensures WalkAll(m, keys, visited) == Merge(visited, SearchAll(m, keys, path))
    ensures Finished(m, WalkAll(m, keys, visited), path)
    decreases m.Keys - Members(visited), 2, |keys|
  {
    if keys != [] {
      WalkRefinesSearch(m, keys[0], visited, path);
      var first := Walk(m, keys[0], visited);
      assert Members(visited) <= Members(first);
      WalkAllRefinesSearch(m, keys[1..], first, path);
      MergeAppend(visited, Search(m, keys[0], path), SearchAll(m, keys[1..], path));
    }
  }

  // ----- what the result is -----

  lemma {:induction false} RepeatedKeyAddsNothing(m: Manifest, acc: seq<string>, key: string, rest: seq<string>)
    requires key in acc
    ensures Merge([], AllCss(m, acc + [key] + rest)) == Merge([], AllCss(m, acc + rest))
  {
    AllCssAppend(m, acc + [key], rest);
    AllCssAppend(m, acc, rest);
    MergeAppend([], AllCss(m, acc + [key]), AllCss(m, rest));
    MergeAppend([], AllCss(m, acc), AllCss(m, rest));
    CssOfOneMore(m, acc, key);
    forall x | x in Css(m, key) ensures x in Merge([], AllCss(m, acc)) {
      AllCssContains(m, acc, x);
      MergeMembers([], AllCss(m, acc), x);
    }
    MergeNothingNew(Merge([], AllCss(m, acc)), Css(m, key));
  }

  lemma {:induction false} CssOfMerge(m: Manifest, acc: seq<string>, s: seq<string>)
    ensures Merge([], AllCss(m, Merge(acc, s))) == Merge([], AllCss(m, acc + s))
    decreases s
  {
    if s == [] {
      assert acc + s == acc;
    } else {
      var grown := if s[0] in acc then acc else acc + [s[0]];
      CssOfMerge(m, grown, s[1..]);
      FirstKeyGrows(m, acc, s);
    }
  }

  lemma {:induction false} FirstKeyGrows(m: Manifest, acc: seq<string>, s: seq<string>)
    requires s != []
    ensures var grown := if s[0] in acc then acc else acc + [s[0]];
            Merge([], AllCss(m, grown + s[1..])) == Merge([], AllCss(m, acc + s))
  {
    assert acc + s == acc + [s[0]] + s[1..];
    if s[0] in acc {
      RepeatedKeyAddsNothing(m, acc, s[0], s[1..]);
    }
  }

  /** The style sheets come in the order in which a plain preorder search first meets them, each once. */
  lemma {:induction false} CssInSearchOrder(m: Manifest, entry: string)
    ensures Merge([], AllCss(m, Walk(m, entry, []))) == Merge([], AllCss(m, Search(m, entry, {})))
    ensures Distinct(Merge([], AllCss(m, Walk(m, entry, []))))
  {
    WalkRefinesSearch(m, entry, [], {});
    CssOfMerge(m, [], Search(m, entry, {}));
    assert [] + Search(m, entry, {}) == Search(m, entry, {});
    MergeDistinct([], AllCss(m, Walk(m, entry, [])));
  }

  /** A chain of imports from one chunk to another. */
  predicate IsPath(m: Manifest, path: seq<string>, from: string, to: string) {
    && path != [] && path[0] == from && path[|path| - 1] == to
    && forall i :: 0 <= i < |path| - 1 ==> path[i + 1] in Imports(m, path[i])
  }

  ghost predicate Reachable(m: Manifest, from: string, to: string) {
    exists path: seq<string> :: IsPath(m, path, from, to)
  }

  lemma {:induction false} ReachableStep(m: Manifest, from: string, mid: string, to: string)
    requires mid in Imports(m, from) && Reachable(m, mid, to)
    ensures Reachable(m, from, to)
  {
    var path :| IsPath(m, path, mid, to);
    assert IsPath(m, [from] + path, from, to);
  }

  lemma {:induction false} SearchMeetsReachable(m: Manifest, key: string, path: set<string>, k: string)
    requires k in Search(m, key, path)
    ensures Reachable(m, key, k)
    decreases m.Keys - path, 1, 0
  {
    if k == key {
      assert IsPath(m, [key], key, key);
    } else {
      assert key in m.Keys - path && key !in m.Keys - (path + {key});
      var mid := SearchAllMeetsReachable(m, m[key].imports, path + {key}, k);
      ReachableStep(m, key, mid, k);
    }
  }

  lemma {:induction false} SearchAllMeetsReachable(m: Manifest, keys: seq<string>, path: set<string>, k: string)
      returns (mid: string)
    requires k in SearchAll(m, keys, path)
    ensures mid in keys && Reachable(m, mid, k)
    decreases m.Keys - path, 2, |keys|
  {
    if k in Search(m, keys[0], path) {
      SearchMeetsReachable(m, keys[0], path, k);
      mid := keys[0];
    } else {
      mid := SearchAllMeetsReachable(m, keys[1..], path, k);
    }
  }

  lemma {:induction false} FinishedIsClosed(m: Manifest, visited: seq<string>, path: seq<string>, from: string,
      to: string)
    requires Finished(m, visited, {}) && from in visited && IsPath(m, path, from, to)
    ensures to in visited
    decreases path
  {
    if |path| > 1 {
      assert path[0 + 1] in Imports(m, path[0]);
      var i :| 0 <= i < |Imports(m, from)| && Imports(m, from)[i] == path[1];
      assert path[1..][|path| - 2] == to;
      forall j | 0 <= j < |path[1..]| - 1 ensures path[1..][j + 1] in Imports(m, path[1..][j]) {
        assert path[j + 2] in Imports(m, path[j + 1]);
      }
      FinishedIsClosed(m, visited, path[1..], path[1], to);
    }
  }

  /** The walk enters exactly the keys that some chain of imports reaches, cycles or not. */
  lemma {:induction false} WalkEntersReachable(m: Manifest, entry: string, k: string)
    ensures k in Walk(m, entry, []) <==> Reachable(m, entry, k)
  {
    WalkRefinesSearch(m, entry, [], {});
    if k in Walk(m, entry, []) {
      MergeMembers([], Search(m, entry, {}), k);
      SearchMeetsReachable(m, entry, {}, k);
    }
    if Reachable(m, entry, k) {
      var path :| IsPath(m, path, entry, k);
      FinishedIsClosed(m, Walk(m, entry, []), path, entry, k);
    }
  }

  /** A style sheet is collected if and only if a reachable chunk lists it. */
  lemma {:induction false} CollectedIffReachable(m: Manifest, entry: string, file: string)
    ensures file in Merge([], AllCss(m, Walk(m, entry, []))) <==>
            exists k :: Reachable(m, entry, k) && file in Css(m, k)
  {
    var order := Walk(m, entry, []);
    MergeMembers([], AllCss(m, order), file);
    AllCssContains(m, order, file);
    forall k ensures k in order <==> Reachable(m, entry, k) {
      WalkEntersReachable(m, entry, k);
    }
  }
}
