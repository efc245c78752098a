/**
 Reference expansion in DML trees. A node is a list of attributes or a string; `_extends` and `_find` strings
 name another attribute by its path, and expansion turns them into links. Links can make the tree cyclic, so
 a traversal looks for cycles, and every later search terminates only because that traversal found none.
 */
module Dml {
  import Finite

  datatype Key = Root | Extends | Find | Schema | Ident(name: string)

  datatype Value = List(kids: seq<nat>) | Text(text: string)

  datatype Node = Node(key: Key, value: Value, parent: int)

  // ----- Paths of keys

  function Lower(c: char): char
  {
    if 'A' <= c <= 'Z' then (c as int + 32) as char else c
  }

  /** strcasecmp gives 0. */
  predicate SameName(s: string, t: string)
  {
    |s| == |t| && forall i :: 0 <= i < |s| ==> Lower(s[i]) == Lower(t[i])
  }

  function Name(key: Key): string
  {
    match key
    case Root => ""
    case Extends => "_extends"
    case Find => "_find"
    case Schema => "_schema"
    case Ident(name) => name
  }

  predicate Keyword(s: string)
  {
    SameName(s, "_extends") || SameName(s, "_find") || SameName(s, "_schema")
  }

  /** The length of the first key of a path. */
  function KeyLength(path: string): (n: nat)
    ensures n <= |path| && (n < |path| ==> path[n] == '.') && forall i :: 0 <= i < n ==> path[i] != '.'
  {
    if path == "" || path[0] == '.' then 0 else 1 + KeyLength(path[1..])
  }

  /** The path after its first key and the separator. */
  function Rest(path: string): (r: string)
    ensures path != "" && path[0] != '.' ==> |r| < |path|
  {
    var n := KeyLength(path);
    if n < |path| then path[n + 1..] else ""
  }

  /** A path that starts with a key. */
  predicate Relative(path: string)
  {
    path != "" && path[0] != '.'
  }

  function FirstKey(path: string): string
  {
    path[..KeyLength(path)]
  }

  /** A path that starts with a key that is no keyword, and has no two separators in a row after it. */
  predicate Wellformed(path: string)
  {
    Relative(path) && !Keyword(FirstKey(path)) && (Rest(path) == "" || Rest(path)[0] != '.')
  }

  /** An absolute path with one separator in front. */
  predicate Absolute(path: string)
  {
    path != "" && path[0] == '.' && (|path| == 1 || path[1] != '.')
  }

  /** How far a search has come: the list it is at, and the rest of the path. */
  datatype Place = Place(node: nat, path: string)

  // ----- Trees

  predicate Link(node: Node)
  {
    node.key == Extends || node.key == Find
  }

  function Kids(node: Node): seq<nat>
  {
    if node.value.List? then node.value.kids else []
  }

  /** Node `n` is in the list that holds it, which comes before it. */
  predicate Placed(nodes: seq<Node>, n: nat)
    requires n < |nodes|
  {
    nodes[n].key != Root && 0 <= nodes[n].parent < n && n in Kids(nodes[nodes[n].parent])
  }

  predicate KidPlaced(nodes: seq<Node>, n: nat, i: nat)
    requires n < |nodes| && i < |Kids(nodes[n])|
  {
    n < Kids(nodes[n])[i] < |nodes| && nodes[Kids(nodes[n])[i]].parent == n
  }

  /** Node 0 is the root; every other node comes after the list that holds it. */
  predicate Tree(nodes: seq<Node>)
  {
    && |nodes| > 0 && nodes[0].key == Root && nodes[0].value.List?
    && (forall n: nat :: 1 <= n < |nodes| ==> Placed(nodes, n))
    && (forall n: nat, i: nat :: n < |nodes| && i < |Kids(nodes[n])| ==> KidPlaced(nodes, n, i))
  }

  function Parent(nodes: seq<Node>, n: nat): (r: nat)
    requires Tree(nodes) && 0 < n < |nodes|
    ensures r < n && r == nodes[n].parent && nodes[r].value.List? && nodes[n].key != Root
  {
    assert Placed(nodes, n);
    nodes[n].parent
  }

  function Kid(nodes: seq<Node>, n: nat, i: nat): (r: nat)
    requires Tree(nodes) && n < |nodes| && i < |Kids(nodes[n])|
    ensures n < r < |nodes| && r == Kids(nodes[n])[i] && Parent(nodes, r) == n
  {
    assert KidPlaced(nodes, n, i);
    Kids(nodes[n])[i]
  }

  /** A node is one of the children of its parent. */
  lemma ChildOfParent(nodes: seq<Node>, n: nat) returns (i: nat)
    requires Tree(nodes) && 0 < n < |nodes|
    ensures i < |Kids(nodes[Parent(nodes, n)])| && Kid(nodes, Parent(nodes, n), i) == n
  {
    assert Placed(nodes, n);
    i :| i < |Kids(nodes[Parent(nodes, n)])| && Kids(nodes[Parent(nodes, n)])[i] == n;
  }

  /** No list above the node is a schema. */
  predicate Live(nodes: seq<Node>, n: nat)
    requires Tree(nodes) && n < |nodes|
  {
    n == 0 || (nodes[Parent(nodes, n)].key != Schema && Live(nodes, Parent(nodes, n)))
  }

  // ----- search_attribute

  /** What a search comes to: nothing, an attribute, or the null pointer that stands for the children of an empty
      list, which the search does not expect. */
  datatype Sought = Missing | Crash | Hit(node: nat)

  /** The first attribute on the given path. Links are not followed. */
  function Search(nodes: seq<Node>, n: nat, path: string): (r: Sought)
    requires Tree(nodes) && n < |nodes| && nodes[n].value.List?
    ensures r.Hit? ==> r.node < |nodes|
    decreases |path|, 1, 0
  {
    if path == "" then Missing
    else if path[0] == '.' then
      if |path| > 1 && path[1] == '.' then Missing else Search(nodes, 0, path[1..])
    else
      var key, rest := path[..KeyLength(path)], Rest(path);
      if Keyword(key) || (rest != "" && rest[0] == '.') then Missing
      else if nodes[n].value.kids == [] then Crash
      else SearchKids(nodes, n, key, rest, path, 0)
  }

  function SearchKids(nodes: seq<Node>, n: nat, key: string, rest: string, ghost path: string, i: nat): (r: Sought)
    requires Tree(nodes) && n < |nodes| && i <= |Kids(nodes[n])| && |rest| < |path|
    ensures r.Hit? ==> r.node < |nodes|
    decreases |path|, 0, |Kids(nodes[n])| - i
  {
    if i == |Kids(nodes[n])| then Missing
    else
      var kid := Kid(nodes, n, i);
      var found := if !SameName(key, Name(nodes[kid].key)) then Missing
                   else if rest == "" then Hit(kid)
                   else if nodes[kid].value.List? then Search(nodes, kid, rest)
                   else Missing;
      if found != Missing then found else SearchKids(nodes, n, key, rest, path, i + 1)
  }

  /** What the search finds is named, and outside of all schemas if the search starts outside. */
  ghost predicate Named(nodes: seq<Node>, r: int)
    requires Tree(nodes)
  {
    0 <= r < |nodes| && nodes[r].key.Ident? && Live(nodes, r)
  }

  lemma {:induction false} SearchNamed(nodes: seq<Node>, n: nat, path: string)
    requires Tree(nodes) && n < |nodes| && nodes[n].value.List? && Live(nodes, n) && nodes[n].key != Schema
    ensures Search(nodes, n, path).Hit? ==> Named(nodes, Search(nodes, n, path).node)
    decreases |path|, 1, 0
  {
    if path == "" {
    } else if path[0] == '.' {
      if !(|path| > 1 && path[1] == '.') {
        SearchNamed(nodes, 0, path[1..]);
      }
    } else {
      var key, rest := path[..KeyLength(path)], Rest(path);
      if !(Keyword(key) || (rest != "" && rest[0] == '.')) {
        SearchKidsNamed(nodes, n, key, rest, path, 0);
      }
    }
  }

  lemma {:induction false} SearchKidsNamed(nodes: seq<Node>, n: nat, key: string, rest: string, path: string, i: nat)
    requires Tree(nodes) && n < |nodes| && Live(nodes, n) && nodes[n].key != Schema && !Keyword(key)
    requires i <= |Kids(nodes[n])| && |rest| < |path|
    ensures var r := SearchKids(nodes, n, key, rest, path, i); r.Hit? ==> Named(nodes, r.node)
    decreases |path|, 0, |Kids(nodes[n])| - i
  {
    if i < |Kids(nodes[n])| {
      var kid := Kid(nodes, n, i);
      assert Live(nodes, kid) && kid != 0;
      if SameName(key, Name(nodes[kid].key)) {
        NotKeyword(key, nodes[kid].key);
        if rest != "" && nodes[kid].value.List? {
          SearchNamed(nodes, kid, rest);
        }
      }
      SearchKidsNamed(nodes, n, key, rest, path, i + 1);
    }
  }

  lemma NotKeyword(s: string, key: Key)
    requires !Keyword(s) && SameName(s, Name(key)) && key != Root
    ensures key.Ident?
  {
  }

  // ----- What the search finds

  /** A route through the tree: which child is taken in every list on the way. What is at the end of it, if it fits
      the path: the attribute that the last key names, or a list without children in which keys are left. */
  ghost function End(nodes: seq<Node>, n: nat, path: string, route: seq<nat>): (r: Sought)
    requires Tree(nodes) && n < |nodes| && nodes[n].value.List?
    decreases |path|
  {
    if Absolute(path) then End(nodes, 0, path[1..], route)
    else if !Wellformed(path) then Missing
    else if nodes[n].value.kids == [] then (if route == [] then Crash else Missing)
    else if route == [] || route[0] >= |Kids(nodes[n])| then Missing
    else
      var kid := Kid(nodes, n, route[0]);
      if !SameName(FirstKey(path), Name(nodes[kid].key)) then Missing
      else if Rest(path) == "" then (if |route| == 1 then Hit(kid) else Missing)
      else if nodes[kid].value.List? then End(nodes, kid, Rest(path), route[1..])
      else Missing
  }

  /** The route `a` is to the left of `b`. */
  predicate LeftOf(a: seq<nat>, b: seq<nat>)
  {
    a != [] && b != [] && (a[0] < b[0] || (a[0] == b[0] && LeftOf(a[1..], b[1..])))
  }

  /** The leftmost route that ends anywhere. */
  ghost predicate Leftmost(nodes: seq<Node>, n: nat, path: string, route: seq<nat>)
    requires Tree(nodes) && n < |nodes| && nodes[n].value.List?
  {
    && End(nodes, n, path, route) != Missing
    && forall other :: End(nodes, n, path, other) != Missing ==> other == route || LeftOf(route, other)
  }

  /** The leftmost route through the children from `i` on. */
  ghost predicate LeftmostFrom(nodes: seq<Node>, n: nat, path: string, i: nat, route: seq<nat>)
    requires Tree(nodes) && n < |nodes| && nodes[n].value.List?
  {
    && route != [] && route[0] >= i && End(nodes, n, path, route) != Missing
    && forall other :: other != [] && other[0] >= i && End(nodes, n, path, other) != Missing ==> other == route || LeftOf(route, other)
  }

  /** A search that comes to something comes to the end of the leftmost route. */
  lemma {:induction false} SearchTakesLeftmost(nodes: seq<Node>, n: nat, path: string) returns (route: seq<nat>)
    requires Tree(nodes) && n < |nodes| && nodes[n].value.List? && Search(nodes, n, path) != Missing
    ensures Leftmost(nodes, n, path, route) && End(nodes, n, path, route) == Search(nodes, n, path)
    decreases |path|, 1, 0
  {
    if path[0] == '.' {
      route := SearchTakesLeftmost(nodes, 0, path[1..]);
    } else if nodes[n].value.kids == [] {
      route := [];
    } else {
      route := KidsTakeLeftmost(nodes, n, path, 0);
    }
  }

  lemma {:induction false} KidsTakeLeftmost(nodes: seq<Node>, n: nat, path: string, i: nat) returns (route: seq<nat>)
    requires Tree(nodes) && n < |nodes| && nodes[n].value.List? && Wellformed(path) && i <= |Kids(nodes[n])| && Kids(nodes[n]) != []
    requires SearchKids(nodes, n, FirstKey(path), Rest(path), path, i) != Missing
    ensures LeftmostFrom(nodes, n, path, i, route)
    ensures End(nodes, n, path, route) == SearchKids(nodes, n, FirstKey(path), Rest(path), path, i)
    decreases |path|, 0, |Kids(nodes[n])| - i
  {
    var kid := Kid(nodes, n, i);
    if SameName(FirstKey(path), Name(nodes[kid].key)) && Rest(path) == "" {
      route := [i];
      HereIsLeftmost(nodes, n, path, i);
    } else if SameName(FirstKey(path), Name(nodes[kid].key)) && nodes[kid].value.List? && Search(nodes, kid, Rest(path)) != Missing {
      var below := SearchTakesLeftmost(nodes, kid, Rest(path));
      route := [i] + below;
      BelowIsLeftmost(nodes, n, path, i, below);
    } else {
      route := KidsTakeLeftmost(nodes, n, path, i + 1);
      LaterIsLeftmost(nodes, n, path, i, route);
    }
  }

  lemma HereIsLeftmost(nodes: seq<Node>, n: nat, path: string, i: nat)
    requires Tree(nodes) && n < |nodes| && nodes[n].value.List? && Wellformed(path) && i < |Kids(nodes[n])|
    requires SameName(FirstKey(path), Name(nodes[Kid(nodes, n, i)].key)) && Rest(path) == ""
    ensures LeftmostFrom(nodes, n, path, i, [i]) && End(nodes, n, path, [i]) == Hit(Kid(nodes, n, i))
  {
    forall other: seq<nat> | other != [] && other[0] >= i && End(nodes, n, path, other) != Missing
      ensures other == [i] || LeftOf([i], other)
    {
      assert other[0] == i ==> other == [other[0]];
    }
  }

  lemma BelowIsLeftmost(nodes: seq<Node>, n: nat, path: string, i: nat, below: seq<nat>)
    requires Tree(nodes) && n < |nodes| && nodes[n].value.List? && Wellformed(path) && i < |Kids(nodes[n])| && Rest(path) != ""
    requires var kid := Kid(nodes, n, i);
      && SameName(FirstKey(path), Name(nodes[kid].key)) && nodes[kid].value.List?
      && Leftmost(nodes, kid, Rest(path), below)
    ensures LeftmostFrom(nodes, n, path, i, [i] + below)
    ensures End(nodes, n, path, [i] + below) == End(nodes, Kid(nodes, n, i), Rest(path), below)
  {
    EndBelow(nodes, n, path, i, below);
    forall other: seq<nat> | other != [] && other[0] >= i && End(nodes, n, path, other) != Missing
      ensures other == [i] + below || LeftOf([i] + below, other)
    {
      if other[0] == i {
        assert other == [i] + other[1..];
        BelowIsFirst(nodes, n, path, i, below, other[1..]);
      } else {
        assert ([i] + below)[0] < other[0];
      }
    }
  }

  lemma BelowIsFirst(nodes: seq<Node>, n: nat, path: string, i: nat, below: seq<nat>, rest: seq<nat>)
    requires Tree(nodes) && n < |nodes| && nodes[n].value.List? && Wellformed(path) && i < |Kids(nodes[n])| && Rest(path) != ""
    requires SameName(FirstKey(path), Name(nodes[Kid(nodes, n, i)].key)) && nodes[Kid(nodes, n, i)].value.List?
    requires Leftmost(nodes, Kid(nodes, n, i), Rest(path), below) && End(nodes, n, path, [i] + rest) != Missing
    ensures rest == below || LeftOf([i] + below, [i] + rest)
  {
    EndBelow(nodes, n, path, i, rest);
    LeftOfBelow(i, below, rest);
  }

  lemma EndBelow(nodes: seq<Node>, n: nat, path: string, i: nat, below: seq<nat>)
    requires Tree(nodes) && n < |nodes| && nodes[n].value.List? && Wellformed(path) && i < |Kids(nodes[n])| && Rest(path) != ""
    requires SameName(FirstKey(path), Name(nodes[Kid(nodes, n, i)].key)) && nodes[Kid(nodes, n, i)].value.List?
    ensures End(nodes, n, path, [i] + below) == End(nodes, Kid(nodes, n, i), Rest(path), below)
  {
    assert ([i] + below)[1..] == below;
  }

  lemma LeftOfBelow(i: nat, a: seq<nat>, b: seq<nat>)
    ensures LeftOf([i] + a, [i] + b) <==> LeftOf(a, b)
  {
    assert ([i] + a)[1..] == a && ([i] + b)[1..] == b;
  }

  lemma LaterIsLeftmost(nodes: seq<Node>, n: nat, path: string, i: nat, route: seq<nat>)
    requires Tree(nodes) && n < |nodes| && nodes[n].value.List? && Wellformed(path) && i < |Kids(nodes[n])|
    requires var kid := Kid(nodes, n, i);
      SameName(FirstKey(path), Name(nodes[kid].key)) ==>
        Rest(path) != "" && (nodes[kid].value.List? ==> Search(nodes, kid, Rest(path)) == Missing)
    requires LeftmostFrom(nodes, n, path, i + 1, route)
    ensures LeftmostFrom(nodes, n, path, i, route)
  {
    forall other: seq<nat> | other != [] && other[0] >= i && End(nodes, n, path, other) != Missing
      ensures other == route || LeftOf(route, other)
    {
      var kid := Kid(nodes, n, i);
      if other[0] == i && SameName(FirstKey(path), Name(nodes[kid].key)) && nodes[kid].value.List? {
        NothingThere(nodes, kid, Rest(path), other[1..]);
      }
    }
  }

  /** A search that comes to nothing has no route to anything. */
  lemma {:induction false} NothingThere(nodes: seq<Node>, n: nat, path: string, route: seq<nat>)
    requires Tree(nodes) && n < |nodes| && nodes[n].value.List? && Search(nodes, n, path) == Missing
    ensures End(nodes, n, path, route) == Missing
    decreases |path|, 1, 0
  {
    if Absolute(path) {
      NothingThere(nodes, 0, path[1..], route);
    } else if Wellformed(path) && route != [] && route[0] < |Kids(nodes[n])| {
      KidGivesNothing(nodes, n, path, 0, route[0]);
      var kid := Kid(nodes, n, route[0]);
      if SameName(FirstKey(path), Name(nodes[kid].key)) && Rest(path) != "" && nodes[kid].value.List? {
        NothingThere(nodes, kid, Rest(path), route[1..]);
      }
    }
  }

  lemma {:induction false} KidGivesNothing(nodes: seq<Node>, n: nat, path: string, i: nat, j: nat)
    requires Tree(nodes) && n < |nodes| && Wellformed(path) && i <= j < |Kids(nodes[n])|
    requires SearchKids(nodes, n, FirstKey(path), Rest(path), path, i) == Missing
    ensures var kid := Kid(nodes, n, j); SameName(FirstKey(path), Name(nodes[kid].key)) ==>
      Rest(path) != "" && (nodes[kid].value.List? ==> Search(nodes, kid, Rest(path)) == Missing)
    decreases j - i
  {
    if i < j {
      KidGivesNothing(nodes, n, path, i + 1, j);
    }
  }

  /** search_attribute finds nothing exactly when no route ends anywhere; otherwise it comes to the end of the
      leftmost route, whether that is an attribute or a list without children. */
  lemma SearchExact(nodes: seq<Node>, n: nat, path: string)
    requires Tree(nodes) && n < |nodes| && nodes[n].value.List?
    ensures Search(nodes, n, path) == Missing <==> forall route :: End(nodes, n, path, route) == Missing
    ensures forall x: nat :: Search(nodes, n, path) == Hit(x) <==>
      exists route :: Leftmost(nodes, n, path, route) && End(nodes, n, path, route) == Hit(x)
    ensures Search(nodes, n, path) == Crash <==>
      exists route :: Leftmost(nodes, n, path, route) && End(nodes, n, path, route) == Crash
  {
    if Search(nodes, n, path) == Missing {
      forall route ensures End(nodes, n, path, route) == Missing {
        NothingThere(nodes, n, path, route);
      }
    } else {
      var route := SearchTakesLeftmost(nodes, n, path);
      forall other | Leftmost(nodes, n, path, other) ensures other == route {
        if other != route {
          LeftOfOneWay(route, other);
        }
      }
    }
  }

  lemma {:induction false} LeftOfOneWay(a: seq<nat>, b: seq<nat>)
    requires LeftOf(a, b)
    ensures !LeftOf(b, a)
  {
    if a[0] == b[0] {
      LeftOfOneWay(a[1..], b[1..]);
    }
  }

  /** Every list has a child. */
  predicate NoEmptyList(nodes: seq<Node>)
  {
    forall n :: 0 <= n < |nodes| && nodes[n].value.List? ==> nodes[n].value.kids != []
  }

  /** What a caller can check: without empty lists no search crashes. */
  lemma {:induction false} NoCrash(nodes: seq<Node>, n: nat, path: string)
    requires Tree(nodes) && n < |nodes| && nodes[n].value.List? && NoEmptyList(nodes)
    ensures Search(nodes, n, path) != Crash
  {
    if Search(nodes, n, path) == Crash {
      var route := SearchTakesLeftmost(nodes, n, path);
      NoCrashRoute(nodes, n, path, route);
    }
  }

  lemma {:induction false} NoCrashRoute(nodes: seq<Node>, n: nat, path: string, route: seq<nat>)
    requires Tree(nodes) && n < |nodes| && nodes[n].value.List? && NoEmptyList(nodes)
    ensures End(nodes, n, path, route) != Crash
    decreases |path|
  {
    if Absolute(path) {
      NoCrashRoute(nodes, 0, path[1..], route);
    } else if Wellformed(path) && route != [] && route[0] < |Kids(nodes[n])| {
      var kid := Kid(nodes, n, route[0]);
      if Rest(path) != "" && nodes[kid].value.List? {
        NoCrashRoute(nodes, kid, Rest(path), route[1..]);
      }
    }
  }

  // ----- Links and walks

  /** From `n` the traversal goes to `m`: along a link, or to a child that is no schema. */
  ghost predicate Edge(nodes: seq<Node>, links: seq<int>, n: nat, m: nat)
    requires n < |nodes| == |links|
  {
    && m < |nodes|
    && (if Link(nodes[n]) then links[n] == m
        else nodes[n].key != Schema && m in Kids(nodes[n]) && nodes[m].key != Schema)
  }

  ghost predicate Walk(nodes: seq<Node>, links: seq<int>, w: seq<nat>)
    requires |nodes| == |links|
  {
    && (forall i :: 0 <= i < |w| ==> w[i] < |nodes|)
    && (forall i :: 0 <= i < |w| - 1 ==> Edge(nodes, links, w[i], w[i + 1]))
  }

  /** Some walk from `n` comes back to a node it has been at. */
  ghost predicate Cyclic(nodes: seq<Node>, links: seq<int>, n: nat)
    requires |nodes| == |links|
  {
    exists w :: Walk(nodes, links, w) && |w| > 0 && w[0] == n && Repeats(w)
  }

  ghost predicate Repeats(w: seq<nat>)
  {
    exists i, j :: 0 <= i < j < |w| && w[i] == w[j]
  }

  /** Every walk from `n` has at most `d` nodes. */
  ghost predicate Bounded(nodes: seq<Node>, links: seq<int>, n: nat, d: nat)
    requires n < |nodes| == |links|
    decreases d
  {
    d > 0 && forall m: nat :: m < |nodes| && Edge(nodes, links, n, m) ==> Bounded(nodes, links, m, d - 1)
  }

  lemma {:induction false} BoundedMore(nodes: seq<Node>, links: seq<int>, n: nat, d: nat, e: nat)
    requires n < |nodes| == |links| && Bounded(nodes, links, n, d) && d <= e
    ensures Bounded(nodes, links, n, e)
    decreases d
  {
    forall m: nat | m < |nodes| && Edge(nodes, links, n, m) ensures Bounded(nodes, links, m, e - 1) {
      BoundedMore(nodes, links, m, d - 1, e - 1);
    }
  }

  /** Walks from the first `i` children of `n` are bounded. */
  ghost predicate KidsBounded(nodes: seq<Node>, links: seq<int>, n: nat, i: nat, d: nat)
    requires Tree(nodes) && n < |nodes| == |links| && i <= |Kids(nodes[n])|
  {
    forall j :: 0 <= j < i && nodes[Kid(nodes, n, j)].key != Schema ==> Bounded(nodes, links, Kid(nodes, n, j), d)
  }

  lemma KidsBoundedStep(nodes: seq<Node>, links: seq<int>, n: nat, i: nat, d: nat, dk: nat)
    requires Tree(nodes) && n < |nodes| == |links| && i < |Kids(nodes[n])| && KidsBounded(nodes, links, n, i, d)
    requires Bounded(nodes, links, Kid(nodes, n, i), dk)
    ensures KidsBounded(nodes, links, n, i + 1, if dk < d then d else dk)
  {
    var most := if dk < d then d else dk;
    forall j | 0 <= j < i + 1 && nodes[Kid(nodes, n, j)].key != Schema ensures Bounded(nodes, links, Kid(nodes, n, j), most) {
      BoundedMore(nodes, links, Kid(nodes, n, j), if j < i then d else dk, most);
    }
  }

  lemma KidsBoundedEnd(nodes: seq<Node>, links: seq<int>, n: nat, d: nat)
    requires Tree(nodes) && n < |nodes| == |links| && KidsBounded(nodes, links, n, |Kids(nodes[n])|, d) && !Link(nodes[n])
    ensures Bounded(nodes, links, n, d + 1)
  {
    forall m: nat | m < |nodes| && Edge(nodes, links, n, m) ensures Bounded(nodes, links, m, d) {
      var j :| 0 <= j < |Kids(nodes[n])| && Kids(nodes[n])[j] == m;
      assert Kid(nodes, n, j) == m;
    }
  }

  lemma {:induction false} BoundedWalk(nodes: seq<Node>, links: seq<int>, n: nat, d: nat, w: seq<nat>)
    requires n < |nodes| == |links| && Bounded(nodes, links, n, d) && Walk(nodes, links, w) && |w| > 0 && w[0] == n
    ensures |w| <= d
    decreases d
  {
    if |w| > 1 {
      assert Edge(nodes, links, w[0], w[1]);
      BoundedWalk(nodes, links, w[1], d - 1, w[1..]);
    }
  }

  /** A walk that repeats a node can be made as long as one likes. */
  lemma {:induction false} Pump(nodes: seq<Node>, links: seq<int>, w: seq<nat>, i: nat, j: nat, len: nat) returns (w': seq<nat>)
    requires |nodes| == |links| && Walk(nodes, links, w) && i < j == |w| - 1 && w[i] == w[j]
    ensures Walk(nodes, links, w') && |w'| > len && w'[0] == w[0]
    decreases if len < |w| then 0 else len - |w| + 1
  {
    if len < |w| {
      w' := w;
    } else {
      var loop := w[i + 1..];
      var longer := w + loop;
      forall k | 0 <= k < |longer| - 1 ensures Edge(nodes, links, longer[k], longer[k + 1]) {
        if k == j {
          assert Edge(nodes, links, w[i], w[i + 1]);
        } else if k > j {
          assert Edge(nodes, links, w[k - j + i], w[k - j + i + 1]);
        }
      }
      assert longer[|longer| - 1] == w[j] && longer[j] == w[j];
      w' := Pump(nodes, links, longer, j, |longer| - 1, len);
    }
  }

  /** Walks are bounded or some walk repeats, never both. */
  lemma BoundedIsAcyclic(nodes: seq<Node>, links: seq<int>, n: nat, d: nat)
    requires n < |nodes| == |links| && Bounded(nodes, links, n, d)
    ensures !Cyclic(nodes, links, n)
  {
    if Cyclic(nodes, links, n) {
      var w :| Walk(nodes, links, w) && |w| > 0 && w[0] == n && Repeats(w);
      var i, j := FindRepeat(w);
      var w' := Pump(nodes, links, w[..j + 1], i, j, d);
      BoundedWalk(nodes, links, n, d, w');
    }
  }

  lemma FindRepeat(w: seq<nat>) returns (i: nat, j: nat)
    requires Repeats(w)
    ensures i < j < |w| && w[i] == w[j]
  {
    i :| i < |w| && exists j :: i < j < |w| && w[i] == w[j];
    j :| i < j < |w| && w[i] == w[j];
  }

  // ----- What expansion promises

  /** What the search for the target of a link comes to. */
  function Target(nodes: seq<Node>, n: nat): Sought
    requires Tree(nodes) && n < |nodes| && Link(nodes[n]) && nodes[n].value.Text?
  {
    LinkHasParent(nodes, n);
    Search(nodes, Parent(nodes, n), nodes[n].value.text)
  }

  lemma LinkHasParent(nodes: seq<Node>, n: nat)
    requires Tree(nodes) && n < |nodes| && Link(nodes[n])
    ensures n > 0
  {
  }

  /** The errors of expansion: a link that is a list, that leads nowhere, or that extends a string. */
  predicate Broken(nodes: seq<Node>, n: nat)
    requires Tree(nodes) && n < |nodes|
  {
    Link(nodes[n]) && (nodes[n].value.Text? ==>
      var t := Target(nodes, n); t == Missing || (t.Hit? && nodes[n].key == Extends && !nodes[t.node].value.List?))
  }

  /** The search for the target of the link runs into an empty list. */
  predicate Crashes(nodes: seq<Node>, n: nat)
    requires Tree(nodes) && n < |nodes|
  {
    Link(nodes[n]) && nodes[n].value.Text? && Target(nodes, n) == Crash
  }

  predicate Sane(nodes: seq<Node>, n: nat)
    requires Tree(nodes) && n < |nodes|
  {
    !Broken(nodes, n) && !Crashes(nodes, n)
  }

  /** Where an expanded node points: a link to its target, any other node to itself. */
  function Pointer(nodes: seq<Node>, n: nat): (r: nat)
    requires Tree(nodes) && n < |nodes| && Sane(nodes, n)
    ensures r < |nodes|
  {
    if Link(nodes[n]) then Target(nodes, n).node else n
  }

  ghost predicate Expanded(nodes: seq<Node>, links: seq<int>, n: nat)
    requires Tree(nodes) && n < |nodes| == |links|
  {
    Sane(nodes, n) && links[n] == Pointer(nodes, n)
  }

  /** All nodes outside of schemas are expanded. */
  ghost predicate AllExpanded(nodes: seq<Node>, links: seq<int>)
  {
    Tree(nodes) && |nodes| == |links| && forall n: nat :: n < |nodes| && Live(nodes, n) ==> Expanded(nodes, links, n)
  }

  /** A link that is not broken leads to a named attribute outside of all schemas. */
  lemma LinkFacts(nodes: seq<Node>, links: seq<int>, n: nat)
    requires AllExpanded(nodes, links) && n < |nodes| && Live(nodes, n) && Link(nodes[n])
    ensures Named(nodes, links[n]) && (nodes[n].key == Extends ==> nodes[links[n]].value.List?)
  {
    LinkHasParent(nodes, n);
    assert Expanded(nodes, links, n);
    SearchNamed(nodes, Parent(nodes, n), nodes[n].value.text);
  }

  /** `x` is `n` or below it, with no schema from `n` on above it. */
  ghost predicate Under(nodes: seq<Node>, n: nat, x: nat)
    requires Tree(nodes) && n < |nodes| && x < |nodes|
    decreases x
  {
    x == n || (x > 0 && nodes[Parent(nodes, x)].key != Schema && Under(nodes, n, Parent(nodes, x)))
  }

  lemma {:induction false} UnderKid(nodes: seq<Node>, n: nat, x: nat) returns (i: nat)
    requires Tree(nodes) && n < |nodes| && x < |nodes| && Under(nodes, n, x) && x != n
    ensures nodes[n].key != Schema && i < |Kids(nodes[n])| && Under(nodes, Kid(nodes, n, i), x)
    decreases x
  {
    if Parent(nodes, x) == n {
      i := ChildOfParent(nodes, x);
    } else {
      i := UnderKid(nodes, n, Parent(nodes, x));
    }
  }

  lemma {:induction false} KidUnder(nodes: seq<Node>, n: nat, i: nat, x: nat)
    requires Tree(nodes) && n < |nodes| && i < |Kids(nodes[n])| && nodes[n].key != Schema
    requires x < |nodes| && Under(nodes, Kid(nodes, n, i), x)
    ensures Under(nodes, n, x)
    decreases x
  {
    var kid := Kid(nodes, n, i);
    assert Parent(nodes, kid) == n;
    if x != kid {
      KidUnder(nodes, n, i, Parent(nodes, x));
    }
  }

  lemma {:induction false} LiveIsUnderRoot(nodes: seq<Node>, x: nat)
    requires Tree(nodes) && x < |nodes|
    ensures Live(nodes, x) <==> Under(nodes, 0, x)
    decreases x
  {
    if x > 0 {
      LiveIsUnderRoot(nodes, Parent(nodes, x));
    }
  }

  // ----- The first link that is not sane decides

  datatype Status = Fine | Refused | Crashed

  /** The attributes under `n` in document order. */
  ghost function InOrder(nodes: seq<Node>, n: nat): seq<nat>
    requires Tree(nodes) && n < |nodes|
    decreases |nodes| - n, 1, 0
  {
    [n] + if nodes[n].key == Schema then [] else KidsInOrder(nodes, n, 0)
  }

  ghost function KidsInOrder(nodes: seq<Node>, n: nat, i: nat): seq<nat>
    requires Tree(nodes) && n < |nodes| && i <= |Kids(nodes[n])|
    decreases |nodes| - n, 0, |Kids(nodes[n])| - i
  {
    if i == |Kids(nodes[n])| then [] else InOrder(nodes, Kid(nodes, n, i)) + KidsInOrder(nodes, n, i + 1)
  }

  /** The document order lists exactly what is under the node. */
  lemma {:induction false} InOrderIsUnder(nodes: seq<Node>, n: nat, x: nat)
    requires Tree(nodes) && n < |nodes|
    ensures x in InOrder(nodes, n) <==> x < |nodes| && Under(nodes, n, x)
    decreases |nodes| - n, 1, 0
  {
    if nodes[n].key != Schema {
      KidsInOrderAreUnder(nodes, n, 0, x);
      if x < |nodes| && Under(nodes, n, x) && x != n {
        var j := UnderKid(nodes, n, x);
        OneKidUnder(nodes, n, 0, x, j);
      }
      if UnderKids(nodes, n, 0, x) {
        var j := UnderOneKid(nodes, n, 0, x);
        KidUnder(nodes, n, j, x);
      }
    } else if x < |nodes| && Under(nodes, n, x) && x != n {
      var j := UnderKid(nodes, n, x);
    }
  }

  lemma {:induction false} KidsInOrderAreUnder(nodes: seq<Node>, n: nat, i: nat, x: nat)
    requires Tree(nodes) && n < |nodes| && i <= |Kids(nodes[n])|
    ensures x in KidsInOrder(nodes, n, i) <==> UnderKids(nodes, n, i, x)
    decreases |nodes| - n, 0, |Kids(nodes[n])| - i
  {
    if i == |Kids(nodes[n])| {
      assert KidsInOrder(nodes, n, i) == [];
    } else {
      InOrderIsUnder(nodes, Kid(nodes, n, i), x);
      KidsInOrderAreUnder(nodes, n, i + 1, x);
      KidsInOrderStep(nodes, n, i, x);
    }
  }

  lemma KidsInOrderStep(nodes: seq<Node>, n: nat, i: nat, x: nat)
    requires Tree(nodes) && n < |nodes| && i < |Kids(nodes[n])|
    requires x in InOrder(nodes, Kid(nodes, n, i)) <==> x < |nodes| && Under(nodes, Kid(nodes, n, i), x)
    requires x in KidsInOrder(nodes, n, i + 1) <==> UnderKids(nodes, n, i + 1, x)
    ensures x in KidsInOrder(nodes, n, i) <==> UnderKids(nodes, n, i, x)
  {
    KidsInOrderSplit(nodes, n, i, x);
  }

  lemma KidsInOrderSplit(nodes: seq<Node>, n: nat, i: nat, x: nat)
    requires Tree(nodes) && n < |nodes| && i < |Kids(nodes[n])|
    ensures x in KidsInOrder(nodes, n, i) <==> x in InOrder(nodes, Kid(nodes, n, i)) || x in KidsInOrder(nodes, n, i + 1)
  {
    var a, b := InOrder(nodes, Kid(nodes, n, i)), KidsInOrder(nodes, n, i + 1);
    assert KidsInOrder(nodes, n, i) == a + b;
  }

  /** `x` is under a child of `n` from `i` on. */
  ghost predicate UnderKids(nodes: seq<Node>, n: nat, i: nat, x: nat)
    requires Tree(nodes) && n < |nodes| && i <= |Kids(nodes[n])|
    decreases |Kids(nodes[n])| - i
  {
    x < |nodes| && i < |Kids(nodes[n])| && (Under(nodes, Kid(nodes, n, i), x) || UnderKids(nodes, n, i + 1, x))
  }

  lemma {:induction false} UnderOneKid(nodes: seq<Node>, n: nat, i: nat, x: nat) returns (j: nat)
    requires Tree(nodes) && n < |nodes| && i <= |Kids(nodes[n])| && UnderKids(nodes, n, i, x)
    ensures j < |Kids(nodes[n])| && Under(nodes, Kid(nodes, n, j), x)
    decreases |Kids(nodes[n])| - i
  {
    if Under(nodes, Kid(nodes, n, i), x) {
      j := i;
    } else {
      j := UnderOneKid(nodes, n, i + 1, x);
    }
  }

  lemma {:induction false} OneKidUnder(nodes: seq<Node>, n: nat, i: nat, x: nat, j: nat)
    requires Tree(nodes) && n < |nodes| && i <= j < |Kids(nodes[n])| && x < |nodes| && Under(nodes, Kid(nodes, n, j), x)
    ensures UnderKids(nodes, n, i, x)
    decreases j - i
  {
    if i < j {
      OneKidUnder(nodes, n, i + 1, x, j);
    }
  }

  /** The first attribute of the list that is not sane decides. */
  ghost function Verdict(nodes: seq<Node>, order: seq<nat>): Status
    requires Tree(nodes)
  {
    if order == [] then Fine
    else if order[0] >= |nodes| || Sane(nodes, order[0]) then Verdict(nodes, order[1..])
    else if Broken(nodes, order[0]) then Refused
    else Crashed
  }

  lemma {:induction false} VerdictOfSum(nodes: seq<Node>, a: seq<nat>, b: seq<nat>)
    requires Tree(nodes)
    ensures Verdict(nodes, a + b) == if Verdict(nodes, a) == Fine then Verdict(nodes, b) else Verdict(nodes, a)
  {
    if a == [] {
      assert a + b == b;
    } else {
      assert (a + b)[1..] == a[1..] + b;
      VerdictOfSum(nodes, a[1..], b);
    }
  }

  lemma {:induction false} FineMeansSane(nodes: seq<Node>, order: seq<nat>)
    requires Tree(nodes)
    ensures Verdict(nodes, order) == Fine <==> forall x <- order :: x < |nodes| ==> Sane(nodes, x)
  {
    if order != [] {
      FineMeansSane(nodes, order[1..]);
      assert forall x :: x in order <==> x == order[0] || x in order[1..];
    }
  }

  /** Attribute `k` of the list is the first that is not sane. */
  ghost predicate FirstInsane(nodes: seq<Node>, order: seq<nat>, k: nat)
    requires Tree(nodes)
  {
    && k < |order| && order[k] < |nodes| && !Sane(nodes, order[k])
    && forall j :: 0 <= j < k ==> order[j] < |nodes| ==> Sane(nodes, order[j])
  }

  /** What a verdict says: fine means that all are sane; otherwise the first that is not sane is a broken link, or
      one whose search crashes. */
  lemma {:induction false} VerdictExact(nodes: seq<Node>, order: seq<nat>)
    requires Tree(nodes)
    ensures Verdict(nodes, order) == Fine <==> forall x <- order :: x < |nodes| ==> Sane(nodes, x)
    ensures Verdict(nodes, order) == Refused <==> exists k: nat :: FirstInsane(nodes, order, k) && Broken(nodes, order[k])
    ensures Verdict(nodes, order) == Crashed <==> exists k: nat :: FirstInsane(nodes, order, k) && Crashes(nodes, order[k])
  {
    FineMeansSane(nodes, order);
    if Verdict(nodes, order) != Fine {
      var k := FirstOne(nodes, order);
      forall j: nat | FirstInsane(nodes, order, j) ensures j == k {
      }
    } else {
      forall k: nat | k < |order| && order[k] < |nodes| ensures Sane(nodes, order[k]) {
        assert order[k] in order;
      }
    }
  }

  lemma {:induction false} FirstOne(nodes: seq<Node>, order: seq<nat>) returns (k: nat)
    requires Tree(nodes) && Verdict(nodes, order) != Fine
    ensures FirstInsane(nodes, order, k)
    ensures Verdict(nodes, order) == if Broken(nodes, order[k]) then Refused else Crashed
  {
    if order[0] < |nodes| && !Sane(nodes, order[0]) {
      k := 0;
    } else {
      var rest := FirstOne(nodes, order[1..]);
      k := rest + 1;
      assert order[k] == order[1..][rest];
      forall j | 0 <= j < k && order[j] < |nodes| ensures Sane(nodes, order[j]) {
        if j > 0 {
          assert order[1..][j - 1] == order[j];
        }
      }
    }
  }

  /** What a caller can check before loading: if every list has a child, nothing crashes. */
  lemma NoEmptyListNoCrash(nodes: seq<Node>, order: seq<nat>)
    requires Tree(nodes) && NoEmptyList(nodes)
    ensures Verdict(nodes, order) != Crashed
  {
    VerdictExact(nodes, order);
    forall x: nat | x < |nodes| ensures !Crashes(nodes, x) {
      if Link(nodes[x]) && nodes[x].value.Text? {
        LinkHasParent(nodes, x);
        NoCrash(nodes, Parent(nodes, x), nodes[x].value.text);
      }
    }
  }

  /** The configuration `a [ ] x [ _extends .a.b ]`. */
  ghost function EmptyListExample(): (nodes: seq<Node>)
    ensures Tree(nodes)
  {
    var nodes := [Node(Root, List([1, 2]), -1), Node(Ident("a"), List([]), 0),
                  Node(Ident("x"), List([3]), 0), Node(Extends, Text(".a.b"), 2)];
    assert Placed(nodes, 1) && Placed(nodes, 2) && Placed(nodes, 3);
    assert KidPlaced(nodes, 0, 0) && KidPlaced(nodes, 0, 1) && KidPlaced(nodes, 2, 0);
    nodes
  }

  lemma ExamplePaths()
    ensures KeyLength("a.b") == 1 && FirstKey("a.b") == "a" && Rest("a.b") == "b" && Wellformed("a.b")
    ensures KeyLength("b") == 1 && FirstKey("b") == "b" && Rest("b") == "" && Wellformed("b")
    ensures ".a.b"[1..] == "a.b"
  {
    assert "a.b"[1] == '.';
  }

  lemma ExampleSearch()
    ensures var nodes := EmptyListExample(); nodes[2].value.List? && Search(nodes, 2, ".a.b") == Crash
  {
    var nodes := EmptyListExample();
    ExamplePaths();
    assert Search(nodes, 1, "b") == Crash;
    assert Kid(nodes, 0, 0) == 1 && SameName("a", Name(nodes[1].key));
    assert SearchKids(nodes, 0, "a", "b", "a.b", 0) == Crash;
    assert Search(nodes, 0, "a.b") == Crash;
  }

  /** A crash outside of schemas is what happens if no link is broken. */
  lemma OnlyCrashes(nodes: seq<Node>, x: nat)
    requires Tree(nodes) && x < |nodes| && Live(nodes, x) && Crashes(nodes, x) && forall y: nat :: y < |nodes| ==> !Broken(nodes, y)
    ensures Verdict(nodes, InOrder(nodes, 0)) == Crashed
  {
    LiveIsUnderRoot(nodes, x);
    InOrderIsUnder(nodes, 0, x);
    VerdictExact(nodes, InOrder(nodes, 0));
  }

  /** It crashes: the search for the link enters the list `a` with a key left. */
  lemma EmptyListCrashes()
    ensures Verdict(EmptyListExample(), InOrder(EmptyListExample(), 0)) == Crashed
  {
    var nodes := EmptyListExample();
    ExampleSearch();
    assert Parent(nodes, 3) == 2 && Parent(nodes, 2) == 0;
    assert Live(nodes, 2) && Live(nodes, 3);
    assert Crashes(nodes, 3);
    forall y: nat | y < |nodes| ensures !Broken(nodes, y) {
      assert y != 3 ==> !Link(nodes[y]);
    }
    OnlyCrashes(nodes, 3);
  }

  /** Everything under `n` is expanded. */
  ghost predicate CoveredIn(nodes: seq<Node>, links: seq<int>, n: nat)
    requires Tree(nodes) && n < |nodes| == |links|
  {
    forall y: nat :: y < |nodes| && Under(nodes, n, y) ==> links[y] != -1
  }

  /** Nothing that was expanded is lost. */
  ghost predicate Grown(links: seq<int>, links': seq<int>)
  {
    |links| == |links'| && forall x :: 0 <= x < |links| && links[x] != -1 ==> links'[x] != -1
  }

  lemma GrownTwice(a: seq<int>, b: seq<int>, c: seq<int>)
    requires Grown(a, b) && Grown(b, c)
    ensures Grown(a, c)
  {
  }

  /** The first `i` children of `n` are expanded, with everything under them. */
  ghost predicate KidsCovered(nodes: seq<Node>, links: seq<int>, n: nat, i: nat)
    requires Tree(nodes) && n < |nodes| == |links| && i <= |Kids(nodes[n])|
  {
    forall j :: 0 <= j < i ==> CoveredIn(nodes, links, Kid(nodes, n, j))
  }

  lemma KidsCoveredStep(nodes: seq<Node>, links: seq<int>, links': seq<int>, n: nat, i: nat)
    requires Tree(nodes) && n < |nodes| == |links| && i < |Kids(nodes[n])| && KidsCovered(nodes, links, n, i)
    requires Grown(links, links') && CoveredIn(nodes, links', Kid(nodes, n, i))
    ensures KidsCovered(nodes, links', n, i + 1)
  {
    forall j | 0 <= j < i + 1 ensures CoveredIn(nodes, links', Kid(nodes, n, j)) {
      if j < i {
        assert CoveredIn(nodes, links, Kid(nodes, n, j));
      }
    }
  }

  class AttrTree {
    const nodes: seq<Node>
    const attr_expand: array<int>
    const expanding: array<bool>

    constructor (nodes: seq<Node>)
      ensures this.nodes == nodes && fresh(attr_expand) && fresh(expanding)
      ensures attr_expand.Length == expanding.Length == |nodes|
      ensures forall n :: 0 <= n < |nodes| ==> attr_expand[n] == -1 && !expanding[n]
    {
      this.nodes := nodes;
      attr_expand := new int[|nodes|](_ => -1);
      expanding := new bool[|nodes|](_ => false);
    }

    ghost predicate Shape()
    {
      Tree(nodes) && attr_expand.Length == expanding.Length == |nodes|
    }

    // ----- expand

    /** What is expanded so far is right, and below an expanded node everything is expanded. */
    ghost predicate Settled(x: nat)
      requires Shape() && x < |nodes|
      reads attr_expand
    {
      attr_expand[x] != -1 ==> Expanded(nodes, attr_expand[..], x) && forall y: nat :: y < |nodes| && Under(nodes, x, y) ==> attr_expand[y] != -1
    }

    ghost predicate AllSettled()
      requires Shape()
      reads attr_expand
    {
      forall x: nat :: x < |nodes| ==> Settled(x)
    }

    ghost predicate Covered(n: nat)
      requires Shape() && n < |nodes|
      reads attr_expand
    {
      CoveredIn(nodes, attr_expand[..], n)
    }

    /** Set the link of `n`, everything below it being expanded. */
    method SetLink(n: nat, target: int)
      requires Shape() && AllSettled() && n < |nodes| && Sane(nodes, n) && attr_expand[n] == -1 && target == Pointer(nodes, n)
      requires forall y: nat :: y < |nodes| && Under(nodes, n, y) && y != n ==> attr_expand[y] != -1
      modifies attr_expand
      ensures AllSettled() && attr_expand[..] == old(attr_expand[..])[n := target] && Covered(n)
    {
      attr_expand[n] := target;
      assert attr_expand[..] == old(attr_expand[..])[n := target];
      forall x: nat | x < |nodes| ensures Settled(x) {
        assert old(Settled(x));
        assert x != n && attr_expand[x] != -1 ==> Expanded(nodes, old(attr_expand[..]), x);
      }
    }

    /** expand: the first attribute under `n`, in document order, that is no sane link decides how it ends; if there
        is none, everything under `n` is expanded. */
    method Expand(n: nat) returns (status: Status)
      requires Shape() && AllSettled() && n < |nodes|
      modifies attr_expand
      ensures AllSettled() && Grown(old(attr_expand[..]), attr_expand[..])
      ensures status == Verdict(nodes, InOrder(nodes, n))
      ensures status == Fine ==> Covered(n)
      decreases |nodes| - n, 1
    {
      if attr_expand[n] != -1 {
        ExpandedIsFine(n);
        return Fine;
      }
      if nodes[n].value.List? {
        if Link(nodes[n]) { return Refused; }
        if nodes[n].key != Schema {
          status := ExpandKids(n);
          if status != Fine { return; }
        }
        forall y: nat | y < |nodes| && Under(nodes, n, y) && y != n ensures attr_expand[y] != -1 {
          var i := UnderKid(nodes, n, y);
          assert CoveredIn(nodes, attr_expand[..], Kid(nodes, n, i));
        }
        if attr_expand[n] == -1 { SetLink(n, n); }
        return Fine;
      }
      status := ExpandText(n);
    }

    /** What is expanded has nothing but sane links under it. */
    lemma ExpandedIsFine(n: nat)
      requires Shape() && AllSettled() && n < |nodes| && attr_expand[n] != -1
      ensures Verdict(nodes, InOrder(nodes, n)) == Fine && Covered(n)
    {
      assert Settled(n);
      forall x <- InOrder(nodes, n) ensures x < |nodes| && Sane(nodes, x) {
        InOrderIsUnder(nodes, n, x);
        assert Settled(x);
      }
      FineMeansSane(nodes, InOrder(nodes, n));
    }

    /** A string: a link is looked up, anything else points to itself. */
    method ExpandText(n: nat) returns (status: Status)
      requires Shape() && AllSettled() && n < |nodes| && nodes[n].value.Text? && attr_expand[n] == -1
      modifies attr_expand
      ensures AllSettled() && Grown(old(attr_expand[..]), attr_expand[..])
      ensures status == Verdict(nodes, InOrder(nodes, n))
      ensures status == Fine ==> Covered(n)
    {
      OnlyItself(n);
      assert InOrder(nodes, n) == [n];
      if Link(nodes[n]) {
        LinkHasParent(nodes, n);
        var found := Search(nodes, Parent(nodes, n), nodes[n].value.text);
        if found == Crash { return Crashed; }
        if found == Missing { return Refused; }
        if nodes[n].key == Extends && !nodes[found.node].value.List? { return Refused; }
        SetLink(n, found.node);
      } else {
        SetLink(n, n);
      }
      return Fine;
    }

    /** Nothing is below a string. */
    lemma OnlyItself(n: nat)
      requires Shape() && n < |nodes| && nodes[n].value.Text?
      ensures forall y: nat :: y < |nodes| && Under(nodes, n, y) ==> y == n
    {
      forall y: nat | y < |nodes| && Under(nodes, n, y) ensures y == n {
        if y != n {
          var i := UnderKid(nodes, n, y);
        }
      }
    }

    method ExpandKids(n: nat) returns (status: Status)
      requires Shape() && AllSettled() && n < |nodes| && nodes[n].key != Schema && !Link(nodes[n])
      modifies attr_expand
      ensures AllSettled() && Grown(old(attr_expand[..]), attr_expand[..])
      ensures status == Verdict(nodes, KidsInOrder(nodes, n, 0))
      ensures status == Fine ==> KidsCovered(nodes, attr_expand[..], n, |Kids(nodes[n])|)
      decreases |nodes| - n, 0
    {
      for i := 0 to |Kids(nodes[n])|
        invariant AllSettled() && Grown(old(attr_expand[..]), attr_expand[..])
        invariant KidsCovered(nodes, attr_expand[..], n, i)
        invariant Verdict(nodes, KidsInOrder(nodes, n, 0)) == Verdict(nodes, KidsInOrder(nodes, n, i))
      {
        var kid := Kid(nodes, n, i);
        ghost var before := attr_expand[..];
        status := Expand(kid);
        GrownTwice(old(attr_expand[..]), before, attr_expand[..]);
        VerdictOfSum(nodes, InOrder(nodes, kid), KidsInOrder(nodes, n, i + 1));
        if status != Fine { return; }
        KidsCoveredStep(nodes, before, attr_expand[..], n, i);
      }
      return Fine;
    }

    /** Expanding a fresh tree from its root: the first attribute outside of schemas that is no sane link decides;
        if there is none, everything outside of schemas is expanded. */
    method ExpandRoot() returns (status: Status)
      requires Shape() && forall n :: 0 <= n < |nodes| ==> attr_expand[n] == -1
      modifies attr_expand
      ensures status == Verdict(nodes, InOrder(nodes, 0))
      ensures status == Fine <==> forall x: nat :: x < |nodes| && Live(nodes, x) ==> Sane(nodes, x)
      ensures status == Fine ==> AllExpanded(nodes, attr_expand[..])
    {
      forall x: nat | x < |nodes| ensures Live(nodes, x) <==> x in InOrder(nodes, 0) {
        LiveIsUnderRoot(nodes, x);
        InOrderIsUnder(nodes, 0, x);
      }
      FineMeansSane(nodes, InOrder(nodes, 0));
      status := Expand(0);
      if status == Fine {
        forall x: nat | x < |nodes| && Live(nodes, x) ensures Expanded(nodes, attr_expand[..], x) {
          InOrderIsUnder(nodes, 0, x);
          assert Settled(x) && attr_expand[..][x] != -1;
        }
      }
    }

    // ----- traverse_recursion

    /** Exactly the nodes on the stack are flagged. The flags of links are never taken back, but no link leads
        to a link, so nobody looks at them. */
    ghost predicate Flags(stack: seq<nat>)
      requires Shape()
      reads expanding
    {
      forall x: nat :: x < |nodes| && !Link(nodes[x]) ==> (expanding[x] <==> x in stack)
    }

    /** The stack is a walk that ends before `n`, and the targets of the links in it are all different. */
    ghost predicate Stack(stack: seq<nat>, n: nat, jumped: set<nat>)
      requires Shape()
      reads attr_expand
    {
      Walk(nodes, attr_expand[..], stack + [n]) && (forall x <- jumped :: x in stack + [n]) && forall x <- jumped :: x < |nodes|
    }

    lemma StackPush(stack: seq<nat>, n: nat, jumped: set<nat>, m: nat)
      requires Shape() && Stack(stack, n, jumped) && n < |nodes| && Edge(nodes, attr_expand[..], n, m)
      ensures Stack(stack + [n], m, jumped) && Stack(stack + [n], m, jumped + {m})
    {
      var w := stack + [n] + [m];
      forall i | 0 <= i < |w| - 1 ensures Edge(nodes, attr_expand[..], w[i], w[i + 1]) {
        if i < |stack| {
          assert w[i] == (stack + [n])[i] && w[i + 1] == (stack + [n])[i + 1];
        }
      }
      assert forall i :: 0 <= i < |stack| + 1 ==> w[i] == (stack + [n])[i];
    }

    /** A link back to a node on the stack closes a cycle. */
    lemma ClosesCycle(stack: seq<nat>, n: nat, jumped: set<nat>, t: nat)
      requires Shape() && Stack(stack, n, jumped) && n < |nodes| && Edge(nodes, attr_expand[..], n, t) && t in stack
      ensures Cyclic(nodes, attr_expand[..], (stack + [n])[0])
    {
      StackPush(stack, n, jumped, t);
      var w := stack + [n] + [t];
      var i :| 0 <= i < |stack| && stack[i] == t;
      assert w[i] == w[|w| - 1];
    }

    /** A node from which all walks are bounded is not on the stack below itself. */
    lemma NotOnStack(stack: seq<nat>, n: nat, jumped: set<nat>, d: nat)
      requires Shape() && Stack(stack, n, jumped) && n < |nodes| && Bounded(nodes, attr_expand[..], n, d)
      ensures n !in stack
    {
      BoundedIsAcyclic(nodes, attr_expand[..], n, d);
      if n in stack {
        var i :| 0 <= i < |stack| && stack[i] == n;
        var w := (stack + [n])[i..];
        assert w[0] == w[|w| - 1];
        assert Walk(nodes, attr_expand[..], w) && Repeats(w);
      }
    }

    /** traverse_recursion: reports an error only if some walk is cyclic; otherwise all walks from `n` are
        bounded, and the flags are as before. The recursion ends because a link is only followed to a node that
        is not on the stack, and between two links it only goes down the tree. */
    method Traverse(n: nat, ghost stack: seq<nat>, ghost jumped: set<nat>) returns (err: bool, ghost d: nat)
      requires Shape() && AllExpanded(nodes, attr_expand[..]) && n < |nodes| && Live(nodes, n)
      requires Stack(stack, n, jumped) && Flags(stack)
      modifies expanding
      ensures err ==> Cyclic(nodes, attr_expand[..], (stack + [n])[0])
      ensures !err ==> Bounded(nodes, attr_expand[..], n, d) && Flags(stack)
      decreases |nodes| - |jumped|, |nodes| - n, 1
    {
      expanding[n] := true;
      d := 1;
      if Link(nodes[n]) {
        LinkFacts(nodes, attr_expand[..], n);
        var t := attr_expand[n];
        if expanding[t] {
          ClosesCycle(stack, n, jumped, t);
          return true, d;
        }
        StackPush(stack, n, jumped, t);
        Finite.AtMost(|nodes|, jumped + {t});
        err, d := Traverse(t, stack + [n], jumped + {t});
        d := d + 1;
      } else {
        if nodes[n].key != Schema && nodes[n].value.List? {
          err, d := TraverseKids(n, stack, jumped);
          if err { return; }
        } else {
          assert forall m: nat :: m < |nodes| ==> !Edge(nodes, attr_expand[..], n, m);
        }
        NotOnStack(stack, n, jumped, d);
        expanding[n] := false;
        err := false;
      }
    }

    method TraverseKids(n: nat, ghost stack: seq<nat>, ghost jumped: set<nat>) returns (err: bool, ghost d: nat)
      requires Shape() && AllExpanded(nodes, attr_expand[..]) && n < |nodes| && Live(nodes, n)
      requires Stack(stack, n, jumped) && Flags(stack + [n]) && !Link(nodes[n]) && nodes[n].key != Schema && nodes[n].value.List?
      modifies expanding
      ensures err ==> Cyclic(nodes, attr_expand[..], (stack + [n])[0])
      ensures !err ==> Bounded(nodes, attr_expand[..], n, d) && Flags(stack + [n])
      decreases |nodes| - |jumped|, |nodes| - n, 0
    {
      d := 0;
      for i := 0 to |Kids(nodes[n])|
        invariant Flags(stack + [n]) && KidsBounded(nodes, attr_expand[..], n, i, d)
      {
        var kid := Kid(nodes, n, i);
        if nodes[kid].key != Schema {
          StackPush(stack, n, jumped, kid);
          ghost var dk;
          err, dk := Traverse(kid, stack + [n], jumped);
          if err { return; }
          KidsBoundedStep(nodes, attr_expand[..], n, i, d, dk);
          d := if dk < d then d else dk;
        }
      }
      KidsBoundedEnd(nodes, attr_expand[..], n, d);
      err, d := false, d + 1;
    }

    /**
     The check that accepts a configuration: it always ends, and it reports an error exactly when the nodes
     outside of schemas, with their children and links, contain a cycle. Without one, walks are bounded.
     */
    method TraverseRoot() returns (err: bool, ghost d: nat)
      requires Shape() && AllExpanded(nodes, attr_expand[..]) && forall n :: 0 <= n < |nodes| ==> !expanding[n]
      modifies expanding
      ensures err <==> Cyclic(nodes, attr_expand[..], 0)
      ensures !err ==> Bounded(nodes, attr_expand[..], 0, d)
    {
      err, d := Traverse(0, [], {});
      if !err {
        BoundedIsAcyclic(nodes, attr_expand[..], 0, d);
      }
    }
  }

  // ----- find_attributes

  /** A configuration: `links` are the expanded links, `glob` is the wildcard comparison, and `rank` bounds the
      walks from every list that a search can get to; it is 0 elsewhere. */
  datatype Config = Config(nodes: seq<Node>, links: seq<int>, glob: (string, string) -> bool, rank: seq<nat>)

  ghost predicate At(c: Config, n: nat)
  {
    n < |c.nodes| == |c.links| == |c.rank| && c.nodes[n].value.List? && c.rank[n] > 0
  }

  /** Where a search goes from `n` by its child `i`, the rank is smaller. */
  ghost predicate Descends(c: Config, n: nat, i: nat)
    requires At(c, n) && i < |Kids(c.nodes[n])|
  {
    var kid := Kids(c.nodes[n])[i];
    && kid < |c.nodes|
    && (c.nodes[kid].key.Ident? && c.nodes[kid].value.List? ==> 0 < c.rank[kid] < c.rank[n])
    && (c.nodes[kid].key == Extends ==> c.links[kid] >= 0 && At(c, c.links[kid]) && c.rank[c.links[kid]] < c.rank[n])
    && (c.nodes[kid].key == Find ==> 0 <= c.links[kid] < |c.nodes|)
  }

  ghost predicate Accepts(c: Config)
  {
    At(c, 0) && forall n: nat, i: nat :: At(c, n) && i < |Kids(c.nodes[n])| ==> Descends(c, n, i)
  }

  type Accepted = c: Config | Accepts(c)
    ghost witness Config([Node(Root, List([]), -1)], [0], (a, b) => false, [1])

  /** The least bound of the walks from `n`. */
  ghost function Least(nodes: seq<Node>, links: seq<int>, n: nat, d: nat): (r: nat)
    requires n < |nodes| == |links| && Bounded(nodes, links, n, d)
    ensures 0 < r <= d && Bounded(nodes, links, n, r) && !Bounded(nodes, links, n, r - 1)
  {
    if Bounded(nodes, links, n, d - 1) then Least(nodes, links, n, d - 1) else d
  }

  ghost function Rank(nodes: seq<Node>, links: seq<int>, n: nat): nat
    requires Tree(nodes) && n < |nodes| == |links|
  {
    if Live(nodes, n) && nodes[n].key != Schema && !Link(nodes[n]) && exists d :: Bounded(nodes, links, n, d) then
      var d :| Bounded(nodes, links, n, d); Least(nodes, links, n, d)
    else 0
  }

  ghost function Ranks(nodes: seq<Node>, links: seq<int>): (r: seq<nat>)
    requires Tree(nodes) && |nodes| == |links|
    ensures |r| == |nodes| && forall n :: 0 <= n < |nodes| ==> r[n] == Rank(nodes, links, n)
  {
    seq(|nodes|, n requires 0 <= n < |nodes| => Rank(nodes, links, n))
  }

  lemma RankAtMost(nodes: seq<Node>, links: seq<int>, n: nat, d: nat)
    requires Tree(nodes) && n < |nodes| == |links| && Bounded(nodes, links, n, d)
    requires Live(nodes, n) && nodes[n].key != Schema && !Link(nodes[n])
    ensures 0 < Rank(nodes, links, n) <= d
  {
    var r := Rank(nodes, links, n);
    if d < r {
      BoundedMore(nodes, links, n, d, r - 1);
    }
  }

  lemma RankBounds(nodes: seq<Node>, links: seq<int>, n: nat)
    requires Tree(nodes) && n < |nodes| == |links| && Rank(nodes, links, n) > 0
    ensures Live(nodes, n) && nodes[n].key != Schema && !Link(nodes[n]) && Bounded(nodes, links, n, Rank(nodes, links, n))
  {
  }

  lemma RankDescends(c: Config, n: nat, i: nat)
    requires AllExpanded(c.nodes, c.links) && c.rank == Ranks(c.nodes, c.links) && At(c, n) && i < |Kids(c.nodes[n])|
    ensures Descends(c, n, i)
  {
    var kid, r := Kid(c.nodes, n, i), Rank(c.nodes, c.links, n);
    RankBounds(c.nodes, c.links, n);
    assert Live(c.nodes, kid);
    if c.nodes[kid].key != Schema {
      assert Edge(c.nodes, c.links, n, kid);
      assert Bounded(c.nodes, c.links, kid, r - 1);
      if Link(c.nodes[kid]) {
        LinkFacts(c.nodes, c.links, kid);
        assert Edge(c.nodes, c.links, kid, c.links[kid]);
        RankAtMost(c.nodes, c.links, c.links[kid], r - 2);
      } else {
        RankAtMost(c.nodes, c.links, kid, r - 1);
      }
    }
  }

  /** What the traversal establishes is what the searches need. */
  lemma TraversedIsAccepted(nodes: seq<Node>, links: seq<int>, glob: (string, string) -> bool, d: nat)
    requires AllExpanded(nodes, links) && Bounded(nodes, links, 0, d)
    ensures Accepts(Config(nodes, links, glob, Ranks(nodes, links)))
  {
    var c := Config(nodes, links, glob, Ranks(nodes, links));
    RankAtMost(nodes, links, 0, d);
    forall n: nat, i: nat | At(c, n) && i < |Kids(c.nodes[n])| ensures Descends(c, n, i) {
      RankDescends(c, n, i);
    }
  }

  /** All attributes on the path, in the order of a depth-first search that follows links. */
  ghost function Found(c: Accepted, n: nat, path: string): seq<nat>
    requires At(c, n)
    decreases |path|, c.rank[n], 1, 0
  {
    if path == "" then []
    else if path[0] == '.' then
      if |path| > 1 && path[1] == '.' then [] else Found(c, 0, path[1..])
    else
      var key, rest := path[..KeyLength(path)], Rest(path);
      if Keyword(key) || (rest != "" && rest[0] == '.') then [] else FoundFrom(c, n, path, 0)
  }

  /** What the children from `i` on contribute. */
  ghost function FoundFrom(c: Accepted, n: nat, path: string, i: nat): seq<nat>
    requires At(c, n) && i <= |Kids(c.nodes[n])| && Relative(path)
    decreases |path|, c.rank[n], 0, |Kids(c.nodes[n])| - i
  {
    if i == |Kids(c.nodes[n])| then [] else FoundBy(c, n, path, i) + FoundFrom(c, n, path, i + 1)
  }

  /** What child `i` contributes. */
  ghost function FoundBy(c: Accepted, n: nat, path: string, i: nat): seq<nat>
    requires At(c, n) && i < |Kids(c.nodes[n])| && Relative(path)
    decreases |path|, c.rank[n], 0, |Kids(c.nodes[n])| - i, 0
  {
    assert Descends(c, n, i);
    var key, rest, kid := path[..KeyLength(path)], Rest(path), Kids(c.nodes[n])[i];
    match c.nodes[kid].key
    case Extends => Found(c, c.links[kid], path)
    case Find => if rest == "" && c.glob(key, Name(c.nodes[c.links[kid]].key)) then [c.links[kid]] else []
    case Ident(name) =>
      if !c.glob(key, name) then []
      else if rest == "" then [kid]
      else if c.nodes[kid].value.List? then Found(c, kid, rest)
      else []
    case _ => []
  }

  // ----- What find_attributes finds

  /** One step of a search that follows links: from the root for an absolute path, to the target of an `_extends`
      child with the same path, or into a list whose name the first key matches. */
  ghost predicate Hop(c: Accepted, a: Place, b: Place)
    requires At(c, a.node)
  {
    || (Absolute(a.path) && b == Place(0, a.path[1..]))
    || (Wellformed(a.path) && exists i: nat :: i < |Kids(c.nodes[a.node])| && HopBy(c, a, i, b))
  }

  ghost predicate HopBy(c: Accepted, a: Place, i: nat, b: Place)
    requires At(c, a.node) && i < |Kids(c.nodes[a.node])|
  {
    var kid := Kids(c.nodes[a.node])[i];
    && kid < |c.nodes|
    && match c.nodes[kid].key
       case Extends => c.links[kid] >= 0 && b == Place(c.links[kid], a.path)
       case Ident(name) => c.glob(FirstKey(a.path), name) && Rest(a.path) != "" && c.nodes[kid].value.List? && b == Place(kid, Rest(a.path))
       case _ => false
  }

  /** The last key of the path matches `x`, a child or the target of a `_find` child. */
  ghost predicate LastKey(c: Accepted, a: Place, x: nat)
    requires At(c, a.node)
  {
    Wellformed(a.path) && Rest(a.path) == "" && exists i: nat :: i < |Kids(c.nodes[a.node])| && HitBy(c, a, i, x)
  }

  ghost predicate HitBy(c: Accepted, a: Place, i: nat, x: nat)
    requires At(c, a.node) && i < |Kids(c.nodes[a.node])|
  {
    var kid := Kids(c.nodes[a.node])[i];
    && kid < |c.nodes| && x < |c.nodes|
    && match c.nodes[kid].key
       case Find => c.links[kid] == x && c.glob(FirstKey(a.path), Name(c.nodes[x].key))
       case Ident(name) => kid == x && c.glob(FirstKey(a.path), name)
       case _ => false
  }

  ghost predicate Chase(c: Accepted, trail: seq<Place>, x: nat)
    decreases |trail|
  {
    && |trail| > 0 && At(c, trail[0].node)
    && if |trail| == 1 then LastKey(c, trail[0], x) else Hop(c, trail[0], trail[1]) && Chase(c, trail[1..], x)
  }

  /** The path resolves to `x`, key by key, from the list `n`. */
  ghost predicate Resolves(c: Accepted, n: nat, path: string, x: nat)
  {
    exists trail :: Chase(c, trail, x) && trail[0] == Place(n, path)
  }

  lemma ResolvesFurther(c: Accepted, a: Place, b: Place, x: nat)
    requires At(c, a.node) && Hop(c, a, b) && Resolves(c, b.node, b.path, x)
    ensures Resolves(c, a.node, a.path, x)
  {
    var trail :| Chase(c, trail, x) && trail[0] == Place(b.node, b.path);
    var longer := [a] + trail;
    assert longer[1..] == trail;
    assert Chase(c, longer, x);
  }

  // ----- In which order

  /** A chase labelled with the children it goes through: from the list `n` the children of `route` lead along the path to `x`. */
  ghost predicate ChaseBy(c: Accepted, n: nat, path: string, route: seq<nat>, x: nat)
    requires At(c, n)
    decreases |path|, c.rank[n]
  {
    if Absolute(path) then ChaseBy(c, 0, path[1..], route, x)
    else
      && Wellformed(path) && route != [] && route[0] < |Kids(c.nodes[n])|
      && assert Descends(c, n, route[0]);
      var kid := Kids(c.nodes[n])[route[0]];
      match c.nodes[kid].key
      case Extends => ChaseBy(c, c.links[kid], path, route[1..], x)
      case Find => |route| == 1 && Rest(path) == "" && HitBy(c, Place(n, path), route[0], x)
      case Ident(name) =>
        if Rest(path) == "" then |route| == 1 && HitBy(c, Place(n, path), route[0], x)
        else c.glob(FirstKey(path), name) && c.nodes[kid].value.List? && ChaseBy(c, kid, Rest(path), route[1..], x)
      case _ => false
  }

  /** A labelled chase is a chase. */
  lemma {:induction false} ChaseByIsChase(c: Accepted, n: nat, path: string, route: seq<nat>, x: nat)
    requires At(c, n) && ChaseBy(c, n, path, route, x)
    ensures Resolves(c, n, path, x)
    decreases |path|, c.rank[n]
  {
    var a := Place(n, path);
    if Absolute(path) {
      ChaseByIsChase(c, 0, path[1..], route, x);
      ResolvesFurther(c, a, Place(0, path[1..]), x);
    } else {
      assert Descends(c, n, route[0]);
      var kid := Kids(c.nodes[n])[route[0]];
      if c.nodes[kid].key == Extends {
        ChaseByIsChase(c, c.links[kid], path, route[1..], x);
        assert HopBy(c, a, route[0], Place(c.links[kid], path));
        ResolvesFurther(c, a, Place(c.links[kid], path), x);
      } else if c.nodes[kid].key.Ident? && Rest(path) != "" {
        ChaseByIsChase(c, kid, Rest(path), route[1..], x);
        assert HopBy(c, a, route[0], Place(kid, Rest(path)));
        ResolvesFurther(c, a, Place(kid, Rest(path)), x);
      } else {
        assert HitBy(c, a, route[0], x);
        assert Chase(c, [a], x);
      }
    }
  }

  /** And every chase can be labelled. */
  lemma {:induction false} ChaseCanBeLabelled(c: Accepted, trail: seq<Place>, x: nat) returns (route: seq<nat>)
    requires Chase(c, trail, x)
    ensures ChaseBy(c, trail[0].node, trail[0].path, route, x)
    decreases |trail|
  {
    var a := trail[0];
    if |trail| == 1 {
      var i: nat :| i < |Kids(c.nodes[a.node])| && HitBy(c, a, i, x);
      assert Descends(c, a.node, i);
      route := [i];
    } else {
      var b := trail[1];
      var rest := ChaseCanBeLabelled(c, trail[1..], x);
      if Absolute(a.path) {
        route := rest;
      } else {
        var i: nat :| i < |Kids(c.nodes[a.node])| && HopBy(c, a, i, b);
        assert Descends(c, a.node, i);
        route := [i] + rest;
        assert route[1..] == rest;
      }
    }
  }

  ghost predicate LeftToRight(routes: seq<seq<nat>>)
  {
    forall i, j :: 0 <= i < j < |routes| ==> LeftOf(routes[i], routes[j])
  }

  /** The list `r` has one entry for every labelled chase through a child from `lo` to below `hi`, from left to right. */
  ghost predicate Enumerates(c: Accepted, n: nat, path: string, lo: nat, hi: nat, r: seq<nat>, routes: seq<seq<nat>>)
    requires At(c, n)
  {
    && |routes| == |r| && LeftToRight(routes)
    && (forall m :: 0 <= m < |r| ==> Within(routes[m], lo, hi) && ChaseBy(c, n, path, routes[m], r[m]))
    && (forall route, x: nat :: Within(route, lo, hi) && ChaseBy(c, n, path, route, x) ==> exists m :: 0 <= m < |r| && routes[m] == route && r[m] == x)
  }

  predicate Within(route: seq<nat>, lo: nat, hi: nat)
  {
    route != [] && lo <= route[0] < hi
  }

  /** Chases through different children. */
  lemma EnumeratesSum(c: Accepted, n: nat, path: string, lo: nat, mid: nat, hi: nat, r: seq<nat>, a: seq<seq<nat>>, s: seq<nat>, b: seq<seq<nat>>)
    requires At(c, n) && lo <= mid <= hi && Enumerates(c, n, path, lo, mid, r, a) && Enumerates(c, n, path, mid, hi, s, b)
    ensures Enumerates(c, n, path, lo, hi, r + s, a + b)
  {
    var t, routes := r + s, a + b;
    forall i, j | 0 <= i < j < |routes| ensures LeftOf(routes[i], routes[j]) {
      if i < |a| <= j {
        assert Within(a[i], lo, mid) && Within(b[j - |a|], mid, hi);
      }
    }
    forall m | 0 <= m < |t| ensures Within(routes[m], lo, hi) && ChaseBy(c, n, path, routes[m], t[m]) {
      if m < |r| {
        assert Within(a[m], lo, mid);
      } else {
        assert Within(b[m - |r|], mid, hi);
      }
    }
    forall route, x: nat | Within(route, lo, hi) && ChaseBy(c, n, path, route, x) ensures exists m :: 0 <= m < |t| && routes[m] == route && t[m] == x {
      if route[0] < mid {
        var m :| 0 <= m < |r| && a[m] == route && r[m] == x;
        assert routes[m] == route && t[m] == x;
      } else {
        var m :| 0 <= m < |s| && b[m] == route && s[m] == x;
        assert routes[|a| + m] == route && t[|a| + m] == x;
      }
    }
  }

  function Prefixed(i: nat, routes: seq<seq<nat>>): (p: seq<seq<nat>>)
    ensures |p| == |routes| && forall m :: 0 <= m < |p| ==> p[m] == [i] + routes[m]
  {
    seq(|routes|, m requires 0 <= m < |routes| => [i] + routes[m])
  }

  /** All chases through child `i` go on from `b`. */
  lemma EnumeratesBelow(c: Accepted, n: nat, path: string, i: nat, b: Place, r: seq<nat>, routes: seq<seq<nat>>)
    requires At(c, n) && At(c, b.node) && !Absolute(path)
    requires forall below, x: nat :: ChaseBy(c, n, path, [i] + below, x) <==> ChaseBy(c, b.node, b.path, below, x)
    requires All(c, b.node, b.path, r, routes)
    ensures Enumerates(c, n, path, i, i + 1, r, Prefixed(i, routes))
  {
    var whole := Prefixed(i, routes);
    forall k, m | 0 <= k < m < |whole| ensures LeftOf(whole[k], whole[m]) {
      LeftOfBelow(i, routes[k], routes[m]);
    }
    forall m | 0 <= m < |r| ensures Within(whole[m], i, i + 1) && ChaseBy(c, n, path, whole[m], r[m]) {
      assert ChaseBy(c, b.node, b.path, routes[m], r[m]);
    }
    forall route, x: nat | Within(route, i, i + 1) && ChaseBy(c, n, path, route, x) ensures exists m :: 0 <= m < |r| && whole[m] == route && r[m] == x {
      assert route == [i] + route[1..];
      assert ChaseBy(c, b.node, b.path, route[1..], x);
      var m :| 0 <= m < |r| && routes[m] == route[1..] && r[m] == x;
      assert whole[m] == route;
    }
  }

  /** The list `r` has one entry for every labelled chase, from left to right. */
  ghost predicate All(c: Accepted, n: nat, path: string, r: seq<nat>, routes: seq<seq<nat>>)
    requires At(c, n)
  {
    && |routes| == |r| && LeftToRight(routes)
    && (forall m :: 0 <= m < |r| ==> ChaseBy(c, n, path, routes[m], r[m]))
    && (forall route, x: nat :: ChaseBy(c, n, path, route, x) ==> exists m :: 0 <= m < |r| && routes[m] == route && r[m] == x)
  }

  /** The result of a search has one entry for every way the path resolves, in the order of the children they go through. */
  lemma {:induction false} FoundInOrder(c: Accepted, n: nat, path: string) returns (routes: seq<seq<nat>>)
    requires At(c, n)
    ensures All(c, n, path, Found(c, n, path), routes)
    decreases |path|, c.rank[n], 1, 0
  {
    if Absolute(path) {
      routes := FoundInOrder(c, 0, path[1..]);
    } else if Wellformed(path) {
      routes := FromInOrder(c, n, path, 0);
      forall route, x: nat | ChaseBy(c, n, path, route, x) ensures Within(route, 0, |Kids(c.nodes[n])|) {
      }
    } else {
      routes := [];
    }
  }

  lemma {:induction false} FromInOrder(c: Accepted, n: nat, path: string, i: nat) returns (routes: seq<seq<nat>>)
    requires At(c, n) && i <= |Kids(c.nodes[n])| && Wellformed(path)
    ensures Enumerates(c, n, path, i, |Kids(c.nodes[n])|, FoundFrom(c, n, path, i), routes)
    decreases |path|, c.rank[n], 0, |Kids(c.nodes[n])| - i, 1
  {
    if i == |Kids(c.nodes[n])| {
      routes := [];
    } else {
      var a := ByInOrder(c, n, path, i);
      var b := FromInOrder(c, n, path, i + 1);
      EnumeratesSum(c, n, path, i, i + 1, |Kids(c.nodes[n])|, FoundBy(c, n, path, i), a, FoundFrom(c, n, path, i + 1), b);
      routes := a + b;
    }
  }

  lemma {:induction false} ByInOrder(c: Accepted, n: nat, path: string, i: nat) returns (routes: seq<seq<nat>>)
    requires At(c, n) && i < |Kids(c.nodes[n])| && Wellformed(path)
    ensures Enumerates(c, n, path, i, i + 1, FoundBy(c, n, path, i), routes)
    decreases |path|, c.rank[n], 0, |Kids(c.nodes[n])| - i, 0
  {
    assert Descends(c, n, i);
    var kid := Kids(c.nodes[n])[i];
    if c.nodes[kid].key == Extends {
      var below := FoundInOrder(c, c.links[kid], path);
      ChaseThrough(c, n, path, i);
      EnumeratesBelow(c, n, path, i, Place(c.links[kid], path), Found(c, c.links[kid], path), below);
      routes := Prefixed(i, below);
    } else if c.nodes[kid].key.Ident? && Rest(path) != "" && c.nodes[kid].value.List? && c.glob(FirstKey(path), c.nodes[kid].key.name) {
      var below := FoundInOrder(c, kid, Rest(path));
      ChaseThrough(c, n, path, i);
      EnumeratesBelow(c, n, path, i, Place(kid, Rest(path)), Found(c, kid, Rest(path)), below);
      routes := Prefixed(i, below);
    } else {
      routes := HitInOrder(c, n, path, i);
    }
  }

  /** Where the chases through child `i` go on. */
  lemma ChaseThrough(c: Accepted, n: nat, path: string, i: nat)
    requires At(c, n) && i < |Kids(c.nodes[n])| && Wellformed(path) && Descends(c, n, i)
    ensures var kid := Kids(c.nodes[n])[i];
      c.nodes[kid].key == Extends ==> forall below, x: nat :: ChaseBy(c, n, path, [i] + below, x) <==> ChaseBy(c, c.links[kid], path, below, x)
    ensures var kid := Kids(c.nodes[n])[i];
      c.nodes[kid].key.Ident? && Rest(path) != "" && c.nodes[kid].value.List? && c.glob(FirstKey(path), c.nodes[kid].key.name) ==>
        forall below, x: nat :: ChaseBy(c, n, path, [i] + below, x) <==> ChaseBy(c, kid, Rest(path), below, x)
  {
    forall below: seq<nat> ensures ([i] + below)[0] == i && ([i] + below)[1..] == below {
    }
  }

  lemma HitInOrder(c: Accepted, n: nat, path: string, i: nat) returns (routes: seq<seq<nat>>)
    requires At(c, n) && i < |Kids(c.nodes[n])| && Wellformed(path) && Descends(c, n, i)
    requires var kid := Kids(c.nodes[n])[i];
      c.nodes[kid].key != Extends && !(c.nodes[kid].key.Ident? && Rest(path) != "" && c.nodes[kid].value.List? && c.glob(FirstKey(path), c.nodes[kid].key.name))
    ensures Enumerates(c, n, path, i, i + 1, FoundBy(c, n, path, i), routes)
  {
    var r := FoundBy(c, n, path, i);
    routes := if r == [] then [] else [[i]];
    forall route, x: nat | Within(route, i, i + 1) && ChaseBy(c, n, path, route, x) ensures exists m :: 0 <= m < |r| && routes[m] == route && r[m] == x {
      assert route == [i];
      assert r == [x];
      assert routes[0] == route && r[0] == x;
    }
  }

  /** The full result holds exactly the attributes that the path resolves to. */
  lemma FoundExact(c: Accepted, n: nat, path: string, x: nat)
    requires At(c, n)
    ensures x in Found(c, n, path) <==> Resolves(c, n, path, x)
  {
    var found := Found(c, n, path);
    var routes := FoundInOrder(c, n, path);
    if x in found {
      var m :| 0 <= m < |found| && found[m] == x;
      ChaseByIsChase(c, n, path, routes[m], x);
    }
    if Resolves(c, n, path, x) {
      var trail :| Chase(c, trail, x) && trail[0] == Place(n, path);
      var route := ChaseCanBeLabelled(c, trail, x);
      var m :| 0 <= m < |found| && routes[m] == route && found[m] == x;
    }
  }

  /** All matches, or the first one if there is any. */
  function Wanted(all: seq<nat>, onematch: bool): seq<nat>
  {
    if onematch && |all| > 1 then all[..1] else all
  }

  /** The configuration is that of the tree. */
  ghost predicate Holds(t: AttrTree, glob: (string, string) -> bool, c: Accepted)
    reads t.attr_expand
  {
    c.nodes == t.nodes && c.links == t.attr_expand[..] && forall a, b :: c.glob(a, b) == glob(a, b)
  }

  /** find_attributes: on an accepted configuration it ends on every path, and with `onematch` it gives the first
      of all matches, or nothing if there is none. */
  method FindAttributes(t: AttrTree, glob: (string, string) -> bool, n: nat, path: string, collected: seq<nat>, onematch: bool,
                        ghost c: Accepted)
    returns (collected': seq<nat>)
    requires Holds(t, glob, c) && At(c, n) && (onematch ==> collected == [])
    ensures collected' == collected + Wanted(Found(c, n, path), onematch)
    decreases |path|, c.rank[n], 2, 0
  {
    collected' := collected;
    if path == "" { return; }
    if path[0] == '.' {
      if |path| > 1 && path[1] == '.' { return; }
      collected' := FindAttributes(t, glob, 0, path[1..], collected, onematch, c);
      return;
    }
    var key, rest := path[..KeyLength(path)], Rest(path);
    if Keyword(key) || (rest != "" && rest[0] == '.') { return; }
    collected' := FindInKids(t, glob, n, path, key, rest, collected, onematch, c);
  }

  method FindInKids(t: AttrTree, glob: (string, string) -> bool, n: nat, path: string, key: string, rest: string, collected: seq<nat>,
                    onematch: bool, ghost c: Accepted)
    returns (collected': seq<nat>)
    requires Holds(t, glob, c) && At(c, n) && (onematch ==> collected == [])
    requires Relative(path) && key == path[..KeyLength(path)] && rest == Rest(path)
    ensures collected' == collected + Wanted(FoundFrom(c, n, path, 0), onematch)
    decreases |path|, c.rank[n], 1, 0
  {
    collected' := collected;
    for i := 0 to |Kids(t.nodes[n])|
      invariant onematch ==> collected' == [] && FoundFrom(c, n, path, 0) == FoundFrom(c, n, path, i)
      invariant collected' + FoundFrom(c, n, path, i) == collected + FoundFrom(c, n, path, 0)
    {
      collected' := FindInKid(t, glob, n, path, key, rest, collected', onematch, c, i);
      if onematch && collected' != [] { return; }
    }
  }

  /** One child of a list. */
  method FindInKid(t: AttrTree, glob: (string, string) -> bool, n: nat, path: string, key: string, rest: string, collected: seq<nat>,
                   onematch: bool, ghost c: Accepted, i: nat)
    returns (collected': seq<nat>)
    requires Holds(t, glob, c) && At(c, n) && (onematch ==> collected == [])
    requires i < |Kids(c.nodes[n])| && Relative(path) && key == path[..KeyLength(path)] && rest == Rest(path)
    ensures collected' == collected + Wanted(FoundBy(c, n, path, i), onematch)
    decreases |path|, c.rank[n], 0, i
  {
    assert Descends(c, n, i);
    var kid := Kids(t.nodes[n])[i];
    collected' := collected;
    match t.nodes[kid].key {
      case Extends =>
        collected' := FindAttributes(t, glob, t.attr_expand[kid], path, collected, onematch, c);
      case Find =>
        if rest == "" && glob(key, Name(t.nodes[t.attr_expand[kid]].key)) {
          collected' := collected + [t.attr_expand[kid]];
        }
      case Ident(name) =>
        if glob(key, name) {
          if rest == "" {
            collected' := collected + [kid];
          } else if t.nodes[kid].value.List? {
            collected' := FindAttributes(t, glob, kid, rest, collected, onematch, c);
          }
        }
      case _ =>
    }
  }

  /**
   What loading a configuration does: expand and traverse. It crashes exactly when the first link outside of schemas
   that is not sane is one whose search runs into an empty list; it is refused exactly when that link is broken, or
   all are sane and close a cycle; otherwise every later search ends.
   */
  method Load(t: AttrTree, ghost glob: (string, string) -> bool) returns (status: Status, ghost c: Config)
    requires t.Shape() && forall n :: 0 <= n < |t.nodes| ==> t.attr_expand[n] == -1 && !t.expanding[n]
    modifies t.attr_expand, t.expanding
    ensures status == Crashed <==> Verdict(t.nodes, InOrder(t.nodes, 0)) == Crashed
    ensures status == Refused <==>
      || Verdict(t.nodes, InOrder(t.nodes, 0)) == Refused
      || (Verdict(t.nodes, InOrder(t.nodes, 0)) == Fine && Cyclic(t.nodes, t.attr_expand[..], 0))
    ensures status == Fine ==> Accepts(c) && c.nodes == t.nodes && c.links == t.attr_expand[..] && c.glob == glob
  {
    c := Config(t.nodes, [], glob, []);
    status := t.ExpandRoot();
    if status != Fine { return; }
    ghost var d;
    var err;
    err, d := t.TraverseRoot();
    if err { return Refused, c; }
    TraversedIsAccepted(t.nodes, t.attr_expand[..], glob, d);
    c := Config(t.nodes, t.attr_expand[..], glob, Ranks(t.nodes, t.attr_expand[..]));
  }

  /**
   dmlConfig::find and, with `onematch`, findSingle: a search from the root. It returns the attributes that the path
   resolves to, one for every way it does, in the order of the children those ways go through; or the first of them.
   */
  method Lookup(t: AttrTree, glob: (string, string) -> bool, path: string, onematch: bool, ghost c: Accepted) returns (r: seq<nat>)
    requires Holds(t, glob, c)
    ensures if onematch then FirstOnly(c, path, r) else exists routes :: All(c, 0, path, r, routes)
    ensures !onematch ==> forall x: nat :: x in r <==> Resolves(c, 0, path, x)
    ensures onematch ==> |r| <= 1 && (forall x <- r :: Resolves(c, 0, path, x)) && (r == [] ==> forall x: nat :: !Resolves(c, 0, path, x))
  {
    r := FindAttributes(t, glob, 0, path, [], onematch, c);
    assert r == Wanted(Found(c, 0, path), onematch);
    LookupMembers(c, path, onematch, r);
    LookupOrder(c, path, onematch, r);
  }

  /** The end of the leftmost chase, or nothing if there is no chase. */
  ghost predicate FirstOnly(c: Accepted, path: string, r: seq<nat>)
  {
    if r == [] then forall route, x: nat :: !ChaseBy(c, 0, path, route, x)
    else |r| == 1 && exists route :: First(c, 0, path, route, r[0])
  }

  lemma LookupMembers(c: Accepted, path: string, onematch: bool, r: seq<nat>)
    requires r == Wanted(Found(c, 0, path), onematch)
    ensures !onematch ==> forall x: nat :: x in r <==> Resolves(c, 0, path, x)
    ensures onematch ==> |r| <= 1 && (forall x <- r :: Resolves(c, 0, path, x)) && (r == [] ==> forall x: nat :: !Resolves(c, 0, path, x))
  {
    forall x: nat ensures x in Found(c, 0, path) <==> Resolves(c, 0, path, x) {
      FoundExact(c, 0, path, x);
    }
  }

  lemma LookupOrder(c: Accepted, path: string, onematch: bool, r: seq<nat>)
    requires r == Wanted(Found(c, 0, path), onematch)
    ensures if onematch then FirstOnly(c, path, r) else exists routes :: All(c, 0, path, r, routes)
  {
    var all := Found(c, 0, path);
    var routes := FoundInOrder(c, 0, path);
    if onematch && all != [] {
      FirstOfAll(c, 0, path, all, routes);
      assert r[0] == all[0];
    }
  }

  /** The leftmost labelled chase leads to `x`. */
  ghost predicate First(c: Accepted, n: nat, path: string, route: seq<nat>, x: nat)
    requires At(c, n)
  {
    ChaseBy(c, n, path, route, x) && forall other, y: nat :: ChaseBy(c, n, path, other, y) ==> other == route || LeftOf(route, other)
  }

  lemma FirstOfAll(c: Accepted, n: nat, path: string, r: seq<nat>, routes: seq<seq<nat>>)
    requires At(c, n) && All(c, n, path, r, routes) && r != []
    ensures First(c, n, path, routes[0], r[0])
  {
    forall other, y: nat | ChaseBy(c, n, path, other, y) ensures other == routes[0] || LeftOf(routes[0], other) {
      var m :| 0 <= m < |r| && routes[m] == other && r[m] == y;
    }
  }
}
