/** The switch and host graph, its walks and distances, and the breadth-first labelling that
    all the route generators start with. */
module Topology {
  import opened Finite

  type Name = string

  datatype Neighbor = Neighbor(ethid: nat, name: Name, neighEthid: nat)

  type Graph = map<Name, seq<Neighbor>>

  // Looking up something that is not there ends a search with an exception.
  datatype Search<T> = Raised | Found(value: T)

  predicate Edge(g: Graph, u: Name, v: Name)
  {
    u in g && exists i :: 0 <= i < |g[u]| && g[u][i].name == v
  }

  // What reading a topology builds: links have two ends, both known, and every node a link.
  ghost predicate Built(g: Graph)
  {
    && (forall u, v :: Edge(g, u, v) ==> v in g) && (forall u, v :: Edge(g, u, v) ==> Edge(g, v, u))
    && (forall u :: u in g ==> g[u] != [])
  }

  // How many of the neighbours listed are `n`.
  function CountNamed(s: seq<Neighbor>, n: Name): nat
  {
    if s == [] then 0 else CountNamed(s[..|s| - 1], n) + if s[|s| - 1].name == n then 1 else 0
  }

  // How many links `m` has to `n`.
  function Links(g: Graph, m: Name, n: Name): nat
  {
    if m in g then CountNamed(g[m], n) else 0
  }

  // No two links join the same two nodes.
  ghost predicate Simple(g: Graph)
  {
    forall m, n :: Links(g, m, n) <= 1
  }

  lemma {:induction false} CountNext(s: seq<Neighbor>, i: nat, n: Name)
    requires i < |s|
    ensures CountNamed(s[..i + 1], n) == CountNamed(s[..i], n) + if s[i].name == n then 1 else 0
  {
    assert s[..i + 1][..i] == s[..i];
  }

  lemma {:induction false} CountNone(s: seq<Neighbor>, n: Name)
    ensures CountNamed(s, n) > 0 <==> exists k :: 0 <= k < |s| && s[k].name == n
  {
    if s != [] {
      var t := s[..|s| - 1];
      CountNone(t, n);
      if k :| 0 <= k < |s| && s[k].name == n && k < |s| - 1 { assert t[k].name == n; }
    }
  }

  ghost predicate Walk(g: Graph, p: seq<Name>)
  {
    |p| > 0 && p[0] in g && forall i :: 0 <= i < |p| - 1 ==> Edge(g, p[i], p[i + 1])
  }

  ghost predicate WalkFromTo(g: Graph, p: seq<Name>, u: Name, v: Name)
  {
    Walk(g, p) && p[0] == u && p[|p| - 1] == v
  }

  ghost predicate Shortest(g: Graph, u: Name, v: Name, p: seq<Name>)
  {
    WalkFromTo(g, p, u, v) && forall q :: WalkFromTo(g, q, u, v) ==> |p| <= |q|
  }

  ghost predicate Reachable(g: Graph, u: Name, v: Name)
  {
    exists p :: WalkFromTo(g, p, u, v)
  }

  // The shortest walk from `u` to `v` has `d` links.
  ghost predicate IsDist(g: Graph, u: Name, v: Name, d: nat)
  {
    && (exists p :: WalkFromTo(g, p, u, v) && |p| == d + 1)
    && forall q :: WalkFromTo(g, q, u, v) ==> |q| >= d + 1
  }

  // A label is the distance from `src`; labelled nodes below `bound` have all neighbours labelled.
  ghost predicate Labelled(g: Graph, src: Name, lab: map<Name, nat>, bound: nat)
  {
    && src in g && src in lab && lab[src] == 0
    && (forall v :: v in lab ==> v in g)
    && (forall v :: v in lab && v != src ==> HasParent(g, lab, v))
    && (forall u, v :: u in lab && lab[u] < bound && Edge(g, u, v) ==> v in lab && lab[v] <= lab[u] + 1)
  }

  ghost predicate HasParent(g: Graph, lab: map<Name, nat>, v: Name)
    requires v in lab
  {
    exists u :: u in lab && Edge(g, u, v) && lab[u] + 1 == lab[v]
  }

  lemma {:induction false} WalkAppend(g: Graph, q: seq<Name>, u: Name, x: Name, v: Name)
    requires WalkFromTo(g, q, u, x) && Edge(g, x, v)
    ensures WalkFromTo(g, q + [v], u, v)
  {
    var p := q + [v];
    forall i | 0 <= i < |p| - 1 ensures Edge(g, p[i], p[i + 1]) {
      if i < |q| - 1 { assert Edge(g, q[i], q[i + 1]); }
    }
  }

  lemma {:induction false} LabelWalk(g: Graph, src: Name, lab: map<Name, nat>, bound: nat,
      v: Name) returns (p: seq<Name>)
    requires Labelled(g, src, lab, bound) && v in lab
    ensures WalkFromTo(g, p, src, v) && |p| == lab[v] + 1
    decreases lab[v]
  {
    if v == src {
      p := [src];
    } else {
      assert HasParent(g, lab, v);
      var u :| u in lab && Edge(g, u, v) && lab[u] + 1 == lab[v];
      var q := LabelWalk(g, src, lab, bound, u);
      p := q + [v];
      hide *;
      WalkAppend(g, q, src, u, v);
    }
  }

  lemma {:induction false} WalkLabel(g: Graph, src: Name, lab: map<Name, nat>, bound: nat, p: seq<Name>, k: nat)
    requires Labelled(g, src, lab, bound) && Walk(g, p) && p[0] == src && k < |p| && k <= bound
    ensures p[k] in lab && lab[p[k]] <= k
  {
    if k > 0 {
      WalkLabel(g, src, lab, bound, p, k - 1);
      assert Edge(g, p[k - 1], p[k - 1 + 1]);
    }
  }

  /** Labels up to one past the bound are distances, and no node nearer than that is missed. */
  lemma {:induction false} LabelsAreDistances(g: Graph, src: Name, lab: map<Name, nat>, bound: nat, v: Name)
    requires Labelled(g, src, lab, bound)
    ensures v in lab && lab[v] <= bound + 1 ==> IsDist(g, src, v, lab[v])
    ensures forall d: nat :: d <= bound && IsDist(g, src, v, d) ==> v in lab && lab[v] == d
  {
    forall q | WalkFromTo(g, q, src, v) && |q| <= bound + 1 ensures v in lab && lab[v] + 1 <= |q| {
      WalkLabel(g, src, lab, bound, q, |q| - 1);
    }
    if v in lab {
      var p := LabelWalk(g, src, lab, bound, v);
    }
  }

  // The labels are the distances from `src`, and every node that can be reached has one.
  ghost predicate Distances(g: Graph, src: Name, lab: map<Name, nat>)
  {
    && (forall v :: v in lab ==> v in g && IsDist(g, src, v, lab[v]))
    && (forall v, p :: WalkFromTo(g, p, src, v) ==> v in lab)
  }

  ghost predicate Closed(g: Graph, lab: map<Name, nat>)
  {
    forall u, v :: u in lab && Edge(g, u, v) ==> v in lab && lab[v] <= lab[u] + 1
  }

  lemma {:induction false} ClosedDistances(g: Graph, src: Name, lab: map<Name, nat>)
    requires Labelled(g, src, lab, 0) && Closed(g, lab)
    ensures Distances(g, src, lab)
  {
    forall v | v in lab ensures v in g && IsDist(g, src, v, lab[v]) {
      assert Labelled(g, src, lab, lab[v]);
      LabelsAreDistances(g, src, lab, lab[v], v);
    }
    forall v, p | WalkFromTo(g, p, src, v) ensures v in lab {
      assert Labelled(g, src, lab, |p|);
      WalkLabel(g, src, lab, |p|, p, |p| - 1);
    }
  }

  // The worklist: its nodes are the labelled ones, nearest first, and the labels of the nodes
  // from position `ith` on differ by at most one.
  ghost predicate Queue(g: Graph, src: Name, lab: map<Name, nat>, list: seq<Name>, ith: nat)
  {
    && |list| > 0 && list[0] == src && NoDup(list) && ith <= |list|
    && (forall n :: n in lab <==> n in list)
    && (forall j, k :: 0 <= j < k < |list| ==> lab[list[j]] <= lab[list[k]])
    && (ith < |list| ==> forall k :: 0 <= k < |list| ==> lab[list[k]] <= lab[list[ith]] + 1)
    && Labelled(g, src, lab, 0)
  }

  // The neighbours of the nodes before position `ith` are labelled.
  ghost predicate Expanded(g: Graph, lab: map<Name, nat>, list: seq<Name>, ith: nat)
  {
    forall j, v :: 0 <= j < ith <= |list| && list[j] in lab && Edge(g, list[j], v) ==> v in lab && lab[v] <= lab[list[j]] + 1
  }

  // Labelling a new neighbour of the node being expanded.
  lemma {:induction false} LabelledAdd(g: Graph, src: Name, lab: map<Name, nat>, u: Name, n: Name)
    requires Labelled(g, src, lab, 0) && u in lab && Edge(g, u, n) && n !in lab && n in g
    ensures Labelled(g, src, lab[n := lab[u] + 1], 0)
  {
    var lab1 := lab[n := lab[u] + 1];
    forall v | v in lab1 && v != src ensures HasParent(g, lab1, v) {
      if v == n {
        assert u in lab1 && lab1[u] + 1 == lab1[v];
      } else {
        assert HasParent(g, lab, v);
        var w :| w in lab && Edge(g, w, v) && lab[w] + 1 == lab[v];
        assert w in lab1 && lab1[w] + 1 == lab1[v];
      }
    }
  }

  // A new last entry keeps the worklist free of duplicates and in order of distance.
  lemma {:induction false} OrderAdd(lab: map<Name, nat>, list: seq<Name>, n: Name, d: nat)
    requires NoDup(list) && n !in lab && (forall x :: x in lab <==> x in list)
    requires forall j, k :: 0 <= j < k < |list| ==> lab[list[j]] <= lab[list[k]]
    requires forall k :: 0 <= k < |list| ==> lab[list[k]] <= d
    ensures NoDup(list + [n]) && forall x :: x in lab[n := d] <==> x in list + [n]
    ensures forall j, k :: 0 <= j < k < |list + [n]| ==> lab[n := d][(list + [n])[j]] <= lab[n := d][(list + [n])[k]]
    ensures forall k :: 0 <= k < |list + [n]| ==> lab[n := d][(list + [n])[k]] <= d
  {
    var lab1, list1 := lab[n := d], list + [n];
    assert n !in list;
    assert forall k :: 0 <= k < |list| ==> list1[k] == list[k] && list[k] in lab && lab1[list[k]] == lab[list[k]];
    forall j, k | 0 <= j < k < |list1| ensures list1[j] != list1[k] && lab1[list1[j]] <= lab1[list1[k]] {
      assert list[j] in list;
    }
    forall x ensures x in lab1 <==> x in list1 {
      assert x in list1 <==> x in list || x == n;
    }
  }

  lemma {:induction false} QueueAdd(g: Graph, src: Name, lab: map<Name, nat>, list: seq<Name>, ith: nat, n: Name)
    requires Queue(g, src, lab, list, ith) && ith < |list| && Edge(g, list[ith], n) && n !in lab && n in g
    ensures Queue(g, src, lab[n := lab[list[ith]] + 1], list + [n], ith)
  {
    hide Labelled, Edge, NoDup;
    LabelledAdd(g, src, lab, list[ith], n);
    OrderAdd(lab, list, n, lab[list[ith]] + 1);
    assert list[ith] in list;
  }

  lemma {:induction false} ExpandedAdd(g: Graph, lab: map<Name, nat>, list: seq<Name>, ith: nat, n: Name, d: nat)
    requires Expanded(g, lab, list, ith) && ith <= |list| && n !in lab && forall k :: 0 <= k < |list| ==> list[k] in lab
    ensures Expanded(g, lab[n := d], list + [n], ith)
  {
    forall j, v | 0 <= j < ith && Edge(g, list[j], v) ensures v in lab && lab[v] <= lab[list[j]] + 1 {}
  }

  // What the worklist says of the node being expanded.
  lemma {:induction false} QueueAt(g: Graph, src: Name, lab: map<Name, nat>, list: seq<Name>, ith: nat)
    requires Queue(g, src, lab, list, ith)
    ensures |list| <= |g.Keys| && ith <= |list| && forall k :: 0 <= k < |list| ==> list[k] in lab && list[k] in g
    ensures ith < |list| ==> forall n :: n in lab ==> lab[n] <= lab[list[ith]] + 1
  {
    NoDupSize(list, g.Keys);
  }

  lemma {:induction false} QueueNext(g: Graph, src: Name, lab: map<Name, nat>, list: seq<Name>, ith: nat)
    requires Queue(g, src, lab, list, ith) && Expanded(g, lab, list, ith) && ith < |list|
    requires forall i :: 0 <= i < |g[list[ith]]| ==> g[list[ith]][i].name in lab && lab[g[list[ith]][i].name] <= lab[list[ith]] + 1
    ensures Queue(g, src, lab, list, ith + 1) && Expanded(g, lab, list, ith + 1)
  {
    hide Labelled;
  }

  lemma {:induction false} QueueDone(g: Graph, src: Name, lab: map<Name, nat>, list: seq<Name>)
    requires Queue(g, src, lab, list, |list|) && Expanded(g, lab, list, |list|)
    ensures Labelled(g, src, lab, 0) && Closed(g, lab)
  {
    forall u, v | u in lab && Edge(g, u, v) ensures v in lab && lab[v] <= lab[u] + 1 {
      var j :| 0 <= j < |list| && list[j] == u;
    }
  }

  lemma {:induction false} QueueStart(g: Graph, src: Name)
    requires src in g
    ensures Queue(g, src, map[src := 0], [src], 0) && Expanded(g, map[src := 0], [src], 0)
  {}

  lemma {:induction false} NeighborEdge(g: Graph, u: Name, i: nat)
    requires Built(g) && u in g && i < |g[u]|
    ensures Edge(g, u, g[u][i].name) && g[u][i].name in g
  {}

  // The neighbours of `u`, of the first `i`, that are not among those found before.
  ghost function Unseen(g: Graph, u: Name, i: nat, found: seq<Name>): seq<Name>
    requires u in g && i <= |g[u]|
  {
    if i == 0 then []
    else
      var more, n := Unseen(g, u, i - 1, found), g[u][i - 1].name;
      if n !in found && n !in more then more + [n] else more
  }

  // The nodes found when the first `k` of them have been expanded, in the order of discovery.
  ghost function Discovered(g: Graph, src: Name, k: nat): seq<Name>
  {
    if k == 0 then [src]
    else
      var list := Discovered(g, src, k - 1);
      if k - 1 < |list| && list[k - 1] in g then list + Unseen(g, list[k - 1], |g[list[k - 1]]|, list) else list
  }

  /** The order in which a breadth-first search from `src` finds the nodes. */
  ghost function Order(g: Graph, src: Name): seq<Name>
  {
    Discovered(g, src, |g.Keys|)
  }

  lemma {:induction false} UnseenStart(g: Graph, u: Name, found: seq<Name>)
    requires u in g
    ensures Unseen(g, u, 0, found) == [] && found + [] == found
  {}

  lemma {:induction false} UnseenStep(g: Graph, u: Name, i: nat, found: seq<Name>)
    requires u in g && i < |g[u]|
    ensures var more, n := Unseen(g, u, i, found), g[u][i].name;
      Unseen(g, u, i + 1, found) == if n in found + more then more else more + [n]
  {}

  lemma {:induction false} DiscoveredStart(g: Graph, src: Name)
    ensures Discovered(g, src, 0) == [src]
  {}

  lemma {:induction false} DiscoveredNext(g: Graph, src: Name, k: nat)
    ensures var list := Discovered(g, src, k);
      k < |list| && list[k] in g ==> Discovered(g, src, k + 1) == list + Unseen(g, list[k], |g[list[k]]|, list)
  {}

  // Nothing more is found once every node found has been expanded.
  lemma {:induction false} DiscoveredDone(g: Graph, src: Name, k: nat, n: nat)
    requires |Discovered(g, src, k)| <= k <= n
    ensures Discovered(g, src, n) == Discovered(g, src, k)
  {
    if n > k { DiscoveredDone(g, src, k, n - 1); }
  }

  lemma {:induction false} DiscoveredGrows(g: Graph, src: Name, k: nat, n: nat)
    requires k <= n
    ensures Discovered(g, src, k) <= Discovered(g, src, n)
  {
    if n > k { DiscoveredGrows(g, src, k, n - 1); }
  }

  lemma {:induction false} OrderIs(g: Graph, src: Name)
    ensures Order(g, src) == Discovered(g, src, |g.Keys|)
  {}

  // The first link of `u` to `v` is link `i`.
  ghost predicate FirstLink(g: Graph, u: Name, i: nat, v: Name)
  {
    u in g && i < |g[u]| && g[u][i].name == v && forall k :: 0 <= k < i ==> g[u][k].name != v
  }

  // Of the nodes listed, node `j` is the first to lead to `v`, by its link `i`.
  ghost predicate FoundBy(g: Graph, list: seq<Name>, j: nat, i: nat, v: Name)
  {
    j < |list| && FirstLink(g, list[j], i, v) && forall k :: 0 <= k < j ==> !Edge(g, list[k], v)
  }

  lemma {:induction false} FoundOnce(g: Graph, list: seq<Name>, j: nat, i: nat, j': nat, i': nat, v: Name)
    requires FoundBy(g, list, j, i, v) && FoundBy(g, list, j', i', v)
    ensures j == j' && i == i'
  {
    assert Edge(g, list[j], v) && Edge(g, list[j'], v);
  }

  lemma {:induction false} FoundMore(g: Graph, list: seq<Name>, more: seq<Name>, j: nat, i: nat, v: Name)
    requires j < |list|
    ensures FoundBy(g, list + more, j, i, v) <==> FoundBy(g, list, j, i, v)
  {
    assert forall k :: 0 <= k <= j ==> (list + more)[k] == list[k];
    hide Edge, FirstLink;
  }

  // Every node listed but the first has been found by one of the first `k`, listed before it.
  ghost predicate AllFoundBy(g: Graph, list: seq<Name>, k: nat)
  {
    forall a :: 0 < a < |list| ==> FoundBefore(g, list, k, a)
  }

  ghost predicate FoundBefore(g: Graph, list: seq<Name>, k: nat, a: nat)
    requires a < |list|
  {
    exists j, i :: 0 <= j < k && j < a && FoundBy(g, list, j, i, list[a])
  }

  // Nodes are listed in the order of who has found them, and of the links by which.
  ghost predicate InFindingOrder(g: Graph, list: seq<Name>)
  {
    forall a, b, j, i, j', i' :: 0 < a < b < |list| && FoundBy(g, list, j, i, list[a]) && FoundBy(g, list, j', i', list[b]) ==>
      j < j' || (j == j' && i < i')
  }

  // The new neighbours of a node are listed by its first links to them.
  lemma {:induction false} UnseenLinks(g: Graph, u: Name, i: nat, found: seq<Name>, c: nat) returns (l: nat)
    requires u in g && i <= |g[u]| && c < |Unseen(g, u, i, found)|
    ensures l < i && FirstLink(g, u, l, Unseen(g, u, i, found)[c]) && Unseen(g, u, i, found)[c] !in found
    ensures Unseen(g, u, l, found) == Unseen(g, u, i, found)[..c]
  {
    var more := Unseen(g, u, i - 1, found);
    if c < |more| {
      l := UnseenLinks(g, u, i - 1, found, c);
    } else {
      l := i - 1;
      forall k | 0 <= k < l ensures g[u][k].name != g[u][l].name {
        UnseenHas(g, u, l, found, k);
      }
    }
  }

  lemma {:induction false} UnseenHas(g: Graph, u: Name, i: nat, found: seq<Name>, k: nat)
    requires u in g && k < i <= |g[u]|
    ensures g[u][k].name in found || g[u][k].name in Unseen(g, u, i, found)
  {
    if k < i - 1 { UnseenHas(g, u, i - 1, found, k); }
  }

  lemma {:induction false} UnseenGrows(g: Graph, u: Name, i: nat, l: nat, found: seq<Name>)
    requires u in g && l <= i <= |g[u]|
    ensures |Unseen(g, u, l, found)| <= |Unseen(g, u, i, found)|
  {
    if l < i { UnseenGrows(g, u, i - 1, l, found); }
  }

  // Where each new node of a step comes from.
  lemma {:induction false} NewFoundBy(g: Graph, list: seq<Name>, k: nat, c: nat) returns (l: nat)
    requires k < |list| && list[k] in g && c < |Unseen(g, list[k], |g[list[k]]|, list)|
    requires forall j, v :: 0 <= j < k && Edge(g, list[j], v) ==> v in list
    ensures var more := Unseen(g, list[k], |g[list[k]]|, list);
      FoundBy(g, list + more, k, l, more[c]) && l < |g[list[k]]| && Unseen(g, list[k], l, list) == more[..c]
  {
    var more := Unseen(g, list[k], |g[list[k]]|, list);
    l := UnseenLinks(g, list[k], |g[list[k]]|, list, c);
    FoundMore(g, list, more, k, l, more[c]);
  }

  ghost predicate Expands(g: Graph, list: seq<Name>, k: nat)
  {
    forall j, v :: 0 <= j < k && j < |list| && Edge(g, list[j], v) ==> v in list
  }

  lemma {:induction false} ExpandsNext(g: Graph, list: seq<Name>, k: nat)
    requires Expands(g, list, k) && k < |list| && list[k] in g
    ensures Expands(g, list + Unseen(g, list[k], |g[list[k]]|, list), k + 1)
  {
    var more := Unseen(g, list[k], |g[list[k]]|, list);
    forall j, v | 0 <= j < k + 1 && j < |list + more| && Edge(g, (list + more)[j], v) ensures v in list + more {
      if j == k {
        var l :| 0 <= l < |g[list[k]]| && g[list[k]][l].name == v;
        UnseenHas(g, list[k], |g[list[k]]|, list, l);
      }
    }
  }

  // Where node `a` of the list comes from after a step: as before, or from node `k` when it is new.
  lemma {:induction false} Origin(g: Graph, list: seq<Name>, k: nat, a: nat) returns (j: nat, i: nat)
    requires k < |list| && list[k] in g && Expands(g, list, k) && AllFoundBy(g, list, k)
    requires 0 < a < |list + Unseen(g, list[k], |g[list[k]]|, list)|
    ensures var more := Unseen(g, list[k], |g[list[k]]|, list);
      && FoundBy(g, list + more, j, i, (list + more)[a]) && j <= k && j < a
      && (a < |list| ==> j < k && FoundBy(g, list, j, i, list[a]))
      && (a >= |list| ==> j == k && i < |g[list[k]]| && Unseen(g, list[k], i, list) == more[..a - |list|])
  {
    var more := Unseen(g, list[k], |g[list[k]]|, list);
    hide FoundBy, Unseen, Edge;
    if a < |list| {
      assert FoundBefore(g, list, k, a);
      j, i :| 0 <= j < k && j < a && FoundBy(g, list, j, i, list[a]);
      FoundMore(g, list, more, j, i, list[a]);
    } else {
      j := k;
      i := NewFoundBy(g, list, k, a - |list|);
    }
  }

  lemma {:induction false} OrderNext(g: Graph, list: seq<Name>, k: nat)
    requires k < |list| && list[k] in g && Expands(g, list, k) && AllFoundBy(g, list, k) && InFindingOrder(g, list)
    ensures var list1 := list + Unseen(g, list[k], |g[list[k]]|, list); AllFoundBy(g, list1, k + 1) && InFindingOrder(g, list1)
  {
    var more := Unseen(g, list[k], |g[list[k]]|, list);
    var list1 := list + more;
    hide FoundBy, Unseen, Expands, Edge, AllFoundBy;
    var n := k + 1;
    forall a | 0 < a < |list1| ensures FoundBefore(g, list1, n, a) {
      var j, i := Origin(g, list, k, a);
    }
    ShutAllFoundBy(g, list1, n);
    forall a, b, j, i, j', i' | 0 < a < b < |list1| && FoundBy(g, list1, j, i, list1[a]) && FoundBy(g, list1, j', i', list1[b])
      ensures j < j' || (j == j' && i < i')
    {
      var ja, ia := Origin(g, list, k, a);
      var jb, ib := Origin(g, list, k, b);
      FoundOnce(g, list1, ja, ia, j, i, list1[a]);
      FoundOnce(g, list1, jb, ib, j', i', list1[b]);
      if a >= |list| && ia >= ib { UnseenGrows(g, list[k], ia, ib, list); }
    }
  }

  lemma {:induction false} ShutAllFoundBy(g: Graph, list: seq<Name>, k: nat)
    requires forall a :: 0 < a < |list| ==> FoundBefore(g, list, k, a)
    ensures AllFoundBy(g, list, k)
  {}

  lemma {:induction false} OrderAt(g: Graph, src: Name, k: nat)
    ensures var list := Discovered(g, src, k);
      |list| > 0 && list[0] == src && Expands(g, list, k) && AllFoundBy(g, list, k) && InFindingOrder(g, list)
  {
    hide Unseen, Edge, FoundBy;
    if k > 0 {
      OrderAt(g, src, k - 1);
      var list := Discovered(g, src, k - 1);
      if k - 1 < |list| && list[k - 1] in g {
        ExpandsNext(g, list, k - 1);
        OrderNext(g, list, k - 1);
      } else {
        ExpandsPast(g, list, k - 1);
      }
    }
  }

  lemma {:induction false} ExpandsPast(g: Graph, list: seq<Name>, k: nat)
    requires Expands(g, list, k) && (k >= |list| || list[k] !in g) && AllFoundBy(g, list, k)
    ensures Expands(g, list, k + 1) && AllFoundBy(g, list, k + 1)
  {
    var n := k + 1;
    forall a | 0 < a < |list| ensures FoundBefore(g, list, n, a) {
      assert FoundBefore(g, list, k, a);
    }
  }

  /** The search lists `src`, and then every node in the order of the nodes by which they are found
      first, and, when it is the same one, of its links to them. */
  lemma {:induction false} OrderLists(g: Graph, src: Name)
    ensures var list := Order(g, src);
      |list| > 0 && list[0] == src && AllFoundBy(g, list, |list|) && InFindingOrder(g, list)
  {
    OrderAt(g, src, |g.Keys|);
    var list := Order(g, src);
    hide FoundBy, Discovered, InFindingOrder;
    forall a | 0 < a < |list| ensures FoundBefore(g, list, |list|, a) {
      assert FoundBefore(g, list, |g.Keys|, a);
    }
  }

  lemma {:induction false} QueueLabels(g: Graph, src: Name, lab: map<Name, nat>, list: seq<Name>, ith: nat, n: Name)
    requires Queue(g, src, lab, list, ith)
    ensures n in lab <==> n in list
  {}

  /** Label every node that can be reached with its distance from `src`. The nodes are found in
      the order `order`. */
  method Label(g: Graph, src: Name) returns (lab: map<Name, nat>, ghost order: seq<Name>)
    requires Built(g) && src in g
    ensures Labelled(g, src, lab, 0) && Closed(g, lab) && Distances(g, src, lab)
    ensures order == Order(g, src) && forall n :: n in order <==> n in lab
  {
    hide *;
    var list := [src];
    lab := map[src := 0];
    var ith := 0;
    QueueStart(g, src);
    DiscoveredStart(g, src);
    while ith < |list|
      invariant Queue(g, src, lab, list, ith) && Expanded(g, lab, list, ith) && ith <= |list|
      invariant list == Discovered(g, src, ith)
      decreases |g.Keys| - ith
    {
      ghost var was := list;
      QueueAt(g, src, lab, list, ith);
      var now := list[ith];
      var id := lab[now];
      var neighbors := g[now];
      UnseenStart(g, now, was);
      for i := 0 to |neighbors|
        invariant Queue(g, src, lab, list, ith) && Expanded(g, lab, list, ith)
        invariant ith < |list| && list[ith] == now && now in lab && lab[now] == id
        invariant forall k :: 0 <= k < i ==> neighbors[k].name in lab && lab[neighbors[k].name] <= id + 1
        invariant list == was + Unseen(g, now, i, was)
      {
        var name := neighbors[i].name;
        QueueAt(g, src, lab, list, ith);
        QueueLabels(g, src, lab, list, ith, name);
        UnseenStep(g, now, i, was);
        if name in lab {
          continue;
        }
        NeighborEdge(g, now, i);
        QueueAdd(g, src, lab, list, ith, name);
        ExpandedAdd(g, lab, list, ith, name, id + 1);
        list := list + [name];
        lab := lab[name := id + 1];
      }
      DiscoveredNext(g, src, ith);
      QueueNext(g, src, lab, list, ith);
      QueueAt(g, src, lab, list, ith);
      ith := ith + 1;
    }
    QueueAt(g, src, lab, list, ith);
    DiscoveredDone(g, src, ith, |g.Keys|);
    OrderIs(g, src);
    forall n ensures n in list <==> n in lab { QueueLabels(g, src, lab, list, ith, n); }
    order := list;
    QueueDone(g, src, lab, list);
    ClosedDistances(g, src, lab);
  }
}
