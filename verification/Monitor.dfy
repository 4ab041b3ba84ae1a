/** Where to place monitors between two hosts: the one path, or a node on each of the paths. */
module Monitor {
  import opened Finite
  import opened Topology
  import opened Routes
  import opened Delivery

  // The next-hop table of a full search from `dst`.
  ghost predicate Towards(g: Graph, dst: Name, lab: map<Name, nat>, path: map<Name, seq<Name>>)
  {
    Built(g) && Labelled(g, dst, lab, 0) && Closed(g, lab) && NextHops(g, dst, lab, path)
  }

  ghost predicate OneShortest(g: Graph, u: Name, v: Name)
  {
    exists p :: Shortest(g, u, v, p) && forall q :: Shortest(g, u, v, q) ==> q == p
  }

  // Each step of the path has a single link.
  ghost predicate SingleLinks(g: Graph, p: seq<Name>)
  {
    forall i :: 0 <= i < |p| - 1 ==> Links(g, p[i + 1], p[i]) == 1
  }

  // There is only one shortest path, parallel links being told apart.
  ghost predicate OneWay(g: Graph, u: Name, v: Name)
  {
    exists p :: Shortest(g, u, v, p) && (forall q :: Shortest(g, u, v, q) ==> q == p) && SingleLinks(g, p)
  }

  /** Without parallel links that is the only shortest path. */
  lemma {:induction false} SimpleOneWay(g: Graph, u: Name, v: Name)
    requires Built(g) && Simple(g)
    ensures OneWay(g, u, v) <==> OneShortest(g, u, v)
  {
    if p :| Shortest(g, u, v, p) && forall q :: Shortest(g, u, v, q) ==> q == p {
      forall i | 0 <= i < |p| - 1 ensures Links(g, p[i + 1], p[i]) == 1 {
        assert Edge(g, p[i], p[i + 1]);
        assert Edge(g, p[i + 1], p[i]);
        CountNone(g[p[i + 1]], p[i]);
      }
      assert SingleLinks(g, p);
    }
  }

  ghost predicate Inside(q: seq<Name>, m: Name)
  {
    exists k :: 0 < k < |q| - 1 && q[k] == m
  }

  // `m` lies on a shortest path and is none of its ends.
  ghost predicate BetweenOnShortest(g: Graph, u: Name, v: Name, m: Name)
  {
    exists q :: Shortest(g, u, v, q) && Inside(q, m)
  }

  // `q` visits the set of nodes exactly once.
  ghost predicate CrossesOnce(q: seq<Name>, nodes: seq<Name>)
  {
    exists i :: 0 <= i < |q| && q[i] in nodes && forall j :: 0 <= j < |q| && q[j] in nodes ==> j == i
  }

  ghost predicate FollowsFromTo(path: map<Name, seq<Name>>, p: seq<Name>, u: Name, v: Name)
  {
    Follows(path, p) && p[0] == u && p[|p| - 1] == v
  }

  // Some way to `dst` from every node with next hops.
  lemma {:induction false} Complete(g: Graph, dst: Name, lab: map<Name, nat>, path: map<Name, seq<Name>>,
      x: Name) returns (p: seq<Name>)
    requires Towards(g, dst, lab, path) && x in lab
    ensures FollowsFromTo(path, p, x, dst)
    decreases lab[x]
  {
    if x == dst {
      p := [x];
    } else {
      var m := path[x][0];
      assert Parent(g, lab, m, x);
      var q := Complete(g, dst, lab, path, m);
      p := [x] + q;
      Prepend(path, x, q);
    }
  }

  lemma {:induction false} Prepend(path: map<Name, seq<Name>>, x: Name, q: seq<Name>)
    requires Follows(path, q) && x in path && q[0] in path[x]
    ensures Follows(path, [x] + q)
  {
    var p := [x] + q;
    forall i | 0 <= i < |p| - 1 ensures p[i] in path && p[i + 1] in path[p[i]] {
      assert i > 0 ==> q[i - 1] in path && q[i - 1 + 1] in path[q[i - 1]];
    }
  }

  /** The shortest paths to `dst` are exactly the ways the table allows. */
  lemma {:induction false} ShortestFollows(g: Graph, dst: Name, lab: map<Name, nat>, path: map<Name, seq<Name>>,
      src: Name, q: seq<Name>)
    requires Towards(g, dst, lab, path) && src in lab
    ensures Shortest(g, src, dst, q) <==> FollowsFromTo(path, q, src, dst)
  {
    assert Follows(path, q) || Walk(g, q) ==> |q| > 0;
    var c := Complete(g, dst, lab, path, src);
    assert |c| > 0;
    ShortestPaths(g, dst, lab, path, c);
    hide Follows, NextHops, Built, Closed, Labelled;
    if |q| > 0 && q[0] == src && q[|q| - 1] == dst { ShortestPaths(g, dst, lab, path, q); }
    forall w | WalkFromTo(g, w, src, dst) ensures |w| >= lab[src] + 1 {
      WalkDescends(g, dst, lab, w, 0);
    }
  }

  lemma {:induction false} TowardsSrc(g: Graph, dst: Name, lab: map<Name, nat>, path: map<Name, seq<Name>>, src: Name)
    requires Towards(g, dst, lab, path) && Distances(g, dst, lab) && src in g
    ensures src in path <==> src != dst && Reachable(g, src, dst)
  {
    if src in lab && src != dst {
      var c := Complete(g, dst, lab, path, src);
      ShortestFollows(g, dst, lab, path, src, c);
    }
    if p :| WalkFromTo(g, p, src, dst) {
      WalkDescends(g, dst, lab, p, 0);
    }
  }

  // Every shortest path starts with `pre`.
  ghost predicate Forced(g: Graph, src: Name, dst: Name, path: map<Name, seq<Name>>, pre: seq<Name>)
  {
    Follows(path, pre) && pre[0] == src && forall q :: Shortest(g, src, dst, q) ==> pre <= q
  }

  lemma {:induction false} ForcedStep(g: Graph, dst: Name, lab: map<Name, nat>, path: map<Name, seq<Name>>,
      src: Name, pre: seq<Name>)
    requires Towards(g, dst, lab, path) && src in lab && Forced(g, src, dst, path, pre)
    requires var cur := pre[|pre| - 1]; cur in path && |path[cur]| == 1
    ensures Forced(g, src, dst, path, pre + [path[pre[|pre| - 1]][0]])
    ensures path[pre[|pre| - 1]][0] in lab && lab[path[pre[|pre| - 1]][0]] < lab[pre[|pre| - 1]]
  {
    var cur := pre[|pre| - 1];
    var m := path[cur][0];
    assert Parent(g, lab, m, cur) && cur != dst;
    FollowsAppend(path, pre, m);
    forall q | Shortest(g, src, dst, q) ensures pre + [m] <= q {
      hide Towards, Shortest, Follows;
      ShortestFollows(g, dst, lab, path, src, q);
      OnlyHop(path, pre, m, q, dst);
    }
    hide Towards, Shortest, Follows;
    assert (pre + [m])[0] == pre[0];
  }

  lemma {:induction false} SingleStart(g: Graph, src: Name)
    ensures SingleLinks(g, [src])
  {}

  // A next hop that is the only one listed has one link.
  lemma {:induction false} SingleStep(g: Graph, dst: Name, lab: map<Name, nat>, path: map<Name, seq<Name>>,
      pre: seq<Name>, cur: Name)
    requires Towards(g, dst, lab, path) && SingleLinks(g, pre) && |pre| > 0 && pre[|pre| - 1] == cur
    requires cur in path && |path[cur]| == 1
    ensures SingleLinks(g, pre + [path[cur][0]])
  {
    var m := path[cur][0];
    assert path[cur] == [m];
    NearerLabels(g, dst, lab, path, cur);
    hide Towards, Links;
    var pre1 := pre + [m];
    forall i | 0 <= i < |pre1| - 1 ensures Links(g, pre1[i + 1], pre1[i]) == 1 {
      if i < |pre| - 1 { OpenSingle(g, pre, i); }
    }
  }

  lemma {:induction false} FollowsAppend(path: map<Name, seq<Name>>, pre: seq<Name>, m: Name)
    requires Follows(path, pre) && pre[|pre| - 1] in path && m in path[pre[|pre| - 1]]
    ensures Follows(path, pre + [m])
  {
    var pre1 := pre + [m];
    forall i | 0 <= i < |pre1| - 1 ensures pre1[i] in path && pre1[i + 1] in path[pre1[i]] {
      assert i < |pre| - 1 ==> pre[i] in path && pre[i + 1] in path[pre[i]];
    }
  }

  // A way to `dst` that starts with `pre` goes on with the only next hop.
  lemma {:induction false} OnlyHop(path: map<Name, seq<Name>>, pre: seq<Name>, m: Name, q: seq<Name>, dst: Name)
    requires |pre| > 0 && pre <= q && Follows(path, q) && q[|q| - 1] == dst && pre[|pre| - 1] != dst
    requires pre[|pre| - 1] in path && path[pre[|pre| - 1]] == [m]
    ensures pre + [m] <= q
  {
    var k := |pre| - 1;
    assert q[k] == pre[k] && k < |q| - 1;
    assert q[k] in path && q[k + 1] in path[q[k]];
    assert q[..|pre| + 1] == pre + [q[|pre|]];
  }

  lemma {:induction false} ForcedStart(g: Graph, src: Name, dst: Name, path: map<Name, seq<Name>>)
    ensures Forced(g, src, dst, path, [src])
  {}

  // A forced way that has arrived is the only shortest path.
  lemma {:induction false} ForcedEnd(g: Graph, dst: Name, lab: map<Name, nat>, path: map<Name, seq<Name>>,
      src: Name, p: seq<Name>)
    requires Towards(g, dst, lab, path) && src in lab && Forced(g, src, dst, path, p) && p[|p| - 1] == dst
    requires SingleLinks(g, p)
    ensures Shortest(g, src, dst, p) && OneWay(g, src, dst)
  {
    ShortestFollows(g, dst, lab, path, src, p);
    hide Towards, Follows, SingleLinks;
    forall q | Shortest(g, src, dst, q) ensures q == p {}
  }

  lemma {:induction false} Join(path: map<Name, seq<Name>>, pre: seq<Name>, p: seq<Name>, u: Name, v: Name)
    requires Follows(path, pre) && pre[0] == u && pre[|pre| - 1] in path
    requires Follows(path, p) && p[0] in path[pre[|pre| - 1]] && p[|p| - 1] == v
    ensures FollowsFromTo(path, pre + p, u, v)
  {
    var w := pre + p;
    forall i | 0 <= i < |w| - 1 ensures w[i] in path && w[i + 1] in path[w[i]] {
      if i < |pre| - 1 {
        assert pre[i] in path && pre[i + 1] in path[pre[i]];
      } else if i >= |pre| {
        var k := i - |pre|;
        assert p[k] in path && p[k + 1] in path[p[k]];
      }
    }
  }

  // Any next hop of the last node of a forced way lies on a shortest path just behind it.
  lemma {:induction false} Branch(g: Graph, dst: Name, lab: map<Name, nat>, path: map<Name, seq<Name>>, src: Name,
      pre: seq<Name>, m: Name) returns (q: seq<Name>)
    requires Towards(g, dst, lab, path) && src in lab && Forced(g, src, dst, path, pre)
    requires var cur := pre[|pre| - 1]; cur in path && m in path[cur]
    ensures Shortest(g, src, dst, q) && |q| > |pre| && q[|pre|] == m
  {
    assert Parent(g, lab, m, pre[|pre| - 1]);
    var c := Complete(g, dst, lab, path, m);
    Join(path, pre, c, src, dst);
    q := pre + c;
    ShortestFollows(g, dst, lab, path, src, q);
  }

  // `pre` is forced and ends in `cur`, whose next hops are `hops`.
  ghost predicate ForcedTo(g: Graph, src: Name, dst: Name, path: map<Name, seq<Name>>, pre: seq<Name>, cur: Name,
      hops: seq<Name>)
  {
    Forced(g, src, dst, path, pre) && pre[|pre| - 1] == cur && cur in path && path[cur] == hops
  }

  lemma {:induction false} NearerLabels(g: Graph, dst: Name, lab: map<Name, nat>, path: map<Name, seq<Name>>, cur: Name)
    requires Towards(g, dst, lab, path) && cur in path
    ensures cur in lab && cur != dst
    ensures forall m :: m in path[cur] ==> m in lab && lab[m] + 1 == lab[cur]
    ensures forall m :: m in path[cur] ==> multiset(path[cur])[m] == Links(g, m, cur)
  {
    forall m | m in path[cur] ensures m in lab && lab[m] + 1 == lab[cur] {
      assert Parent(g, lab, m, cur);
    }
  }

  /** Where a forced way splits, the next hops are a cut: no shortest path misses them and
      none passes two of them. */
  lemma {:induction false} Crossing(g: Graph, dst: Name, lab: map<Name, nat>, path: map<Name, seq<Name>>, src: Name,
      pre: seq<Name>, cur: Name, hops: seq<Name>, q: seq<Name>)
    requires Towards(g, dst, lab, path) && src in lab
    requires ForcedTo(g, src, dst, path, pre, cur, hops) && Shortest(g, src, dst, q)
    ensures CrossesOnce(q, hops)
  {
    var k := |pre|;
    ShortestFollows(g, dst, lab, path, src, q);
    NearerLabels(g, dst, lab, path, cur);
    assert q[k - 1] == cur && k < |q|;
    assert q[k - 1] in path && q[k - 1 + 1] in path[q[k - 1]];
    FollowsLabels(g, dst, lab, path, q, k - 1);
    forall j | 0 <= j < |q| && q[j] in hops ensures j == k {
      FollowsLabels(g, dst, lab, path, q, j);
    }
  }

  lemma {:induction false} Interior(g: Graph, dst: Name, lab: map<Name, nat>, path: map<Name, seq<Name>>, src: Name,
      pre: seq<Name>, cur: Name, hops: seq<Name>, m: Name)
    requires Towards(g, dst, lab, path) && src in lab
    requires ForcedTo(g, src, dst, path, pre, cur, hops) && m in hops && m != dst
    ensures BetweenOnShortest(g, src, dst, m)
  {
    NearerLabels(g, dst, lab, path, cur);
    var q := Branch(g, dst, lab, path, src, pre, m);
    assert q[|q| - 1] == dst;
    assert |pre| > 0;
    hide Towards, Forced, Shortest;
    assert q[|pre|] == m;
  }

  lemma {:induction false} OpenForced(g: Graph, src: Name, dst: Name, path: map<Name, seq<Name>>, pre: seq<Name>,
      cur: Name, hops: seq<Name>)
    requires ForcedTo(g, src, dst, path, pre, cur, hops)
    ensures Forced(g, src, dst, path, pre) && |pre| > 0 && pre[|pre| - 1] == cur && cur in path && path[cur] == hops
  {}

  // With two next hops listed, another node or another link leads on.
  lemma {:induction false} TwoHops(hops: seq<Name>, m: Name)
    requires |hops| > 1 && multiset(hops)[m] <= 1
    ensures exists n :: n in hops && n != m
  {
    var a, b := hops[..1], hops[1..];
    assert hops == a + b && a[0] in a && b[0] in b;
    assert multiset(hops)[m] == multiset(a)[m] + multiset(b)[m];
    var n := if hops[0] == m then hops[1] else hops[0];
    assert n in hops;
  }

  lemma {:induction false} NotOneWay(g: Graph, dst: Name, lab: map<Name, nat>, path: map<Name, seq<Name>>,
      src: Name, pre: seq<Name>, cur: Name, hops: seq<Name>)
    requires Towards(g, dst, lab, path) && src in lab && ForcedTo(g, src, dst, path, pre, cur, hops) && |hops| > 1
    ensures !OneWay(g, src, dst)
  {
    hide Towards, Shortest, Forced, SingleLinks, Links;
    OpenForced(g, src, dst, path, pre, cur, hops);
    if p :| Shortest(g, src, dst, p) && (forall q :: Shortest(g, src, dst, q) ==> q == p) && SingleLinks(g, p) {
      NearerLabels(g, dst, lab, path, cur);
      var q := Branch(g, dst, lab, path, src, pre, hops[0]);
      var m := hops[0];
      assert p[|pre|] == m;
      OpenSingle(g, p, |pre| - 1);
      assert pre <= p by { OpenPrefix(g, src, dst, path, pre, p); }
      TwoHops(hops, m);
      var n :| n in hops && n != m;
      var q' := Branch(g, dst, lab, path, src, pre, n);
      assert false;
    }
  }

  lemma {:induction false} OpenSingle(g: Graph, p: seq<Name>, i: nat)
    requires SingleLinks(g, p) && i < |p| - 1
    ensures Links(g, p[i + 1], p[i]) == 1
  {}

  lemma {:induction false} OpenPrefix(g: Graph, src: Name, dst: Name, path: map<Name, seq<Name>>, pre: seq<Name>,
      q: seq<Name>)
    requires Forced(g, src, dst, path, pre) && Shortest(g, src, dst, q)
    ensures pre <= q
  {}

  // Every shortest path visits these nodes exactly once, and all but `dst` lie between the ends.
  ghost predicate Cut(g: Graph, src: Name, dst: Name, nodes: seq<Name>)
  {
    && |nodes| > 1
    && (forall q :: Shortest(g, src, dst, q) ==> CrossesOnce(q, nodes))
    && (forall m :: m in nodes ==> m == dst || BetweenOnShortest(g, src, dst, m))
  }

  lemma {:induction false} SplitCuts(g: Graph, dst: Name, lab: map<Name, nat>, path: map<Name, seq<Name>>,
      src: Name, pre: seq<Name>, cur: Name, hops: seq<Name>)
    requires Towards(g, dst, lab, path) && src in lab && ForcedTo(g, src, dst, path, pre, cur, hops) && |hops| > 1
    ensures !OneWay(g, src, dst) && Cut(g, src, dst, hops)
    ensures Simple(g) ==> NoDup(hops) && dst !in hops
  {
    hide Towards, Shortest, Forced, OneWay, CrossesOnce, BetweenOnShortest, Links, NoDup;
    OpenForced(g, src, dst, path, pre, cur, hops);
    NotOneWay(g, dst, lab, path, src, pre, cur, hops);
    NearerLabels(g, dst, lab, path, cur);
    forall m | m in hops && m != dst ensures BetweenOnShortest(g, src, dst, m) {
      Interior(g, dst, lab, path, src, pre, cur, hops, m);
    }
    forall q | Shortest(g, src, dst, q) ensures CrossesOnce(q, hops) {
      Crossing(g, dst, lab, path, src, pre, cur, hops, q);
    }
    if Simple(g) {
      OnceNoDup(hops);
      if dst in hops { OnlyDst(g, dst, lab, path, cur); }
    }
  }

  // Some shortest path starts with `pre`.
  ghost predicate StartsWith(g: Graph, src: Name, dst: Name, pre: seq<Name>)
  {
    exists q :: Shortest(g, src, dst, q) && pre <= q
  }

  // All shortest paths start with `pre`, over single links, and go on from there to these nodes, each
  // listed once for each of its links.
  ghost predicate PartAfter(g: Graph, src: Name, dst: Name, pre: seq<Name>, nodes: seq<Name>)
  {
    && |pre| > 0 && SingleLinks(g, pre) && (forall q :: Shortest(g, src, dst, q) ==> pre <= q)
    && (forall m :: m in nodes <==> StartsWith(g, src, dst, pre + [m]))
    && (forall m :: m in nodes ==> multiset(nodes)[m] == Links(g, m, pre[|pre| - 1]))
  }

  // The nodes are those behind the first place where the shortest paths part.
  ghost predicate FirstParting(g: Graph, src: Name, dst: Name, nodes: seq<Name>)
  {
    exists pre :: PartAfter(g, src, dst, pre, nodes)
  }

  /** Where a forced way over single links splits is where the shortest paths part. */
  lemma {:induction false} SplitParts(g: Graph, dst: Name, lab: map<Name, nat>, path: map<Name, seq<Name>>, src: Name,
      pre: seq<Name>, cur: Name, hops: seq<Name>)
    requires Towards(g, dst, lab, path) && src in lab && ForcedTo(g, src, dst, path, pre, cur, hops)
    requires SingleLinks(g, pre)
    ensures FirstParting(g, src, dst, hops)
  {
    hide Towards, Shortest, SingleLinks, Links, Follows;
    OpenForced(g, src, dst, path, pre, cur, hops);
    NearerLabels(g, dst, lab, path, cur);
    forall m ensures m in hops <==> StartsWith(g, src, dst, pre + [m]) {
      if m in hops {
        var q := Branch(g, dst, lab, path, src, pre, m);
        assert q[..|pre| + 1] == pre + [m];
      }
      if q :| Shortest(g, src, dst, q) && pre + [m] <= q {
        ShortestFollows(g, dst, lab, path, src, q);
        HopFollowed(path, q, |pre| - 1);
        assert q[|pre|] == (pre + [m])[|pre|] == m;
      }
    }
    assert PartAfter(g, src, dst, pre, hops);
  }

  lemma {:induction false} HopFollowed(path: map<Name, seq<Name>>, q: seq<Name>, i: nat)
    requires Follows(path, q) && i + 1 < |q|
    ensures q[i] in path && q[i + 1] in path[q[i]]
  {}

  // Next to `dst`, the only next hop is `dst`.
  lemma {:induction false} OnlyDst(g: Graph, dst: Name, lab: map<Name, nat>, path: map<Name, seq<Name>>, cur: Name)
    requires Towards(g, dst, lab, path) && cur in path && multiset(path[cur])[dst] == 1
    ensures |path[cur]| == 1
  {
    NearerLabels(g, dst, lab, path, cur);
    forall m | m in path[cur] ensures m == dst {
      assert m == dst || HasParent(g, lab, m);
    }
    if |path[cur]| > 1 { TwoHops(path[cur], dst); }
  }

  /** The interior of the shortest path from `src` to `dst`, if there is only one, parallel links
      being told apart. */
  method GetSinglePathBetweenNodes(g: Graph, src: Name, dst: Name) returns (res: Search<(bool, seq<Name>)>)
    requires Built(g) && src in g && dst in g
    ensures res.Raised? <==> src == dst || !Reachable(g, src, dst)
    ensures res.Found? ==> (res.value.0 <==> OneWay(g, src, dst))
    ensures res.Found? && res.value.0 ==> Shortest(g, src, dst, [src] + res.value.1 + [dst])
    ensures res.Found? && !res.value.0 ==> res.value.1 == []
  {
    hide *;
    var path := GetReversePreNodes(g, dst);
    ghost var lab := HopLabels(g, dst, path);
    OpenTowards(g, dst, lab, path);
    TowardsSrc(g, dst, lab, path, src);
    if src !in path {
      return Raised;
    }
    OpenHop(g, dst, lab, path, src);
    ForcedStart(g, src, dst, path);
    SingleStart(g, src);
    var single: seq<Name> := [];
    var cur := src;
    ghost var pre := [src];
    while true
      invariant pre == [src] + single && pre[|pre| - 1] == cur && Forced(g, src, dst, path, pre) && SingleLinks(g, pre)
      invariant cur in path && cur in lab
      decreases if cur in lab then lab[cur] else 0
    {
      OpenHop(g, dst, lab, path, cur);
      var hops := path[cur];
      if |hops| > 1 {
        ShutForced(g, src, dst, path, pre, cur);
        SplitCuts(g, dst, lab, path, src, pre, cur, hops);
        return Found((false, []));
      }
      var next := hops[0];
      ForcedStep(g, dst, lab, path, src, pre);
      SingleStep(g, dst, lab, path, pre, cur);
      pre := pre + [next];
      if next == dst {
        ForcedEnd(g, dst, lab, path, src, pre);
        break;
      }
      single := single + [next];
      OpenHop(g, dst, lab, path, next);
      cur := next;
    }
    return Found((true, single));
  }

  /** One node on each shortest path from `src` to `dst`, if there are several: the nodes behind the first
      place where they part. */
  method GetEcmpPathsBetweenNodes(g: Graph, src: Name, dst: Name) returns (res: Search<(bool, seq<Name>)>)
    requires Built(g) && src in g && dst in g
    ensures res.Raised? <==> src == dst || !Reachable(g, src, dst)
    ensures res.Found? ==> (res.value.0 <==> !OneWay(g, src, dst))
    ensures res.Found? && res.value.0 ==> Cut(g, src, dst, res.value.1) && FirstParting(g, src, dst, res.value.1)
    ensures res.Found? && res.value.0 && Simple(g) ==> NoDup(res.value.1) && dst !in res.value.1
    ensures res.Found? && !res.value.0 ==> res.value.1 == []
  {
    hide *;
    var path := GetReversePreNodes(g, dst);
    ghost var lab := HopLabels(g, dst, path);
    OpenTowards(g, dst, lab, path);
    TowardsSrc(g, dst, lab, path, src);
    if src !in path {
      return Raised;
    }
    OpenHop(g, dst, lab, path, src);
    ForcedStart(g, src, dst, path);
    SingleStart(g, src);
    ghost var pre := [src];
    var queue := [src];
    while |queue| > 0
      invariant |queue| <= 1 && |pre| > 0 && Forced(g, src, dst, path, pre) && SingleLinks(g, pre)
      invariant |queue| == 1 ==> queue[0] == pre[|pre| - 1] && queue[0] in path && queue[0] in lab
      invariant |queue| == 0 ==> OneWay(g, src, dst)
      decreases |queue|, if |queue| == 1 && queue[0] in lab then lab[queue[0]] else 0
    {
      var cur := queue[0];
      queue := queue[1..];
      OpenHop(g, dst, lab, path, cur);
      var hops := path[cur];
      if |hops| > 1 {
        ShutForced(g, src, dst, path, pre, cur);
        SplitCuts(g, dst, lab, path, src, pre, cur, hops);
        SplitParts(g, dst, lab, path, src, pre, cur, hops);
        return Found((true, hops));
      }
      ForcedStep(g, dst, lab, path, src, pre);
      SingleStep(g, dst, lab, path, pre, cur);
      pre := pre + [hops[0]];
      if hops[0] != dst {
        queue := queue + [hops[0]];
        OpenHop(g, dst, lab, path, hops[0]);
      } else {
        ForcedEnd(g, dst, lab, path, src, pre);
      }
    }
    return Found((false, []));
  }

  lemma {:induction false} OpenTowards(g: Graph, dst: Name, lab: map<Name, nat>, path: map<Name, seq<Name>>)
    requires Built(g) && Labelled(g, dst, lab, 0) && Closed(g, lab) && NextHops(g, dst, lab, path)
    ensures Towards(g, dst, lab, path)
  {}

  lemma {:induction false} ShutForced(g: Graph, src: Name, dst: Name, path: map<Name, seq<Name>>, pre: seq<Name>,
      cur: Name)
    requires Forced(g, src, dst, path, pre) && |pre| > 0 && pre[|pre| - 1] == cur && cur in path
    ensures ForcedTo(g, src, dst, path, pre, cur, path[cur])
  {}

  lemma {:induction false} OpenHop(g: Graph, dst: Name, lab: map<Name, nat>, path: map<Name, seq<Name>>, x: Name)
    requires Towards(g, dst, lab, path)
    ensures x in path <==> x in lab && x != dst
    ensures x in path ==> path[x] != []
  {}
}
