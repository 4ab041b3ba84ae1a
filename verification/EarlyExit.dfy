/** The per-pair search for all shortest paths, which stops as soon as it has seen `dst`. */
module EarlyExit {
  import opened Finite
  import opened Topology
  import opened Routes
  import opened Delivery
  import opened Monitor

  ghost predicate OnShortest(g: Graph, src: Name, dst: Name, n: Name)
  {
    exists p :: Shortest(g, src, dst, p) && n in p
  }

  ghost predicate Consecutive(p: seq<Name>, n: Name, m: Name)
  {
    exists i :: 0 <= i < |p| - 1 && p[i] == n && p[i + 1] == m
  }

  // Some shortest path goes from `n` straight to `m`.
  ghost predicate StepOnShortest(g: Graph, src: Name, dst: Name, n: Name, m: Name)
  {
    exists p :: Shortest(g, src, dst, p) && Consecutive(p, n, m)
  }

  /** The table holds the shortest paths from `src` to `dst` and nothing else, each step once
      for each link that makes it. */
  ghost predicate HoldsShortest(g: Graph, src: Name, dst: Name, path: map<Name, seq<Name>>)
  {
    && (forall n :: n in path <==> n != dst && OnShortest(g, src, dst, n))
    && (forall n, m :: n in path ==> (m in path[n] <==> StepOnShortest(g, src, dst, n, m)))
    && (forall n :: n in path ==> path[n] != [])
    && (forall n, m :: n in path && m in path[n] ==> multiset(path[n])[m] == Links(g, m, n))
  }

  // What the first pass leaves: distances, all of them up to one short of `dst`.
  ghost predicate Explored(g: Graph, src: Name, dst: Name, lab: map<Name, nat>, bound: nat)
  {
    Built(g) && Labelled(g, src, lab, bound) && dst in lab && lab[dst] <= bound + 1
  }

  // Labels counted backwards from `dst`.
  function Back(lab: map<Name, nat>, d: nat): map<Name, nat>
  {
    map x | x in lab && lab[x] <= d :: d - lab[x]
  }

  lemma {:induction false} LabelledMore(g: Graph, src: Name, lab: map<Name, nat>, bound: nat)
    requires Labelled(g, src, lab, 0)
    requires forall u, v :: u in lab && lab[u] < bound && Edge(g, u, v) ==> v in lab && lab[v] <= lab[u] + 1
    ensures Labelled(g, src, lab, bound)
  {
    hide Edge;
  }

  lemma {:induction false} Stopped(g: Graph, src: Name, lab: map<Name, nat>, list: seq<Name>, ith: nat)
    requires Queue(g, src, lab, list, ith) && Expanded(g, lab, list, ith) && ith < |list|
    ensures list[ith] in lab && Labelled(g, src, lab, lab[list[ith]])
  {
    hide Labelled, Edge;
    var bound := lab[list[ith]];
    forall u, v | u in lab && lab[u] < bound && Edge(g, u, v) ensures v in lab && lab[v] <= lab[u] + 1 {
      var j :| 0 <= j < |list| && list[j] == u;
      assert j < ith;
    }
    LabelledMore(g, src, lab, bound);
  }

  lemma {:induction false} Exhausted(g: Graph, src: Name, dst: Name, lab: map<Name, nat>)
    requires Labelled(g, src, lab, 0) && Closed(g, lab)
    ensures dst !in lab ==> !Reachable(g, src, dst)
    ensures dst in lab ==> Labelled(g, src, lab, lab[dst])
  {
    ClosedDistances(g, src, lab);
  }

  lemma {:induction false} ExploredReachable(g: Graph, src: Name, dst: Name, lab: map<Name, nat>, bound: nat)
    requires Explored(g, src, dst, lab, bound)
    ensures Reachable(g, src, dst)
  {
    var p := LabelWalk(g, src, lab, bound, dst);
  }

  lemma {:induction false} ShutExplored(g: Graph, src: Name, dst: Name, lab: map<Name, nat>, bound: nat)
    requires Built(g) && Labelled(g, src, lab, bound) && dst in lab && lab[dst] <= bound + 1
    ensures Explored(g, src, dst, lab, bound)
  {}

  // The first pass: label outwards from `src` until `dst` has a label.
  method Explore(g: Graph, src: Name, dst: Name) returns (lab: map<Name, nat>, ghost bound: nat)
    requires Built(g) && src in g
    ensures dst in lab <==> Reachable(g, src, dst)
    ensures dst in lab ==> Explored(g, src, dst, lab, bound)
  {
    hide *;
    var list := [src];
    lab := map[src := 0];
    bound := 0;
    var ith := 0;
    var reached := false;
    QueueStart(g, src);
    while ith < |list|
      invariant Queue(g, src, lab, list, ith) && Expanded(g, lab, list, ith) && ith <= |list| && !reached
      decreases |g.Keys| - ith
    {
      QueueAt(g, src, lab, list, ith);
      var now := list[ith];
      var id := lab[now];
      var neighbors := g[now];
      for i := 0 to |neighbors|
        invariant Queue(g, src, lab, list, ith) && Expanded(g, lab, list, ith) && !reached
        invariant ith < |list| && list[ith] == now && now in lab && lab[now] == id
        invariant forall k :: 0 <= k < i ==> neighbors[k].name in lab && lab[neighbors[k].name] <= id + 1
      {
        var name := neighbors[i].name;
        QueueAt(g, src, lab, list, ith);
        if name in lab {
          continue;
        }
        NeighborEdge(g, now, i);
        QueueAdd(g, src, lab, list, ith, name);
        ExpandedAdd(g, lab, list, ith, name, id + 1);
        list := list + [name];
        lab := lab[name := id + 1];
        if name == dst {
          reached := true;
          Stopped(g, src, lab, list, ith);
          bound := id;
          break;
        }
      }
      if reached {
        break;
      }
      QueueNext(g, src, lab, list, ith);
      QueueAt(g, src, lab, list, ith);
      ith := ith + 1;
    }
    if !reached {
      QueueDone(g, src, lab, list);
      Exhausted(g, src, dst, lab);
      bound := if dst in lab then lab[dst] else 0;
    }
    if dst in lab {
      ShutExplored(g, src, dst, lab, bound);
      ExploredReachable(g, src, dst, lab, bound);
    }
  }

  // What the second pass sees at a neighbour of the node being expanded.
  lemma {:induction false} BackAt(g: Graph, src: Name, dst: Name, lab: map<Name, nat>, bound: nat, path: map<Name,
      seq<Name>>, list: seq<Name>, ith: nat, i: nat)
    requires Explored(g, src, dst, lab, bound) && Tracing(g, dst, Back(lab, lab[dst]), path, list, ith, i)
    ensures ith <= |list| <= |g.Keys|
    ensures var back := Back(lab, lab[dst]); dst in back && back[dst] == 0
    ensures forall k :: 0 <= k < |list| ==> list[k] in lab && list[k] in g
    ensures ith < |list| && i < |g[list[ith]]| ==>
      var n := g[list[ith]][i].name;
      Parent(g, Back(lab, lab[dst]), list[ith], n) <==> n in lab && lab[n] + 1 == lab[list[ith]]
  {
    var back := Back(lab, lab[dst]);
    assert dst in back;
    forall x | x in list ensures x in g && x in back && x in lab {}
    NoDupSize(list, g.Keys);
    if ith < |list| && i < |g[list[ith]]| {
      var now, n := list[ith], g[list[ith]][i].name;
      assert now in list;
      assert Edge(g, now, n);
      assert n in lab && lab[n] + 1 == lab[now] ==> n in back;
    }
  }

  lemma {:induction false} WalkJoin(g: Graph, p: seq<Name>, q: seq<Name>)
    requires Walk(g, p) && Walk(g, q) && Edge(g, p[|p| - 1], q[0])
    ensures Walk(g, p + q)
  {
    var w := p + q;
    forall i | 0 <= i < |w| - 1 ensures Edge(g, w[i], w[i + 1]) {
      if i < |p| - 1 {
        assert Edge(g, p[i], p[i + 1]);
      } else if i >= |p| {
        var k := i - |p|;
        assert Edge(g, q[k], q[k + 1]);
      }
    }
  }

  lemma {:induction false} WalkDrop(g: Graph, p: seq<Name>, k: nat)
    requires Built(g) && Walk(g, p) && k < |p|
    ensures Walk(g, p[k..])
  {
    if k > 0 { assert Edge(g, p[k - 1], p[k - 1 + 1]); }
    var q := p[k..];
    forall i | 0 <= i < |q| - 1 ensures Edge(g, q[i], q[i + 1]) {
      var j := k + i;
      assert Edge(g, p[j], p[j + 1]);
    }
  }

  lemma {:induction false} ShortestIs(g: Graph, src: Name, dst: Name, lab: map<Name, nat>, bound: nat, p: seq<Name>)
    requires Explored(g, src, dst, lab, bound)
    ensures Shortest(g, src, dst, p) <==> WalkFromTo(g, p, src, dst) && |p| == lab[dst] + 1
    ensures WalkFromTo(g, p, src, dst) ==> |p| >= lab[dst] + 1
  {
    LabelsAreDistances(g, src, lab, bound, dst);
  }

  // Along a shortest path the labels count the hops.
  lemma {:induction false} ShortestLabels(g: Graph, src: Name, dst: Name, lab: map<Name, nat>, bound: nat,
      p: seq<Name>, i: nat)
    requires Explored(g, src, dst, lab, bound) && Shortest(g, src, dst, p) && i < |p|
    ensures |p| == lab[dst] + 1 && p[i] in lab && lab[p[i]] == i
  {
    hide *;
    OpenExplored(g, src, dst, lab, bound);
    ShortestIs(g, src, dst, lab, bound, p);
    OpenWalk(g, p, src, dst, i);
    if i < |p| - 1 {
      WalkLabel(g, src, lab, bound, p, i);
      var w := LabelWalk(g, src, lab, bound, p[i]);
      WalkDrop(g, p, i + 1);
      Detour(g, w, p[i + 1..], src, p[i], dst);
      ShortestIs(g, src, dst, lab, bound, w + p[i + 1..]);
    }
  }

  lemma {:induction false} OpenExplored(g: Graph, src: Name, dst: Name, lab: map<Name, nat>, bound: nat)
    requires Explored(g, src, dst, lab, bound)
    ensures Built(g) && Labelled(g, src, lab, bound) && dst in lab && lab[dst] <= bound + 1
  {}

  lemma {:induction false} OpenWalk(g: Graph, p: seq<Name>, u: Name, v: Name, i: nat)
    requires WalkFromTo(g, p, u, v) && i < |p|
    ensures Walk(g, p) && p[0] == u && p[|p| - 1] == v
    ensures i < |p| - 1 ==> Edge(g, p[i], p[i + 1])
  {}

  // A walk to `x`, and on from a neighbour of `x`.
  lemma {:induction false} Detour(g: Graph, w: seq<Name>, q: seq<Name>, u: Name, x: Name, v: Name)
    requires WalkFromTo(g, w, u, x) && Walk(g, q) && |q| > 0 && Edge(g, x, q[0]) && q[|q| - 1] == v
    ensures WalkFromTo(g, w + q, u, v)
  {
    WalkJoin(g, w, q);
  }

  // Every step of a shortest path is entered.
  lemma {:induction false} StepTraced(g: Graph, src: Name, dst: Name, lab: map<Name, nat>, bound: nat,
      path: map<Name, seq<Name>>, list: seq<Name>, p: seq<Name>, i: nat)
    requires Explored(g, src, dst, lab, bound) && Tracing(g, dst, Back(lab, lab[dst]), path, list, |list|, 0)
    requires Shortest(g, src, dst, p) && i < |p|
    ensures p[i] in list
    ensures i < |p| - 1 ==> p[i] in path && p[i + 1] in path[p[i]]
    decreases |p| - i
  {
    if i == |p| - 1 {
      assert p[i] == list[0];
    } else {
      StepTraced(g, src, dst, lab, bound, path, list, p, i + 1);
      ShortestLabels(g, src, dst, lab, bound, p, i);
      ShortestLabels(g, src, dst, lab, bound, p, i + 1);
      assert Edge(g, p[i], p[i + 1]);
      assert Parent(g, Back(lab, lab[dst]), p[i + 1], p[i]);
      assert Before(list, |list|, p[i + 1]);
      assert Entered(g, list, |list|, 0, p[i + 1], p[i]);
    }
  }

  lemma {:induction false} TracedParent(g: Graph, dst: Name, back: map<Name, nat>, path: map<Name, seq<Name>>,
      list: seq<Name>, n: Name, m: Name)
    requires Built(g) && Tracing(g, dst, back, path, list, |list|, 0) && n in path && m in path[n]
    ensures m in list && n in back && m in back && back[m] + 1 == back[n] && Edge(g, n, m)
  {
    assert Parent(g, back, m, n) && Entered(g, list, |list|, 0, m, n);
  }

  // A walk down to `dst` from every node entered.
  lemma {:induction false} DescentWalk(g: Graph, dst: Name, back: map<Name, nat>, path: map<Name, seq<Name>>,
      list: seq<Name>, n: Name) returns (c: seq<Name>)
    requires Built(g) && Tracing(g, dst, back, path, list, |list|, 0)
    requires dst in g && dst in back && back[dst] == 0 && n in list
    ensures n in back && WalkFromTo(g, c, n, dst) && |c| == back[n] + 1
    decreases if n in back then back[n] else 0
  {
    if n == dst {
      c := [dst];
    } else {
      var m := path[n][0];
      TracedParent(g, dst, back, path, list, n, m);
      var rest := DescentWalk(g, dst, back, path, list, m);
      assert Walk(g, [n]);
      WalkJoin(g, [n], rest);
      c := [n] + rest;
    }
  }

  // Every step entered is on a shortest path.
  lemma {:induction false} TracedStep(g: Graph, src: Name, dst: Name, lab: map<Name, nat>, bound: nat,
      path: map<Name, seq<Name>>, list: seq<Name>, n: Name, m: Name) returns (p: seq<Name>)
    requires Explored(g, src, dst, lab, bound) && Tracing(g, dst, Back(lab, lab[dst]), path, list, |list|, 0)
    requires n in path && m in path[n]
    ensures Shortest(g, src, dst, p) && n in p && Consecutive(p, n, m)
  {
    var back := Back(lab, lab[dst]);
    TracedParent(g, dst, back, path, list, n, m);
    assert dst in g && dst in back;
    var c := DescentWalk(g, dst, back, path, list, m);
    var w := LabelWalk(g, src, lab, bound, n);
    hide Tracing;
    WalkJoin(g, w, c);
    p := w + c;
    ShortestIs(g, src, dst, lab, bound, p);
    var k := |w| - 1;
    assert p[k] == n && p[k + 1] == m;
  }

  lemma {:induction false} BackCounts(g: Graph, dst: Name, back: map<Name, nat>, path: map<Name, seq<Name>>,
      list: seq<Name>)
    requires Tracing(g, dst, back, path, list, |list|, 0) && Counted(g, path, list, |list|, 0)
    ensures forall n, m :: n in path && m in path[n] ==> multiset(path[n])[m] == Links(g, m, n)
  {
    forall n, m | n in path && m in path[n] ensures multiset(path[n])[m] == Links(g, m, n) {
      assert Entered(g, list, |list|, 0, m, n);
    }
  }

  lemma {:induction false} BackDone(g: Graph, src: Name, dst: Name, lab: map<Name, nat>, bound: nat, path: map<Name,
      seq<Name>>, list: seq<Name>)
    requires Explored(g, src, dst, lab, bound) && Tracing(g, dst, Back(lab, lab[dst]), path, list, |list|, 0)
    requires Counted(g, path, list, |list|, 0)
    ensures HoldsShortest(g, src, dst, path)
  {
    BackCounts(g, dst, Back(lab, lab[dst]), path, list);
    hide Counted;
    forall n ensures n in path ==> n != dst && OnShortest(g, src, dst, n) && path[n] != [] {
      if n in path {
        var p := TracedStep(g, src, dst, lab, bound, path, list, n, path[n][0]);
      }
    }
    hide Explored;
    forall n | n != dst && OnShortest(g, src, dst, n) ensures n in path {
      var p :| Shortest(g, src, dst, p) && n in p;
      var i :| 0 <= i < |p| && p[i] == n;
      StepTraced(g, src, dst, lab, bound, path, list, p, i);
    }
    hide Tracing;
    forall n, m | n in path && m in path[n] ensures StepOnShortest(g, src, dst, n, m) {
      var p := TracedStep(g, src, dst, lab, bound, path, list, n, m);
    }
    forall n, m | n in path && StepOnShortest(g, src, dst, n, m) ensures m in path[n] {
      var p :| Shortest(g, src, dst, p) && Consecutive(p, n, m);
      var i :| 0 <= i < |p| - 1 && p[i] == n && p[i + 1] == m;
      StepTraced(g, src, dst, lab, bound, path, list, p, i);
    }
  }

  /** All the shortest paths from `src` to `dst`, as next hops of the nodes on them. */
  method GetShortestPathsFromSrcToDst(g: Graph, src: Name, dst: Name) returns (res: Search<map<Name, seq<Name>>>)
    requires Built(g) && src in g
    ensures res.Raised? <==> !Reachable(g, src, dst)
    ensures res.Found? ==> HoldsShortest(g, src, dst, res.value)
  {
    hide *;
    var visited, bound := Explore(g, src, dst);
    if dst !in visited {
      return Raised;
    }
    ghost var back := Back(visited, visited[dst]);
    var path: map<Name, seq<Name>> := map[];
    var list := [dst];
    var ith := 0;
    TraceStart(g, dst, back);
    CountedStart(g, dst);
    while ith < |list|
      invariant Tracing(g, dst, back, path, list, ith, 0) && Counted(g, path, list, ith, 0) && ith <= |list|
      decreases |g.Keys| - ith
    {
      BackAt(g, src, dst, visited, bound, path, list, ith, 0);
      var now := list[ith];
      var id: int := visited[now];
      var neighbors := g[now];
      for i := 0 to |neighbors|
        invariant ith < |list| && list[ith] == now
        invariant Tracing(g, dst, back, path, list, ith, i) && Counted(g, path, list, ith, i)
      {
        BackAt(g, src, dst, visited, bound, path, list, ith, i);
        TracingList(g, dst, back, path, list, ith, i);
        var name := neighbors[i].name;
        if name in visited && visited[name] == id - 1 {
          TraceAdd(g, dst, back, path, list, ith, i);
          CountedAdd(g, dst, back, path, list, ith, i);
          AddHopSteps(path, name, now);
          if name !in path {
            path := path[name := []];
          }
          path := path[name := path[name] + [now]];
          if name !in list {
            list := list + [name];
          }
        } else {
          TraceSkip(g, dst, back, path, list, ith, i);
          CountedSkip(g, path, list, ith, i);
        }
      }
      TracingList(g, dst, back, path, list, ith, |neighbors|);
      TraceNext(g, dst, back, path, list, ith);
      CountedNext(g, path, list, ith);
      BackAt(g, src, dst, visited, bound, path, list, ith, |neighbors|);
      ith := ith + 1;
    }
    BackDone(g, src, dst, visited, bound, path, list);
    return Found(path);
  }

  // The two tables agree, by the labels of the full search.
  lemma {:induction false} AgreesBy(g: Graph, src: Name, dst: Name, lab: map<Name, nat>, full: map<Name, seq<Name>>,
      path: map<Name, seq<Name>>, n: Name, m: Name)
    requires Towards(g, dst, lab, full) && src in lab && HoldsShortest(g, src, dst, path) && n in path
    ensures n in full && (m in path[n] <==> m in full[n])
  {
    hide Towards, Shortest;
    var p :| Shortest(g, src, dst, p) && n in p;
    var i :| 0 <= i < |p| && p[i] == n;
    ShortestFollows(g, dst, lab, full, src, p);
    assert i < |p| - 1;
    assert p[i] in full && p[i + 1] in full[p[i]];
    if m in path[n] {
      var q :| Shortest(g, src, dst, q) && Consecutive(q, n, m);
      ShortestFollows(g, dst, lab, full, src, q);
    }
    if m in full[n] {
      OpenHop(g, dst, lab, full, n);
      NearerLabels(g, dst, lab, full, n);
      var c := Complete(g, dst, lab, full, m);
      var pre := p[..i + 1];
      assert Follows(full, pre);
      Join(full, pre, c, src, dst);
      var w := pre + c;
      ShortestFollows(g, dst, lab, full, src, w);
      assert w[i] == n && w[i + 1] == m;
      assert Consecutive(w, n, m);
    }
  }

  lemma {:induction false} HeldIsReached(g: Graph, src: Name, dst: Name, lab: map<Name, nat>, full: map<Name,
      seq<Name>>, path: map<Name, seq<Name>>, n: Name)
    requires Towards(g, dst, lab, full) && HoldsShortest(g, src, dst, path) && n in path
    ensures src in lab
  {
    var p :| Shortest(g, src, dst, p) && n in p;
    hide NextHops;
    WalkDescends(g, dst, lab, p, 0);
  }

  lemma {:induction false} OpenCounts(g: Graph, src: Name, dst: Name, path: map<Name, seq<Name>>, n: Name, m: Name)
    requires HoldsShortest(g, src, dst, path) && n in path
    ensures multiset(path[n])[m] == if m in path[n] then Links(g, m, n) else 0
  {}

  /** Stopping early loses nothing: on the nodes it keeps, its next hops are those of the
      full search from `dst`, as often. */
  lemma {:induction false} EarlyExitAgrees(g: Graph, src: Name, dst: Name, full: map<Name, seq<Name>>,
      path: map<Name, seq<Name>>, n: Name, m: Name)
    requires Built(g) && HopsTowards(g, dst, full) && HoldsShortest(g, src, dst, path) && n in path
    ensures n in full && multiset(path[n])[m] == multiset(full[n])[m]
  {
    hide *;
    var lab := HopLabels(g, dst, full);
    OpenTowards(g, dst, lab, full);
    HeldIsReached(g, src, dst, lab, full, path, n);
    AgreesBy(g, src, dst, lab, full, path, n, m);
    OpenHops(g, dst, lab, full, n, m);
    OpenCounts(g, src, dst, path, n, m);
  }
}
