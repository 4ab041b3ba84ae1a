/** Next hops towards a host, and the multicast tree from a host. */
module Routes {
  import opened Finite
  import opened Topology

  // `m` is a neighbour of `n` one hop nearer to where the labels start.
  ghost predicate Parent(g: Graph, lab: map<Name, nat>, m: Name, n: Name)
  {
    m in lab && n in lab && Edge(g, m, n) && lab[m] + 1 == lab[n]
  }

  /** Every node that can be reached, but `dst` itself, has as next hops exactly its
      neighbours one hop nearer to `dst`: at least one, and each once for each of its links. */
  ghost predicate NextHops(g: Graph, dst: Name, lab: map<Name, nat>, path: map<Name, seq<Name>>)
  {
    && (forall n :: n in path <==> n in lab && n != dst)
    && (forall n, m :: n in path ==> (m in path[n] <==> Parent(g, lab, m, n)))
    && (forall n :: n in path ==> path[n] != [])
    && (forall n, m :: n in path && m in path[n] ==> multiset(path[n])[m] == Links(g, m, n))
  }

  ghost predicate Before(list: seq<Name>, ith: nat, m: Name)
  {
    exists j :: 0 <= j < ith && j < |list| && list[j] == m
  }

  ghost predicate NamedBefore(g: Graph, m: Name, i: nat, n: Name)
  {
    m in g && exists k :: 0 <= k < i && k < |g[m]| && g[m][k].name == n
  }

  // A next hop already entered: its node is done, or is being expanded and has got past `n`.
  ghost predicate Entered(g: Graph, list: seq<Name>, ith: nat, i: nat, m: Name, n: Name)
  {
    Before(list, ith, m) || (ith < |list| && m == list[ith] && NamedBefore(g, m, i, n))
  }

  // The worklist of the second pass: `dst` and the nodes that have next hops.
  ghost predicate TraceList(dst: Name, lab: map<Name, nat>, path: map<Name, seq<Name>>, list: seq<Name>)
  {
    && |list| > 0 && list[0] == dst && NoDup(list)
    && (forall x :: x in list <==> x == dst || x in path)
    && (forall n :: n in path ==> n in lab && n != dst && path[n] != [])
  }

  // The next hops are the parents already entered.
  ghost predicate HopsEntered(g: Graph, lab: map<Name, nat>, path: map<Name, seq<Name>>, list: seq<Name>, ith: nat,
      i: nat)
  {
    && (forall n, m :: n in path && m in path[n] ==> Parent(g, lab, m, n) && Entered(g, list, ith, i, m, n))
    && (forall m, n :: Entered(g, list, ith, i, m, n) && Parent(g, lab, m, n) ==> n in path && m in path[n])
  }

  // The state of the second pass, when the first `i` neighbours of node `ith` have been seen.
  ghost predicate Tracing(g: Graph, dst: Name, lab: map<Name, nat>, path: map<Name, seq<Name>>, list: seq<Name>,
      ith: nat, i: nat)
  {
    TraceList(dst, lab, path, list) && ith <= |list| && HopsEntered(g, lab, path, list, ith, i)
  }

  function AddHop(path: map<Name, seq<Name>>, n: Name, m: Name): map<Name, seq<Name>>
  {
    path[n := (if n in path then path[n] else []) + [m]]
  }

  lemma {:induction false} AddHopSteps(path: map<Name, seq<Name>>, n: Name, m: Name)
    ensures var path1 := if n in path then path else path[n := []];
      AddHop(path, n, m) == path1[n := path1[n] + [m]]
  {}

  lemma {:induction false} TraceStart(g: Graph, dst: Name, lab: map<Name, nat>)
    ensures Tracing(g, dst, lab, map[], [dst], 0, 0)
  {}

  lemma {:induction false} TraceNext(g: Graph, dst: Name, lab: map<Name, nat>, path: map<Name, seq<Name>>,
      list: seq<Name>, ith: nat)
    requires ith < |list| && list[ith] in g && Tracing(g, dst, lab, path, list, ith, |g[list[ith]]|)
    ensures Tracing(g, dst, lab, path, list, ith + 1, 0)
  {
    forall m, n
      ensures Entered(g, list, ith, |g[list[ith]]|, m, n) ==> Entered(g, list, ith + 1, 0, m, n)
      ensures Entered(g, list, ith + 1, 0, m, n) && Edge(g, m, n) ==> Entered(g, list, ith, |g[list[ith]]|, m, n)
    {}
  }

  // The next neighbour is seen.
  lemma {:induction false} EnteredStep(g: Graph, list: seq<Name>, ith: nat, i: nat, m: Name, n: Name)
    requires ith < |list| && list[ith] in g && i < |g[list[ith]]|
    ensures Entered(g, list, ith, i + 1, m, n) <==>
      Entered(g, list, ith, i, m, n) || (m == list[ith] && n == g[list[ith]][i].name)
  {
    if m == list[ith] && n == g[list[ith]][i].name {
      assert NamedBefore(g, m, i + 1, n);
    }
  }

  // One more node on the list changes nothing for those already there.
  lemma {:induction false} EnteredGrow(g: Graph, list: seq<Name>, ith: nat, i: nat, m: Name, n: Name, x: Name)
    requires ith < |list|
    ensures Entered(g, list + [x], ith, i, m, n) <==> Entered(g, list, ith, i, m, n)
  {
    assert forall j :: 0 <= j < |list| ==> (list + [x])[j] == list[j];
  }

  lemma {:induction false} TraceSkip(g: Graph, dst: Name, lab: map<Name, nat>, path: map<Name, seq<Name>>,
      list: seq<Name>, ith: nat, i: nat)
    requires Tracing(g, dst, lab, path, list, ith, i) && ith < |list| && list[ith] in g && i < |g[list[ith]]|
    requires !Parent(g, lab, list[ith], g[list[ith]][i].name)
    ensures Tracing(g, dst, lab, path, list, ith, i + 1)
  {
    forall m, n
      ensures Entered(g, list, ith, i + 1, m, n) <==>
        Entered(g, list, ith, i, m, n) || (m == list[ith] && n == g[list[ith]][i].name)
    {
      EnteredStep(g, list, ith, i, m, n);
    }
  }

  lemma {:induction false} TraceAdd(g: Graph, dst: Name, lab: map<Name, nat>, path: map<Name, seq<Name>>,
      list: seq<Name>, ith: nat, i: nat)
    requires Tracing(g, dst, lab, path, list, ith, i) && ith < |list|
    requires list[ith] in g && i < |g[list[ith]]|
    requires Parent(g, lab, list[ith], g[list[ith]][i].name) && dst in lab && lab[dst] == 0
    ensures var n := g[list[ith]][i].name;
      Tracing(g, dst, lab, AddHop(path, n, list[ith]), if n in list then list else list + [n], ith, i + 1)
  {
    var now, n := list[ith], g[list[ith]][i].name;
    var path1, list1 := AddHop(path, n, now), if n in list then list else list + [n];
    ParentIn(g, lab, now, n);
    AppendNew(list, n);
    AddHopIs(path, n, now);
    forall m, n'
      ensures Entered(g, list1, ith, i + 1, m, n') <==> Entered(g, list, ith, i, m, n') || (m == now && n' == n)
    {
      EnteredStep(g, list, ith, i, m, n');
      EnteredGrow(g, list, ith, i + 1, m, n', n);
    }
    HopsEnteredAdd(g, lab, path, list, list1, ith, i, now, n);
    hide HopsEntered, Parent, AddHop, NoDup;
  }

  // One more next hop entered, and nothing else.
  lemma {:induction false} HopsEnteredAdd(g: Graph, lab: map<Name, nat>, path: map<Name, seq<Name>>, list: seq<Name>,
      list1: seq<Name>, ith: nat, i: nat, now: Name, n: Name)
    requires HopsEntered(g, lab, path, list, ith, i) && Parent(g, lab, now, n)
    requires forall m, n' :: Entered(g, list1, ith, i + 1, m, n') <==> Entered(g, list, ith, i, m, n') || (m == now && n' == n)
    ensures HopsEntered(g, lab, AddHop(path, n, now), list1, ith, i + 1)
  {
    AddHopIs(path, n, now);
    hide Entered, Parent, AddHop;
  }

  lemma {:induction false} AddHopIs(path: map<Name, seq<Name>>, n: Name, m: Name)
    ensures var path1 := AddHop(path, n, m);
      && (forall x :: x in path1 <==> x in path || x == n)
      && (forall x :: x in path && x != n ==> path1[x] == path[x])
      && (forall x :: x in path1[n] <==> x == m || (n in path && x in path[n]))
      && path1[n] != []
  {}

  lemma {:induction false} ParentIn(g: Graph, lab: map<Name, nat>, m: Name, n: Name)
    requires Parent(g, lab, m, n)
    ensures m in lab && n in lab && lab[n] == lab[m] + 1
  {}

  lemma {:induction false} AppendNew(list: seq<Name>, n: Name)
    requires NoDup(list)
    ensures var list1 := if n in list then list else list + [n];
      NoDup(list1) && list <= list1 && forall x :: x in list1 <==> x in list || x == n
  {}

  // How many links from `m` to `n` have been seen.
  ghost function SeenLinks(g: Graph, list: seq<Name>, ith: nat, i: nat, m: Name, n: Name): nat
  {
    if Before(list, ith, m) then Links(g, m, n)
    else if ith < |list| && m == list[ith] && m in g && i <= |g[m]| then CountNamed(g[m][..i], n)
    else 0
  }

  // A next hop has been entered once for each link seen.
  ghost predicate Counted(g: Graph, path: map<Name, seq<Name>>, list: seq<Name>, ith: nat, i: nat)
  {
    forall n, m :: n in path && m in path[n] ==> multiset(path[n])[m] == SeenLinks(g, list, ith, i, m, n)
  }

  lemma {:induction false} CountedStart(g: Graph, dst: Name)
    ensures Counted(g, map[], [dst], 0, 0)
  {}

  lemma {:induction false} CountedNext(g: Graph, path: map<Name, seq<Name>>, list: seq<Name>, ith: nat)
    requires ith < |list| && list[ith] in g && Counted(g, path, list, ith, |g[list[ith]]|) && NoDup(list)
    ensures Counted(g, path, list, ith + 1, 0)
  {
    var now := list[ith];
    assert g[now][..|g[now]|] == g[now];
    forall n, m | n in path && m in path[n] ensures multiset(path[n])[m] == SeenLinks(g, list, ith + 1, 0, m, n) {
      BeforeNext(list, ith, m);
      assert m in g ==> g[m][..0] == [];
    }
  }

  lemma {:induction false} CountedSkip(g: Graph, path: map<Name, seq<Name>>, list: seq<Name>, ith: nat, i: nat)
    requires Counted(g, path, list, ith, i) && ith < |list| && list[ith] in g && i < |g[list[ith]]|
    requires var n := g[list[ith]][i].name; n in path ==> list[ith] !in path[n]
    ensures Counted(g, path, list, ith, i + 1)
  {
    var now := list[ith];
    forall n, m | n in path && m in path[n] ensures multiset(path[n])[m] == SeenLinks(g, list, ith, i + 1, m, n) {
      CountNext(g[now], i, n);
    }
  }

  // The links seen from the node being expanded, when one more is seen and the list may grow.
  lemma {:induction false} SeenStep(g: Graph, list: seq<Name>, list1: seq<Name>, ith: nat, i: nat, m: Name, n: Name)
    requires ith < |list| && NoDup(list) && list[ith] in g && i < |g[list[ith]]| && list <= list1
    ensures SeenLinks(g, list1, ith, i + 1, m, n) == SeenLinks(g, list, ith, i, m, n) +
      if m == list[ith] && n == g[m][i].name then 1 else 0
  {
    var now := list[ith];
    assert forall j :: 0 <= j < |list| ==> list1[j] == list[j];
    assert Before(list1, ith, m) <==> Before(list, ith, m);
    assert !Before(list, ith, now);
    CountNext(g[now], i, n);
  }

  // A next hop not entered yet has no links seen.
  lemma {:induction false} NoneSeen(g: Graph, list: seq<Name>, ith: nat, i: nat, m: Name, n: Name)
    requires !Entered(g, list, ith, i, m, n)
    ensures SeenLinks(g, list, ith, i, m, n) == 0
  {
    if ith < |list| && m == list[ith] && m in g && i <= |g[m]| {
      CountNone(g[m][..i], n);
    }
  }

  lemma {:induction false} CountedAdd(g: Graph, dst: Name, lab: map<Name, nat>, path: map<Name, seq<Name>>,
      list: seq<Name>, ith: nat, i: nat)
    requires Tracing(g, dst, lab, path, list, ith, i) && Counted(g, path, list, ith, i) && ith < |list|
    requires list[ith] in g && i < |g[list[ith]]| && Parent(g, lab, list[ith], g[list[ith]][i].name)
    ensures var n := g[list[ith]][i].name;
      Counted(g, AddHop(path, n, list[ith]), if n in list then list else list + [n], ith, i + 1)
  {
    var now, n := list[ith], g[list[ith]][i].name;
    var path1, list1 := AddHop(path, n, now), if n in list then list else list + [n];
    var was := if n in path then path[n] else [];
    assert path1[n] == was + [now];
    assert multiset(was)[now] == SeenLinks(g, list, ith, i, now, n) by {
      if now !in was { NoneSeen(g, list, ith, i, now, n); }
    }
    hide Tracing, Parent, SeenLinks;
    forall n', m | n' in path1 && m in path1[n']
      ensures multiset(path1[n'])[m] == SeenLinks(g, list1, ith, i + 1, m, n')
    {
      assert NoDup(list) by { TracingList(g, dst, lab, path, list, ith, i); }
      SeenStep(g, list, list1, ith, i, m, n');
    }
  }

  lemma {:induction false} TracingList(g: Graph, dst: Name, lab: map<Name, nat>, path: map<Name, seq<Name>>,
      list: seq<Name>, ith: nat, i: nat)
    requires Tracing(g, dst, lab, path, list, ith, i)
    ensures NoDup(list) && forall n, m :: n in path && m in path[n] ==> Parent(g, lab, m, n)
  {}

  lemma {:induction false} AllTraced(g: Graph, dst: Name, lab: map<Name, nat>, path: map<Name, seq<Name>>,
      list: seq<Name>, v: Name)
    requires Tracing(g, dst, lab, path, list, |list|, 0) && Labelled(g, dst, lab, 0) && v in lab
    ensures v == dst || v in path
    decreases lab[v]
  {
    if v != dst {
      assert HasParent(g, lab, v);
      var u :| u in lab && Edge(g, u, v) && lab[u] + 1 == lab[v];
      AllTraced(g, dst, lab, path, list, u);
      assert u in list;
      assert Before(list, |list|, u);
      assert Entered(g, list, |list|, 0, u, v);
    }
  }

  lemma {:induction false} TraceDone(g: Graph, dst: Name, lab: map<Name, nat>, path: map<Name, seq<Name>>,
      list: seq<Name>)
    requires Tracing(g, dst, lab, path, list, |list|, 0) && Labelled(g, dst, lab, 0)
    requires Counted(g, path, list, |list|, 0)
    ensures NextHops(g, dst, lab, path)
  {
    forall n, m | n in path && m in path[n] ensures multiset(path[n])[m] == Links(g, m, n) {
      assert Parent(g, lab, m, n) && Entered(g, list, |list|, 0, m, n);
    }
    forall n ensures n in path <==> n in lab && n != dst {
      if n in lab { AllTraced(g, dst, lab, path, list, n); }
    }
    forall n, m | n in path && Parent(g, lab, m, n) ensures m in path[n] {
      AllTraced(g, dst, lab, path, list, m);
      assert m in list;
      assert Before(list, |list|, m);
      assert Entered(g, list, |list|, 0, m, n);
    }
  }

  lemma {:induction false} TraceAt(g: Graph, dst: Name, lab: map<Name, nat>, path: map<Name, seq<Name>>,
      list: seq<Name>, ith: nat, i: nat)
    requires Tracing(g, dst, lab, path, list, ith, i) && Labelled(g, dst, lab, 0) && Closed(g, lab)
    ensures ith <= |list| <= |g.Keys| && dst in lab && lab[dst] == 0
    ensures forall k :: 0 <= k < |list| ==> list[k] in lab && list[k] in g
    ensures ith < |list| && i < |g[list[ith]]| ==>
      var n := g[list[ith]][i].name;
      n in lab && Edge(g, list[ith], n) && (Parent(g, lab, list[ith], n) <==> lab[n] == lab[list[ith]] + 1)
  {
    forall x | x in list ensures x in g && x in lab {}
    NoDupSize(list, g.Keys);
    if ith < |list| && i < |g[list[ith]]| {
      assert Edge(g, list[ith], g[list[ith]][i].name);
    }
  }

  // `lab` holds the distances, and `path` the next hops that follow from them.
  ghost predicate HopsBy(g: Graph, dst: Name, lab: map<Name, nat>, path: map<Name, seq<Name>>)
  {
    Distances(g, dst, lab) && Labelled(g, dst, lab, 0) && Closed(g, lab) && NextHops(g, dst, lab, path)
  }

  ghost predicate HopsTowards(g: Graph, dst: Name, path: map<Name, seq<Name>>)
  {
    exists lab :: HopsBy(g, dst, lab, path)
  }

  lemma {:induction false} HopLabels(g: Graph, dst: Name, path: map<Name, seq<Name>>) returns (lab: map<Name, nat>)
    requires HopsTowards(g, dst, path)
    ensures Distances(g, dst, lab) && Labelled(g, dst, lab, 0) && Closed(g, lab) && NextHops(g, dst, lab, path)
  {
    lab :| HopsBy(g, dst, lab, path);
  }

  lemma {:induction false} ShutHops(g: Graph, dst: Name, lab: map<Name, nat>, path: map<Name, seq<Name>>)
    requires Distances(g, dst, lab) && Labelled(g, dst, lab, 0) && Closed(g, lab) && NextHops(g, dst, lab, path)
    ensures HopsTowards(g, dst, path)
  {
    assert HopsBy(g, dst, lab, path);
  }

  lemma {:induction false} DistancesAre(g: Graph, src: Name, lab: map<Name, nat>, v: Name)
    requires Distances(g, src, lab)
    ensures v in lab <==> Reachable(g, src, v)
    ensures forall d: nat :: IsDist(g, src, v, d) <==> v in lab && lab[v] == d
  {
    if v in lab {
      assert IsDist(g, src, v, lab[v]);
    }
    forall d: nat | IsDist(g, src, v, d) ensures v in lab && lab[v] == d {}
  }

  lemma {:induction false} OpenHops(g: Graph, dst: Name, lab: map<Name, nat>, path: map<Name, seq<Name>>, n: Name,
      m: Name)
    requires NextHops(g, dst, lab, path) && Built(g)
    ensures n in path <==> n in lab && n != dst
    ensures n in path ==> path[n] != [] && multiset(path[n])[m] == if m in path[n] then Links(g, m, n) else 0
    ensures n in path ==> (m in path[n] <==> m in lab && Edge(g, n, m) && lab[m] + 1 == lab[n])
  {
    assert n in path ==> (m in path[n] <==> Parent(g, lab, m, n));
  }

  /** The next hops of a node are its neighbours one hop nearer to `dst`, measured by the
      shortest walks, each once for each of its links, and every node that can be reached but
      `dst` has some. */
  lemma {:induction false} HopsAreNearer(g: Graph, dst: Name, path: map<Name, seq<Name>>, n: Name, m: Name)
    requires Built(g) && HopsTowards(g, dst, path)
    ensures n in path <==> n != dst && Reachable(g, dst, n)
    ensures n in path ==> path[n] != [] && multiset(path[n])[m] == if m in path[n] then Links(g, m, n) else 0
    ensures n in path ==> (m in path[n] <==> Edge(g, n, m) && exists d: nat :: IsDist(g, dst, m, d) && IsDist(g, dst, n, d + 1))
  {
    hide *;
    var lab := HopLabels(g, dst, path);
    OpenHops(g, dst, lab, path, n, m);
    DistancesAre(g, dst, lab, n);
    DistancesAre(g, dst, lab, m);
  }

  lemma {:induction false} HopCounts(g: Graph, dst: Name, lab: map<Name, nat>, path: map<Name, seq<Name>>, n: Name)
    requires NextHops(g, dst, lab, path) && n in path
    ensures forall m :: m in path[n] ==> multiset(path[n])[m] == Links(g, m, n)
  {}

  /** No next hop is listed twice, if and only if none is joined by several links. */
  lemma {:induction false} HopsOnce(g: Graph, dst: Name, path: map<Name, seq<Name>>, n: Name)
    requires HopsTowards(g, dst, path) && n in path
    ensures NoDup(path[n]) <==> forall m :: m in path[n] ==> Links(g, m, n) == 1
  {
    hide *;
    var lab := HopLabels(g, dst, path);
    HopCounts(g, dst, lab, path, n);
    if NoDup(path[n]) {
      forall m | m in path[n] ensures Links(g, m, n) == 1 { NoDupOnce(path[n], m); }
    } else if forall m :: m in path[n] ==> Links(g, m, n) == 1 {
      OnceNoDup(path[n]);
    }
  }

  /** The ECMP next hops of every node towards `dst`. */
  method GetReversePreNodes(g: Graph, dst: Name) returns (path: map<Name, seq<Name>>)
    requires Built(g) && dst in g
    ensures HopsTowards(g, dst, path)
  {
    hide *;
    var visited; ghost var order;
    visited, order := Label(g, dst);
    ghost var lab := visited;
    path := map[];
    var list := [dst];
    var ith := 0;
    TraceStart(g, dst, lab);
    CountedStart(g, dst);
    while ith < |list|
      invariant Tracing(g, dst, lab, path, list, ith, 0) && Counted(g, path, list, ith, 0) && ith <= |list|
      decreases |g.Keys| - ith
    {
      TraceAt(g, dst, lab, path, list, ith, 0);
      var now := list[ith];
      var id := visited[now];
      var neighbors := g[now];
      for i := 0 to |neighbors|
        invariant ith < |list| && list[ith] == now
        invariant Tracing(g, dst, lab, path, list, ith, i) && Counted(g, path, list, ith, i)
      {
        TraceAt(g, dst, lab, path, list, ith, i);
        TracingList(g, dst, lab, path, list, ith, i);
        var name := neighbors[i].name;
        var neighId := visited[name];
        if neighId == id + 1 {
          TraceAdd(g, dst, lab, path, list, ith, i);
          CountedAdd(g, dst, lab, path, list, ith, i);
          AddHopSteps(path, name, now);
          if name !in path {
            path := path[name := []];
          }
          path := path[name := path[name] + [now]];
          if name !in list {
            list := list + [name];
          }
        } else {
          TraceSkip(g, dst, lab, path, list, ith, i);
          CountedSkip(g, path, list, ith, i);
        }
      }
      TracingList(g, dst, lab, path, list, ith, |neighbors|);
      TraceNext(g, dst, lab, path, list, ith);
      CountedNext(g, path, list, ith);
      TraceAt(g, dst, lab, path, list, ith, |neighbors|);
      ith := ith + 1;
    }
    TraceDone(g, dst, lab, path, list);
    ShutHops(g, dst, lab, path);
  }

  /** A spanning tree of shortest paths from `src`: every node that can be reached has a list
      of children one hop further away, and every such node but `src` is in exactly one list,
      once. */
  ghost predicate Tree(g: Graph, src: Name, lab: map<Name, nat>, path: map<Name, seq<Name>>)
  {
    && (forall u :: u in path <==> u in lab)
    && (forall u, v :: u in path && v in path[u] ==> Parent(g, lab, u, v))
    && (forall v :: v in lab && v != src ==> Owned(path, v))
    && (forall u, w, v :: u in path && w in path && v in path[u] && v in path[w] ==> u == w)
    && (forall u :: u in path ==> NoDup(path[u]))
  }

  ghost predicate Owned(path: map<Name, seq<Name>>, v: Name)
  {
    exists u :: u in path && v in path[u]
  }

  // The neighbours of `u`, of the first `i`, that are one hop further away and not found before.
  ghost function NewKids(g: Graph, lab: map<Name, nat>, u: Name, i: nat, found: seq<Name>): seq<Name>
    requires u in g && i <= |g[u]|
  {
    if i == 0 then []
    else
      var kids, n := NewKids(g, lab, u, i - 1, found), g[u][i - 1].name;
      if Parent(g, lab, u, n) && n !in found && n !in kids then kids + [n] else kids
  }

  lemma {:induction false} KidsStart(g: Graph, lab: map<Name, nat>, u: Name, found: seq<Name>)
    requires u in g
    ensures NewKids(g, lab, u, 0, found) == []
  {}

  lemma {:induction false} KidsStep(g: Graph, lab: map<Name, nat>, u: Name, i: nat, found: seq<Name>)
    requires u in g && i < |g[u]|
    ensures var kids, n := NewKids(g, lab, u, i, found), g[u][i].name;
      NewKids(g, lab, u, i + 1, found) == if Parent(g, lab, u, n) && n !in found && n !in kids then kids + [n] else kids
  {}

  lemma {:induction false} KidsAre(g: Graph, lab: map<Name, nat>, u: Name, i: nat, found: seq<Name>, v: Name)
    requires u in g && i <= |g[u]|
    ensures v in NewKids(g, lab, u, i, found) <==> NamedBefore(g, u, i, v) && Parent(g, lab, u, v) && v !in found
    ensures NoDup(NewKids(g, lab, u, i, found))
  {
    hide Parent;
    if i > 0 {
      KidsAre(g, lab, u, i - 1, found, v);
      assert NamedBefore(g, u, i, v) <==> NamedBefore(g, u, i - 1, v) || g[u][i - 1].name == v;
    }
  }

  // The lists of children so far, and the worklist.
  datatype Multicast = Multicast(path: map<Name, seq<Name>>, list: seq<Name>)

  // The worklist's node `k` is expanded.
  ghost function Expand(g: Graph, lab: map<Name, nat>, t: Multicast, k: nat): Multicast
  {
    if k < |t.list| && t.list[k] in g then
      var u := t.list[k];
      var kids := NewKids(g, lab, u, |g[u]|, t.list);
      Multicast(t.path[u := kids], t.list + kids)
    else t
  }

  // The first `k` nodes of the worklist are expanded.
  ghost function Spread(g: Graph, lab: map<Name, nat>, src: Name, k: nat): Multicast
  {
    if k == 0 then Multicast(map[], [src]) else Expand(g, lab, Spread(g, lab, src, k - 1), k - 1)
  }

  /** The multicast tree that the worklist search makes, and the order in which it expands. */
  ghost function MulticastTree(g: Graph, lab: map<Name, nat>, src: Name): Multicast
  {
    Spread(g, lab, src, |g.Keys|)
  }

  // Of the nodes on the list, node `j` is the first that is a parent of `v`.
  ghost predicate FirstParent(g: Graph, lab: map<Name, nat>, list: seq<Name>, j: nat, v: Name)
  {
    j < |list| && Parent(g, lab, list[j], v) && !EarlierParent(g, lab, list, j, v)
  }

  ghost predicate EarlierParent(g: Graph, lab: map<Name, nat>, list: seq<Name>, j: nat, v: Name)
  {
    exists i :: 0 <= i < j && i < |list| && Parent(g, lab, list[i], v)
  }

  lemma {:induction false} LeastParent(g: Graph, lab: map<Name, nat>, list: seq<Name>, j: nat, v: Name) returns (i: nat)
    requires EarlierParent(g, lab, list, j, v)
    ensures i < j && i < |list| && FirstParent(g, lab, list, i, v)
  {
    i :| 0 <= i < j && i < |list| && Parent(g, lab, list[i], v);
    if EarlierParent(g, lab, list, i, v) { i := LeastParent(g, lab, list, i, v); }
  }

  lemma {:induction false} EarlierGrow(g: Graph, lab: map<Name, nat>, list: seq<Name>, kids: seq<Name>, j: nat, v: Name)
    requires j <= |list|
    ensures EarlierParent(g, lab, list + kids, j, v) <==> EarlierParent(g, lab, list, j, v)
    ensures j < |list| ==> (FirstParent(g, lab, list + kids, j, v) <==> FirstParent(g, lab, list, j, v))
  {
    assert forall i :: 0 <= i < |list| ==> (list + kids)[i] == list[i];
  }

  // Every node found has been given to the first of its parents.
  ghost predicate Spreading(g: Graph, src: Name, lab: map<Name, nat>, t: Multicast, k: nat)
  {
    && |t.list| > 0 && t.list[0] == src && NoDup(t.list)
    && (forall x :: x in t.list ==> x in lab)
    && (forall u :: u in t.path <==> Before(t.list, k, u))
    && (forall j :: 0 <= j < k && j < |t.list| ==> KidsAt(g, lab, t, j))
    && (forall v :: v in t.list <==> v == src || EarlierParent(g, lab, t.list, k, v))
  }

  ghost predicate KidsAt(g: Graph, lab: map<Name, nat>, t: Multicast, j: nat)
    requires j < |t.list|
  {
    && t.list[j] in t.path && NoDup(t.path[t.list[j]])
    && forall v :: v in t.path[t.list[j]] <==> FirstParent(g, lab, t.list, j, v)
  }

  lemma {:induction false} BeforeNext(list: seq<Name>, ith: nat, m: Name)
    requires ith < |list|
    ensures Before(list, ith + 1, m) <==> Before(list, ith, m) || m == list[ith]
  {}

  lemma {:induction false} BeforeGrow(list: seq<Name>, kids: seq<Name>, ith: nat, m: Name)
    requires ith <= |list|
    ensures Before(list + kids, ith, m) <==> Before(list, ith, m)
  {
    assert forall i :: 0 <= i < |list| ==> (list + kids)[i] == list[i];
  }

  // The children a node is given are those it is the first parent of.
  lemma {:induction false} KidsFirst(g: Graph, src: Name, lab: map<Name, nat>, t: Multicast, k: nat, v: Name)
    requires Spreading(g, src, lab, t, k) && Labelled(g, src, lab, 0) && k < |t.list| && t.list[k] in g
    ensures v in NewKids(g, lab, t.list[k], |g[t.list[k]]|, t.list) <==> FirstParent(g, lab, t.list, k, v)
  {
    var u := t.list[k];
    KidsAre(g, lab, u, |g[u]|, t.list, v);
  }

  lemma {:induction false} EarlierNext(g: Graph, lab: map<Name, nat>, list: seq<Name>, k: nat, v: Name)
    requires k < |list|
    ensures EarlierParent(g, lab, list, k + 1, v) <==> EarlierParent(g, lab, list, k, v) || FirstParent(g, lab, list, k, v)
  {}

  lemma {:induction false} KidsAtKept(g: Graph, lab: map<Name, nat>, t: Multicast, k: nat, j: nat)
    requires k < |t.list| && t.list[k] in g && NoDup(t.list) && j < k && KidsAt(g, lab, t, j)
    ensures KidsAt(g, lab, Expand(g, lab, t, k), j)
  {
    var kids := NewKids(g, lab, t.list[k], |g[t.list[k]]|, t.list);
    forall v ensures FirstParent(g, lab, t.list + kids, j, v) <==> FirstParent(g, lab, t.list, j, v) {
      EarlierGrow(g, lab, t.list, kids, j, v);
    }
    hide FirstParent, NewKids;
  }

  lemma {:induction false} KidsAtNew(g: Graph, lab: map<Name, nat>, t: Multicast, k: nat)
    requires k < |t.list| && t.list[k] in g
    requires var kids := NewKids(g, lab, t.list[k], |g[t.list[k]]|, t.list);
      NoDup(kids) && forall v :: v in kids <==> FirstParent(g, lab, t.list, k, v)
    ensures KidsAt(g, lab, Expand(g, lab, t, k), k)
  {
    var kids := NewKids(g, lab, t.list[k], |g[t.list[k]]|, t.list);
    forall v ensures FirstParent(g, lab, t.list + kids, k, v) <==> FirstParent(g, lab, t.list, k, v) {
      EarlierGrow(g, lab, t.list, kids, k, v);
    }
    hide FirstParent, NewKids;
  }

  lemma {:induction false} SpreadingNext(g: Graph, src: Name, lab: map<Name, nat>, t: Multicast, k: nat)
    requires Spreading(g, src, lab, t, k) && Labelled(g, src, lab, 0) && k < |t.list| && t.list[k] in g
    ensures Spreading(g, src, lab, Expand(g, lab, t, k), k + 1)
  {
    var u := t.list[k];
    var kids, t1 := NewKids(g, lab, u, |g[u]|, t.list), Expand(g, lab, t, k);
    forall v
      ensures v in kids <==> FirstParent(g, lab, t.list, k, v)
      ensures v in kids ==> v in lab && v !in t.list
    {
      KidsFirst(g, src, lab, t, k, v);
      KidsAre(g, lab, u, |g[u]|, t.list, v);
    }
    KidsAre(g, lab, u, |g[u]|, t.list, src);
    hide Labelled, Parent, FirstParent, NewKids, EarlierParent, Before;
    assert NoDup(t1.list) by { NoDupConcat(t.list, kids); }
    assert u !in t.path by { NotBefore(t.list, k); }
    forall v ensures v in t1.path <==> Before(t1.list, k + 1, v) {
      BeforeNext(t1.list, k, v);
      BeforeGrow(t.list, kids, k, v);
    }
    forall v ensures v in t1.list <==> v == src || EarlierParent(g, lab, t1.list, k + 1, v) {
      EarlierNext(g, lab, t.list, k, v);
      EarlierGrow(g, lab, t.list, kids, k + 1, v);
      InJoin(t.list, kids, v);
    }
    forall j | 0 <= j < k + 1 ensures KidsAt(g, lab, t1, j) {
      if j < k { KidsAtKept(g, lab, t, k, j); } else { KidsAtNew(g, lab, t, k); }
    }
  }

  lemma {:induction false} InJoin(a: seq<Name>, b: seq<Name>, v: Name)
    ensures v in a + b <==> v in a || v in b
  {}

  lemma {:induction false} NotBefore(list: seq<Name>, k: nat)
    requires NoDup(list) && k < |list|
    ensures !Before(list, k, list[k])
  {}

  lemma {:induction false} SpreadingPast(g: Graph, src: Name, lab: map<Name, nat>, t: Multicast, k: nat)
    requires Spreading(g, src, lab, t, k) && k >= |t.list|
    ensures Spreading(g, src, lab, t, k + 1)
  {
    forall u ensures Before(t.list, k + 1, u) <==> Before(t.list, k, u) {}
    forall v ensures EarlierParent(g, lab, t.list, k + 1, v) <==> EarlierParent(g, lab, t.list, k, v) {}
    hide Before, EarlierParent, FirstParent;
  }

  lemma {:induction false} SpreadingAt(g: Graph, src: Name, lab: map<Name, nat>, k: nat)
    requires Labelled(g, src, lab, 0)
    ensures Spreading(g, src, lab, Spread(g, lab, src, k), k)
  {
    hide Spreading, Expand;
    if k == 0 {
      SpreadingStart(g, src, lab);
    } else {
      SpreadingAt(g, src, lab, k - 1);
      var t := Spread(g, lab, src, k - 1);
      SpreadingSize(g, src, lab, t, k - 1);
      if k - 1 < |t.list| {
        SpreadingNext(g, src, lab, t, k - 1);
      } else {
        SpreadingPast(g, src, lab, t, k - 1);
        ExpandPast(g, lab, t, k - 1);
      }
    }
  }

  lemma {:induction false} SpreadingStart(g: Graph, src: Name, lab: map<Name, nat>)
    requires src in lab
    ensures Spreading(g, src, lab, Multicast(map[], [src]), 0)
  {}

  lemma {:induction false} ExpandPast(g: Graph, lab: map<Name, nat>, t: Multicast, k: nat)
    requires k >= |t.list|
    ensures Expand(g, lab, t, k) == t
  {}

  lemma {:induction false} SpreadingSize(g: Graph, src: Name, lab: map<Name, nat>, t: Multicast, k: nat)
    requires Spreading(g, src, lab, t, k) && Labelled(g, src, lab, 0)
    ensures 0 < |t.list| <= |g.Keys| && t.list[0] == src && NoDup(t.list)
    ensures forall x :: x in t.list ==> x in lab && x in g
  {
    NoDupSize(t.list, g.Keys);
  }

  // Nothing changes once every node on the list is expanded.
  lemma {:induction false} SpreadDone(g: Graph, lab: map<Name, nat>, src: Name, k: nat, n: nat)
    requires |Spread(g, lab, src, k).list| <= k <= n
    ensures Spread(g, lab, src, n) == Spread(g, lab, src, k)
  {
    if n > k { SpreadDone(g, lab, src, k, n - 1); }
  }

  lemma {:induction false} AllFound(g: Graph, src: Name, lab: map<Name, nat>, t: Multicast, v: Name)
    requires Spreading(g, src, lab, t, |g.Keys|) && Labelled(g, src, lab, 0) && v in lab
    ensures v in t.list
    decreases lab[v]
  {
    if v != src {
      assert HasParent(g, lab, v);
      var u :| u in lab && Edge(g, u, v) && lab[u] + 1 == lab[v];
      AllFound(g, src, lab, t, u);
      SpreadingSize(g, src, lab, t, |g.Keys|);
      var i :| 0 <= i < |t.list| && t.list[i] == u;
      assert Parent(g, lab, t.list[i], v);
      assert EarlierParent(g, lab, t.list, |g.Keys|, v);
    }
  }

  lemma {:induction false} OpenKids(g: Graph, src: Name, lab: map<Name, nat>, t: Multicast, j: nat)
    requires Spreading(g, src, lab, t, |g.Keys|) && Labelled(g, src, lab, 0) && j < |t.list|
    ensures t.list[j] in t.path && NoDup(t.path[t.list[j]])
    ensures forall v :: v in t.path[t.list[j]] <==> FirstParent(g, lab, t.list, j, v)
  {
    SpreadingSize(g, src, lab, t, |g.Keys|);
    assert KidsAt(g, lab, t, j);
  }

  lemma {:induction false} SpreadingLists(g: Graph, src: Name, lab: map<Name, nat>, t: Multicast)
    requires Spreading(g, src, lab, t, |g.Keys|) && Labelled(g, src, lab, 0)
    ensures |t.list| > 0 && t.list[0] == src && NoDup(t.list)
    ensures forall u :: u in t.path <==> u in t.list
    ensures forall u :: u in t.list <==> u in lab
    ensures forall v :: v in t.list && v != src ==> EarlierParent(g, lab, t.list, |g.Keys|, v)
  {
    SpreadingSize(g, src, lab, t, |g.Keys|);
    forall u | u in lab ensures u in t.list { AllFound(g, src, lab, t, u); }
    hide Labelled, EarlierParent;
    forall u ensures u in t.path <==> u in t.list { BeforeAll(t.list, |g.Keys|, u); }
  }

  lemma {:induction false} BeforeAll(list: seq<Name>, k: nat, u: Name)
    requires |list| <= k
    ensures Before(list, k, u) <==> u in list
  {}

  lemma {:induction false} ParentFirst(g: Graph, lab: map<Name, nat>, list: seq<Name>, i: nat, j: nat, v: Name)
    requires FirstParent(g, lab, list, j, v)
    ensures j < |list| && Parent(g, lab, list[j], v)
    ensures FirstParent(g, lab, list, i, v) ==> i == j
  {}

  lemma {:induction false} SpreadingTree(g: Graph, src: Name, lab: map<Name, nat>, t: Multicast)
    requires Spreading(g, src, lab, t, |g.Keys|) && Labelled(g, src, lab, 0)
    ensures Tree(g, src, lab, t.path)
  {
    hide Parent, Labelled, Spreading, FirstParent, EarlierParent, NoDup;
    SpreadingLists(g, src, lab, t);
    forall v | v in lab && v != src ensures Owned(t.path, v) {
      var i := LeastParent(g, lab, t.list, |g.Keys|, v);
      OpenKids(g, src, lab, t, i);
      assert v in t.path[t.list[i]];
    }
    forall u | u in t.path
      ensures NoDup(t.path[u])
      ensures forall v :: v in t.path[u] ==> Parent(g, lab, u, v)
    {
      var j :| 0 <= j < |t.list| && t.list[j] == u;
      OpenKids(g, src, lab, t, j);
      forall v | v in t.path[u] ensures Parent(g, lab, u, v) { ParentFirst(g, lab, t.list, j, j, v); }
    }
    forall u, w, v | u in t.path && w in t.path && v in t.path[u] && v in t.path[w] ensures u == w {
      var i :| 0 <= i < |t.list| && t.list[i] == u;
      var j :| 0 <= j < |t.list| && t.list[j] == w;
      OpenKids(g, src, lab, t, i);
      OpenKids(g, src, lab, t, j);
      ParentFirst(g, lab, t.list, i, j, v);
    }
  }

  // The nodes found so far are in order of distance, and `k` of them have been expanded.
  ghost predicate Layered(g: Graph, src: Name, lab: map<Name, nat>, list: seq<Name>, k: nat)
  {
    && |list| > 0 && list[0] == src && (forall x :: x in list ==> x in lab && x in g)
    && (forall i, j :: 0 <= i < j < |list| ==> lab[list[i]] <= lab[list[j]])
    && (k < |list| ==> forall x :: x in list ==> lab[x] <= lab[list[k]] + 1)
    && (forall j, v :: 0 <= j < k && j < |list| && Edge(g, list[j], v) ==> v in list)
  }

  // No node that is nearer than the one to be expanded, or as near, has still to be found.
  lemma {:induction false} NearerFound(g: Graph, src: Name, lab: map<Name, nat>, list: seq<Name>, k: nat, x: Name)
    requires Layered(g, src, lab, list, k) && Labelled(g, src, lab, 0) && k < |list|
    requires x in lab && lab[x] <= lab[list[k]]
    ensures x in list
    decreases lab[x]
  {
    if x != src {
      assert HasParent(g, lab, x);
      var w :| w in lab && Edge(g, w, x) && lab[w] + 1 == lab[x];
      hide Labelled;
      NearerFound(g, src, lab, list, k, w);
      var j :| 0 <= j < |list| && list[j] == w;
      assert j < k;
    }
  }

  // So what the search has not seen yet is one hop further away.
  lemma {:induction false} UnseenFurther(g: Graph, src: Name, lab: map<Name, nat>, list: seq<Name>, k: nat, v: Name)
    requires Layered(g, src, lab, list, k) && Labelled(g, src, lab, 0) && Closed(g, lab)
    requires k < |list| && Edge(g, list[k], v) && v !in list
    ensures Parent(g, lab, list[k], v)
  {
    assert list[k] in list;
    if lab[v] <= lab[list[k]] { NearerFound(g, src, lab, list, k, v); }
  }

  lemma {:induction false} KidsUnseen(g: Graph, lab: map<Name, nat>, u: Name, i: nat, found: seq<Name>)
    requires u in g && i <= |g[u]| && forall v :: Edge(g, u, v) && v !in found ==> Parent(g, lab, u, v)
    ensures NewKids(g, lab, u, i, found) == Unseen(g, u, i, found)
  {
    if i > 0 {
      KidsUnseen(g, lab, u, i - 1, found);
      assert Edge(g, u, g[u][i - 1].name);
    }
  }

  // The labels of a list with new nodes at its end, all of them one further than `d`.
  lemma {:induction false} FurtherSorted(lab: map<Name, nat>, list: seq<Name>, kids: seq<Name>, d: nat)
    requires forall x :: x in list ==> x in lab && lab[x] <= d + 1
    requires forall x :: x in kids ==> x in lab && lab[x] == d + 1
    requires forall i, j :: 0 <= i < j < |list| ==> lab[list[i]] <= lab[list[j]]
    ensures forall x :: x in list + kids ==> x in lab && lab[x] <= d + 1
    ensures forall i, j :: 0 <= i < j < |list + kids| ==> lab[(list + kids)[i]] <= lab[(list + kids)[j]]
  {
    var list1 := list + kids;
    forall i, j | 0 <= i < j < |list1| ensures list1[i] in lab && list1[j] in lab && lab[list1[i]] <= lab[list1[j]] {
      assert i < |list| ==> list[i] in list;
      assert i >= |list| ==> kids[i - |list|] in kids;
      if j >= |list| { assert kids[j - |list|] in kids; }
    }
  }

  lemma {:induction false} LayeredNext(g: Graph, src: Name, lab: map<Name, nat>, list: seq<Name>, k: nat,
      kids: seq<Name>)
    requires Layered(g, src, lab, list, k) && k < |list| && forall x :: x in lab ==> x in g
    requires forall v :: v in kids ==> Parent(g, lab, list[k], v)
    requires forall v :: Edge(g, list[k], v) ==> v in list || v in kids
    ensures Layered(g, src, lab, list + kids, k + 1)
  {
    var u, list1 := list[k], list + kids;
    assert u in list;
    assert forall v :: v in kids ==> v in lab && lab[v] == lab[u] + 1;
    hide Edge, Parent;
    FurtherSorted(lab, list, kids, lab[u]);
    LayeredEdges(g, list, kids, k);
    if k + 1 < |list1| {
      assert lab[list1[k]] <= lab[list1[k + 1]];
    }
  }

  lemma {:induction false} LayeredEdges(g: Graph, list: seq<Name>, kids: seq<Name>, k: nat)
    requires k < |list| && forall v :: Edge(g, list[k], v) ==> v in list || v in kids
    requires forall j, v :: 0 <= j < k && j < |list| && Edge(g, list[j], v) ==> v in list
    ensures forall j, v :: 0 <= j < k + 1 && j < |list + kids| && Edge(g, (list + kids)[j], v) ==> v in list + kids
  {
    forall j, v | 0 <= j < k + 1 && Edge(g, (list + kids)[j], v) ensures v in list + kids {
      assert (list + kids)[j] == list[j];
    }
  }

  // The second pass finds the nodes in the order in which the first one did.
  lemma {:induction false} SameOrderAt(g: Graph, src: Name, lab: map<Name, nat>, k: nat)
    requires Labelled(g, src, lab, 0) && Closed(g, lab)
    ensures Spread(g, lab, src, k).list == Discovered(g, src, k)
    ensures Layered(g, src, lab, Discovered(g, src, k), k)
  {
    hide *;
    if k == 0 {
      SpreadStart(g, lab, src);
      DiscoveredStart(g, src);
      LayeredStart(g, src, lab);
    } else {
      SameOrderAt(g, src, lab, k - 1);
      var list := Discovered(g, src, k - 1);
      LayeredAt(g, src, lab, list, k - 1);
      SpreadNext(g, lab, src, k - 1);
      DiscoveredNext(g, src, k - 1);
      if k - 1 < |list| {
        var u := list[k - 1];
        var all := |g[u]|;
        forall v | Edge(g, u, v) && v !in list ensures Parent(g, lab, u, v) {
          UnseenFurther(g, src, lab, list, k - 1, v);
        }
        KidsUnseen(g, lab, u, all, list);
        var kids := NewKids(g, lab, u, all, list);
        forall v
          ensures v in kids ==> Parent(g, lab, u, v)
          ensures Edge(g, u, v) ==> v in list || v in kids
        {
          KidsAre(g, lab, u, all, list, v);
          NamedEdge(g, u, v);
        }
        assert forall x :: x in lab ==> x in g by { LabelledIn(g, src, lab); }
        LayeredNext(g, src, lab, list, k - 1, kids);
      } else {
        SpreadPast(g, lab, src, k - 1);
        DiscoveredPast(g, src, k - 1);
        LayeredPast(g, src, lab, list, k - 1);
      }
    }
  }

  lemma {:induction false} LabelledIn(g: Graph, src: Name, lab: map<Name, nat>)
    requires Labelled(g, src, lab, 0)
    ensures forall x :: x in lab ==> x in g
  {}

  lemma {:induction false} NamedEdge(g: Graph, u: Name, v: Name)
    ensures Edge(g, u, v) <==> u in g && NamedBefore(g, u, |g[u]|, v)
  {}

  lemma {:induction false} LayeredStart(g: Graph, src: Name, lab: map<Name, nat>)
    requires Labelled(g, src, lab, 0)
    ensures Layered(g, src, lab, [src], 0)
  {}

  lemma {:induction false} LayeredAt(g: Graph, src: Name, lab: map<Name, nat>, list: seq<Name>, k: nat)
    requires Layered(g, src, lab, list, k)
    ensures forall j :: 0 <= j < |list| ==> list[j] in g && list[j] in lab
  {}

  lemma {:induction false} LayeredPast(g: Graph, src: Name, lab: map<Name, nat>, list: seq<Name>, k: nat)
    requires Layered(g, src, lab, list, k) && k >= |list|
    ensures Layered(g, src, lab, list, k + 1)
  {}

  lemma {:induction false} SpreadPast(g: Graph, lab: map<Name, nat>, src: Name, k: nat)
    requires k >= |Spread(g, lab, src, k).list|
    ensures Spread(g, lab, src, k + 1) == Spread(g, lab, src, k)
  {}

  lemma {:induction false} DiscoveredPast(g: Graph, src: Name, k: nat)
    requires k >= |Discovered(g, src, k)|
    ensures Discovered(g, src, k + 1) == Discovered(g, src, k)
  {}

  /** The tree is expanded in the order in which a breadth-first search of the graph finds the
      nodes. */
  lemma {:induction false} SameOrder(g: Graph, src: Name, lab: map<Name, nat>)
    requires Labelled(g, src, lab, 0) && Closed(g, lab)
    ensures MulticastTree(g, lab, src).list == Order(g, src)
  {
    hide *;
    SameOrderAt(g, src, lab, |g.Keys|);
    TreeIs(g, lab, src);
    OrderIs(g, src);
  }

  // `lab` holds the distances, and `path` is the tree that follows from them.
  ghost predicate TreeBy(g: Graph, src: Name, lab: map<Name, nat>, path: map<Name, seq<Name>>)
  {
    && Distances(g, src, lab) && Labelled(g, src, lab, 0) && Closed(g, lab)
    && path == MulticastTree(g, lab, src).path
  }

  ghost predicate TreeFrom(g: Graph, src: Name, path: map<Name, seq<Name>>)
  {
    exists lab :: TreeBy(g, src, lab, path)
  }

  lemma {:induction false} TreeLabels(g: Graph, src: Name, path: map<Name, seq<Name>>) returns (lab: map<Name, nat>)
    requires TreeFrom(g, src, path)
    ensures TreeBy(g, src, lab, path)
  {
    lab :| TreeBy(g, src, lab, path);
  }

  lemma {:induction false} ShutTree(g: Graph, src: Name, lab: map<Name, nat>)
    requires Distances(g, src, lab) && Labelled(g, src, lab, 0) && Closed(g, lab)
    ensures TreeFrom(g, src, MulticastTree(g, lab, src).path)
  {
    assert TreeBy(g, src, lab, MulticastTree(g, lab, src).path);
  }

  lemma {:induction false} OpenTree(g: Graph, src: Name, lab: map<Name, nat>, path: map<Name, seq<Name>>)
    requires TreeBy(g, src, lab, path)
    ensures Distances(g, src, lab) && Labelled(g, src, lab, 0) && Closed(g, lab)
    ensures path == MulticastTree(g, lab, src).path
    ensures Spreading(g, src, lab, MulticastTree(g, lab, src), |g.Keys|)
  {
    SpreadingAt(g, src, lab, |g.Keys|);
  }

  /** The multicast tree is a spanning tree of shortest paths. */
  lemma {:induction false} TreeIsTree(g: Graph, src: Name, lab: map<Name, nat>, path: map<Name, seq<Name>>)
    requires TreeBy(g, src, lab, path)
    ensures Tree(g, src, lab, path)
  {
    hide *;
    OpenTree(g, src, lab, path);
    SpreadingTree(g, src, lab, MulticastTree(g, lab, src));
  }

  lemma {:induction false} OneLabelling(g: Graph, src: Name, lab: map<Name, nat>, lab': map<Name, nat>)
    requires Distances(g, src, lab) && Distances(g, src, lab')
    ensures lab == lab'
  {
    forall v ensures v in lab <==> v in lab' {
      DistancesAre(g, src, lab, v);
      DistancesAre(g, src, lab', v);
    }
    forall v | v in lab ensures lab[v] == lab'[v] {
      DistancesAre(g, src, lab, v);
      DistancesAre(g, src, lab', v);
    }
  }

  /** A graph has one multicast tree from `src`. */
  lemma {:induction false} OneTree(g: Graph, src: Name, path: map<Name, seq<Name>>, path': map<Name, seq<Name>>)
    requires TreeFrom(g, src, path) && TreeFrom(g, src, path')
    ensures path == path'
  {
    hide *;
    var lab := TreeLabels(g, src, path);
    var lab' := TreeLabels(g, src, path');
    OpenTree(g, src, lab, path);
    OpenTree(g, src, lab', path');
    OneLabelling(g, src, lab, lab');
  }

  /** Every node that can be reached is expanded once, and has as its children the nodes it is
      the first parent of, in the order in which a search of the graph finds the nodes. */
  lemma {:induction false} FirstOwner(g: Graph, src: Name, lab: map<Name, nat>, path: map<Name, seq<Name>>, j: nat,
      v: Name)
    requires TreeBy(g, src, lab, path)
    ensures var list := Order(g, src);
      && NoDup(list) && (v in list <==> v in lab)
      && (j < |list| ==> list[j] in path && (v in path[list[j]] <==> FirstParent(g, lab, list, j, v)))
  {
    var t := MulticastTree(g, lab, src);
    hide FirstParent, TreeBy, MulticastTree, Order;
    OpenTree(g, src, lab, path);
    SameOrder(g, src, lab);
    SpreadingSize(g, src, lab, t, |g.Keys|);
    if v in lab { AllFound(g, src, lab, t, v); }
    assert j < |t.list| ==> KidsAt(g, lab, t, j);
  }

  lemma {:induction false} SpreadStart(g: Graph, lab: map<Name, nat>, src: Name)
    ensures Spread(g, lab, src, 0) == Multicast(map[], [src])
  {}

  lemma {:induction false} SpreadNext(g: Graph, lab: map<Name, nat>, src: Name, k: nat)
    ensures var t := Spread(g, lab, src, k);
      k < |t.list| && t.list[k] in g ==>
        var kids := NewKids(g, lab, t.list[k], |g[t.list[k]]|, t.list);
        Spread(g, lab, src, k + 1) == Multicast(t.path[t.list[k] := kids], t.list + kids)
  {}

  // What the search sees at a neighbour of the node being expanded.
  lemma {:induction false} KidAt(g: Graph, src: Name, lab: map<Name, nat>, u: Name, i: nat)
    requires Labelled(g, src, lab, 0) && Closed(g, lab) && u in lab && u in g && i < |g[u]|
    ensures var n := g[u][i].name;
      n in lab && (Parent(g, lab, u, n) <==> lab[n] == lab[u] + 1) && (lab[n] == lab[u] + 1 ==> n != src)
  {
    assert Edge(g, u, g[u][i].name);
  }

  /** The multicast tree from `src`: each node is given to the first parent that finds it. */
  method GetForwardNextNodes(g: Graph, src: Name) returns (path: map<Name, seq<Name>>)
    requires Built(g) && src in g
    ensures TreeFrom(g, src, path)
  {
    hide *;
    var visited; ghost var order;
    visited, order := Label(g, src);
    ghost var lab := visited;
    path := map[];
    var included: set<Name> := {};
    var list := [src];
    var ith := 0;
    SpreadStart(g, lab, src);
    while ith < |list|
      invariant Spread(g, lab, src, ith) == Multicast(path, list) && ith <= |list|
      invariant |list| > 0 && list[0] == src && included == (set x | x in list[1..])
      decreases |g.Keys| - ith
    {
      ghost var was := Spread(g, lab, src, ith);
      SpreadingAt(g, src, lab, ith);
      SpreadingSize(g, src, lab, was, ith);
      var now := list[ith];
      assert now in list;
      var id := visited[now];
      path := path[now := []];
      var neighbors := g[now];
      KidsStart(g, lab, now, was.list);
      for i := 0 to |neighbors|
        invariant path == was.path[now := NewKids(g, lab, now, i, was.list)]
        invariant list == was.list + NewKids(g, lab, now, i, was.list)
        invariant |list| > 0 && list[0] == src && included == (set x | x in list[1..])
      {
        KidAt(g, src, lab, now, i);
        KidsStep(g, lab, now, i, was.list);
        var name := neighbors[i].name;
        var neighId := visited[name];
        assert name in list <==> name in included || name == src;
        if neighId == id + 1 {
          assert (list + [name])[1..] == list[1..] + [name];
          if name !in included {
            path := path[now := path[now] + [name]];
            included := included + {name};
          }
          if name !in list {
            list := list + [name];
          }
        }
      }
      SpreadNext(g, lab, src, ith);
      ith := ith + 1;
    }
    SpreadingAt(g, src, lab, ith);
    SpreadingSize(g, src, lab, Spread(g, lab, src, ith), ith);
    SpreadDone(g, lab, src, ith, |g.Keys|);
    TreeIs(g, lab, src);
    ShutTree(g, src, lab);
  }

  lemma {:induction false} TreeIs(g: Graph, lab: map<Name, nat>, src: Name)
    ensures MulticastTree(g, lab, src) == Spread(g, lab, src, |g.Keys|)
  {}
}
