/** What the generated tables make packets do. */
module Delivery {
  import opened Finite
  import opened Topology
  import opened Routes

  // A packet's way when every node forwards to one of its listed next hops.
  ghost predicate Follows(path: map<Name, seq<Name>>, p: seq<Name>)
  {
    |p| > 0 && forall i :: 0 <= i < |p| - 1 ==> p[i] in path && p[i + 1] in path[p[i]]
  }

  lemma {:induction false} FollowsLabels(g: Graph, dst: Name, lab: map<Name, nat>, path: map<Name, seq<Name>>,
      p: seq<Name>, i: nat)
    requires NextHops(g, dst, lab, path) && Follows(path, p) && p[0] in lab && i < |p|
    ensures p[i] in lab && lab[p[i]] + i == lab[p[0]]
  {
    if i > 0 {
      FollowsLabels(g, dst, lab, path, p, i - 1);
      assert p[i - 1] in path && p[i - 1 + 1] in path[p[i - 1]];
      assert Parent(g, lab, p[i], p[i - 1]);
    }
  }

  /** Whichever listed next hop each node picks, the packet never visits a node twice, never
      takes more hops than the distance, and can stop only at `dst`, after exactly as many. */
  lemma {:induction false} ForwardingArrives(g: Graph, dst: Name, lab: map<Name, nat>, path: map<Name, seq<Name>>,
      p: seq<Name>)
    requires NextHops(g, dst, lab, path) && Labelled(g, dst, lab, 0) && Follows(path, p) && p[0] in lab
    ensures NoDup(p) && |p| <= lab[p[0]] + 1
    ensures p[|p| - 1] !in path <==> p[|p| - 1] == dst
    ensures p[|p| - 1] == dst <==> |p| == lab[p[0]] + 1
  {
    forall i | 0 <= i < |p| ensures p[i] in lab && lab[p[i]] + i == lab[p[0]] {
      FollowsLabels(g, dst, lab, path, p, i);
    }
    var z := p[|p| - 1];
    if z != dst { assert HasParent(g, lab, z); }
  }

  /** The same of the tables as generated, with distances measured by the shortest walks. */
  lemma {:induction false} ForwardingIsShortest(g: Graph, dst: Name, path: map<Name, seq<Name>>, p: seq<Name>, d: nat)
    requires HopsTowards(g, dst, path) && Follows(path, p) && IsDist(g, dst, p[0], d)
    ensures NoDup(p) && |p| <= d + 1
    ensures p[|p| - 1] !in path <==> p[|p| - 1] == dst
    ensures p[|p| - 1] == dst <==> |p| == d + 1
  {
    var lab := HopLabels(g, dst, path);
    DistancesAre(g, dst, lab, p[0]);
    hide IsDist, Distances, Closed;
    ForwardingArrives(g, dst, lab, path, p);
  }

  lemma {:induction false} WalkDescends(g: Graph, dst: Name, lab: map<Name, nat>, p: seq<Name>, i: nat)
    requires Built(g) && Labelled(g, dst, lab, 0) && Closed(g, lab)
    requires Walk(g, p) && p[|p| - 1] == dst && i < |p|
    ensures p[i] in lab && lab[p[i]] <= |p| - 1 - i
    decreases |p| - i
  {
    if i < |p| - 1 {
      WalkDescends(g, dst, lab, p, i + 1);
      assert Edge(g, p[i], p[i + 1]);
      assert Edge(g, p[i + 1], p[i]);
    }
  }

  lemma {:induction false} WalkClimbs(g: Graph, dst: Name, lab: map<Name, nat>, p: seq<Name>, i: nat)
    requires Built(g) && Labelled(g, dst, lab, 0) && Closed(g, lab)
    requires Walk(g, p) && p[|p| - 1] == dst && i < |p|
    ensures p[0] in lab && p[i] in lab && lab[p[0]] <= lab[p[i]] + i
  {
    WalkDescends(g, dst, lab, p, i);
    if i > 0 {
      WalkClimbs(g, dst, lab, p, i - 1);
      assert Edge(g, p[i - 1], p[i - 1 + 1]);
      assert Edge(g, p[i], p[i - 1]);
    }
  }

  /** The ways the tables allow from a node to `dst` are exactly the shortest paths. */
  lemma {:induction false} ShortestPaths(g: Graph, dst: Name, lab: map<Name, nat>, path: map<Name, seq<Name>>,
      p: seq<Name>)
    requires Built(g) && Labelled(g, dst, lab, 0) && Closed(g, lab) && NextHops(g, dst, lab, path)
    requires |p| > 0 && p[0] in lab && p[|p| - 1] == dst
    ensures Follows(path, p) <==> Walk(g, p) && |p| == lab[p[0]] + 1
  {
    if Follows(path, p) {
      ForwardingArrives(g, dst, lab, path, p);
      forall i | 0 <= i < |p| - 1 ensures Edge(g, p[i], p[i + 1]) {
        assert Parent(g, lab, p[i + 1], p[i]);
        assert Edge(g, p[i + 1], p[i]);
      }
    }
    if Walk(g, p) && |p| == lab[p[0]] + 1 {
      forall i | 0 <= i < |p| - 1 ensures p[i] in path && p[i + 1] in path[p[i]] {
        WalkDescends(g, dst, lab, p, i);
        WalkClimbs(g, dst, lab, p, i);
        WalkDescends(g, dst, lab, p, i + 1);
        WalkClimbs(g, dst, lab, p, i + 1);
        assert Edge(g, p[i], p[i + 1]);
        assert Parent(g, lab, p[i + 1], p[i]);
        assert p[i] != dst;
      }
    }
  }

  // The copies that arrive after `k` hops when every node sends one to each of its children.
  ghost function Copies(path: map<Name, seq<Name>>, src: Name, k: nat): seq<Name>
  {
    if k == 0 then [src] else Sent(path, Copies(path, src, k - 1))
  }

  ghost function Sent(path: map<Name, seq<Name>>, at: seq<Name>): seq<Name>
  {
    if at == [] then [] else Sent(path, at[..|at| - 1]) + (if at[|at| - 1] in path then path[at[|at| - 1]] else [])
  }

  // `v` is a child of one of the nodes of `at`.
  ghost predicate ChildOf(path: map<Name, seq<Name>>, at: seq<Name>, v: Name)
  {
    exists u :: u in at && u in path && v in path[u]
  }

  lemma {:induction false} ChildOfMore(path: map<Name, seq<Name>>, at: seq<Name>, z: Name, v: Name)
    ensures ChildOf(path, at + [z], v) <==> ChildOf(path, at, v) || (z in path && v in path[z])
  {
    assert forall u :: u in at + [z] <==> u in at || u == z;
  }

  lemma {:induction false} SentOnce(g: Graph, src: Name, lab: map<Name, nat>, path: map<Name, seq<Name>>, at: seq<Name>)
    requires Tree(g, src, lab, path) && NoDup(at) && forall u :: u in at ==> u in lab
    ensures NoDup(Sent(path, at))
    ensures forall v :: v in Sent(path, at) <==> ChildOf(path, at, v)
  {
    if at != [] {
      var rest, z := at[..|at| - 1], at[|at| - 1];
      assert z !in rest && z in path && at == rest + [z];
      SentOnce(g, src, lab, path, rest);
      var s, t := Sent(path, rest), path[z];
      hide Owned, Parent;
      forall v | v in s ensures v !in t {
        var u :| u in rest && u in path && v in path[u];
        assert u != z;
      }
      NoDupConcat(s, t);
      assert Sent(path, at) == s + t;
      forall v ensures v in Sent(path, at) <==> ChildOf(path, at, v) { ChildOfMore(path, rest, z, v); }
    }
  }

  /** A packet multicast along the tree reaches every node that can be reached exactly once:
      after as many hops as the node is far, and at no other time. */
  lemma {:induction false} MulticastOnce(g: Graph, src: Name, lab: map<Name, nat>, path: map<Name, seq<Name>>, k: nat)
    requires Labelled(g, src, lab, 0) && Tree(g, src, lab, path)
    ensures NoDup(Copies(path, src, k))
    ensures forall v :: v in Copies(path, src, k) <==> v in lab && lab[v] == k
  {
    if k == 0 {
      forall v | v in lab && v != src ensures lab[v] > 0 {
        assert HasParent(g, lab, v);
      }
    } else {
      MulticastOnce(g, src, lab, path, k - 1);
      var at := Copies(path, src, k - 1);
      SentOnce(g, src, lab, path, at);
      forall v ensures v in Copies(path, src, k) <==> v in lab && lab[v] == k {
        if v in lab && lab[v] == k {
          assert v != src;
          assert Owned(path, v);
          var u :| u in path && v in path[u];
          assert Parent(g, lab, u, v);
          assert u in at;
        }
        if v in Sent(path, at) {
          var u :| u in at && u in path && v in path[u];
          assert Parent(g, lab, u, v);
        }
      }
    }
  }

  /** The same of the tree as generated: the copies that arrive after `k` hops are one for each
      node at distance `k`. */
  lemma {:induction false} MulticastReachesAll(g: Graph, src: Name, path: map<Name, seq<Name>>, k: nat, v: Name)
    requires TreeFrom(g, src, path)
    ensures NoDup(Copies(path, src, k)) && (v in Copies(path, src, k) <==> IsDist(g, src, v, k))
  {
    var lab := TreeLabels(g, src, path);
    TreeIsTree(g, src, lab, path);
    DistancesAre(g, src, lab, v);
    hide IsDist, Distances, Copies, MulticastTree;
    MulticastOnce(g, src, lab, path, k);
  }
}
