/** A graph on which the rules for condition packets cannot be made: of two switches that lead to
    the same three, the search expands one first, and the other is left without children.
    Its distances and its order of discovery are worked out here. */
module Diamond {
  import opened Finite
  import opened Topology
  import opened Routes
  import opened Ports

  // Two switches with no hosts between the same three others.
  function Net(): Graph
  {
    map[
      "h1" := [Neighbor(0, "s1", 1)],
      "s1" := [Neighbor(1, "h1", 0), Neighbor(2, "s2", 1), Neighbor(3, "s3", 1)],
      "s2" := [Neighbor(1, "s1", 2), Neighbor(2, "s4", 1), Neighbor(3, "s5", 1)],
      "s3" := [Neighbor(1, "s1", 3), Neighbor(2, "s4", 2), Neighbor(3, "s5", 2)],
      "s4" := [Neighbor(1, "s2", 2), Neighbor(2, "s3", 2), Neighbor(3, "h4", 0)],
      "s5" := [Neighbor(1, "s2", 3), Neighbor(2, "s3", 3), Neighbor(3, "h5", 0)],
      "h4" := [Neighbor(0, "s4", 3)],
      "h5" := [Neighbor(0, "s5", 3)]
    ]
  }

  function Labels(): map<Name, nat>
  {
    map["h1" := 0, "s1" := 1, "s2" := 2, "s3" := 2, "s4" := 3, "s5" := 3, "h4" := 4, "h5" := 4]
  }

  predicate Ahead(u: Name, v: Name)
  {
    || (u == "h1" && v == "s1")
    || (u == "s1" && (v == "s2" || v == "s3"))
    || ((u == "s2" || u == "s3") && (v == "s4" || v == "s5"))
    || (u == "s4" && v == "h4")
    || (u == "s5" && v == "h5")
  }

  lemma {:induction false} LinkAhead(u: Name, v: Name)
    requires Edge(Net(), u, v)
    ensures Ahead(u, v) || Ahead(v, u)
  {}

  lemma {:induction false} AheadLink(u: Name, v: Name)
    requires Ahead(u, v)
    ensures Edge(Net(), u, v)
  {
    var g: Graph := Net();
    assert g[u][|g[u]| - 1].name == v || g[u][|g[u]| - 2].name == v;
  }

  lemma {:induction false} LinkBack(u: Name, v: Name)
    requires Ahead(u, v)
    ensures Edge(Net(), v, u)
  {
    var g: Graph := Net();
    assert g[v][0].name == u || g[v][1].name == u;
  }

  lemma {:induction false} SameNodes(n: Name)
    ensures n in Net() <==> n in Labels()
  {}

  lemma {:induction false} ParentOf(n: Name) returns (u: Name)
    requires n in Labels() && n != "h1"
    ensures u in Labels() && Ahead(u, n) && Labels()[u] + 1 == Labels()[n]
  {
    u := if n == "s1" then "h1" else if n == "s2" || n == "s3" then "s1" else
      if n == "h4" then "s4" else if n == "h5" then "s5" else "s2";
  }

  lemma {:induction false} AheadLabels(u: Name, v: Name)
    requires Ahead(u, v)
    ensures u in Labels() && v in Labels() && Labels()[u] + 1 == Labels()[v]
  {}

  lemma {:induction false} Linked(n: Name)
    requires n in Net()
    ensures Net()[n] != []
  {}

  lemma {:induction false} LinkLabels(u: Name, v: Name)
    requires Edge(Net(), u, v)
    ensures Edge(Net(), v, u) && u in Net() && v in Net()
    ensures var lab := Labels();
      u in lab && v in lab && lab[v] <= lab[u] + 1
  {
    hide *;
    LinkAhead(u, v);
    SameNodes(u);
    SameNodes(v);
    if Ahead(u, v) {
      AheadLabels(u, v);
      LinkBack(u, v);
    } else {
      AheadLabels(v, u);
      AheadLink(v, u);
    }
  }

  lemma {:induction false} LabelParent(n: Name)
    requires n in Labels() && n != "h1"
    ensures HasParent(Net(), Labels(), n)
  {
    var u := ParentOf(n);
    hide Net, Labels, Ahead, Edge;
    AheadLink(u, n);
  }

  lemma {:induction false} Labelling()
    ensures Built(Net()) && Labelled(Net(), "h1", Labels(), 0) && Closed(Net(), Labels())
  {
    var g: Graph, lab := Net(), Labels();
    assert "h1" in lab && lab["h1"] == 0;
    hide Net, Labels, Edge, HasParent;
    forall u, v | Edge(g, u, v)
      ensures Edge(g, v, u) && u in lab && v in lab && lab[v] <= lab[u] + 1 && u in g && v in g
    {
      LinkLabels(u, v);
    }
    forall n | n in g ensures g[n] != [] {
      Linked(n);
    }
    forall n | n in lab ensures n in g && (n == "h1" || HasParent(g, lab, n)) {
      SameNodes(n);
      if n != "h1" { LabelParent(n); }
    }
  }

  lemma {:induction false} BehindHost()
    ensures Unseen(Net(), "h1", 1, ["h1"]) == ["s1"]
  {
    var one := ["h1"];
    UnseenStart(Net(), "h1", one);
    UnseenStep(Net(), "h1", 0, one);
    hide Unseen;
  }

  lemma {:induction false} BehindFirst()
    ensures Unseen(Net(), "s1", 3, ["h1", "s1"]) == ["s2", "s3"]
  {
    var two := ["h1", "s1"];
    UnseenStart(Net(), "s1", two);
    UnseenStep(Net(), "s1", 0, two);
    UnseenStep(Net(), "s1", 1, two);
    UnseenStep(Net(), "s1", 2, two);
    hide Unseen;
  }

  // A search from `h1` finds `h1`, `s1`, `s2`, and then `s3`.
  lemma {:induction false} FirstFour()
    ensures Discovered(Net(), "h1", 2) == ["h1", "s1", "s2", "s3"]
  {
    var g: Graph := Net();
    assert |g["h1"]| == 1 && |g["s1"]| == 3;
    hide *;
    SameNodes("h1");
    SameNodes("s1");
    DiscoveredStart(g, "h1");
    DiscoveredNext(g, "h1", 0);
    BehindHost();
    assert Discovered(g, "h1", 1) == ["h1", "s1"];
    DiscoveredNext(g, "h1", 1);
    BehindFirst();
  }

  /** A graph on which the generator fails: both nodes behind `s3` are given to `s2`. */
  lemma {:induction false} Starves()
    ensures Built(Net()) && "h1" in Net() && Starved(Net(), "h1", "s3")
  {
    var g: Graph, lab := Net(), Labels();
    Labelling();
    ClosedDistances(g, "h1", lab);
    FirstFour();
    Size();
    DiscoveredGrows(g, "h1", 2, |g.Keys|);
    OrderIs(g, "h1");
    var list := Order(g, "h1");
    hide *;
    assert list[2] == "s2" && list[3] == "s3";
    forall v | Parent(g, lab, "s3", v) ensures EarlierParent(g, lab, list, 3, v) {
      SameParents(v);
      ShutEarlier(g, lab, list, 2, 3, v);
    }
    ShutStarved(g, "h1", lab, 3, "s3");
  }

  lemma {:induction false} Size()
    ensures |Net().Keys| >= 2
  {
    var two: seq<Name> := ["h1", "s1"];
    NoDupSize(two, Net().Keys);
  }

  lemma {:induction false} SameParents(v: Name)
    requires Parent(Net(), Labels(), "s3", v)
    ensures Parent(Net(), Labels(), "s2", v)
  {
    LinkAhead("s3", v);
    AheadLink("s2", v);
  }

  lemma {:induction false} ShutEarlier(g: Graph, lab: map<Name, nat>, list: seq<Name>, i: nat, j: nat, v: Name)
    requires i < j && i < |list| && Parent(g, lab, list[i], v)
    ensures EarlierParent(g, lab, list, j, v)
  {}

  lemma {:induction false} ShutStarved(g: Graph, src: Name, lab: map<Name, nat>, j: nat, n: Name)
    requires Distances(g, src, lab) && !IsHost(n) && j < |Order(g, src)|
    requires var list := Order(g, src);
      list[j] == n && forall v :: Parent(g, lab, n, v) ==> EarlierParent(g, lab, list, j, v)
    ensures Starved(g, src, n)
  {
    assert StarvedAt(g, src, lab, j, n);
  }
}
