/** From next hops to output ports: the forwarding rules of the switches. */
module Ports {
  import opened Finite
  import opened Topology
  import opened Routes
  import opened Delivery

  // Which next hops get a rule.
  datatype RuleKind = BothRules | OnlySinglePath | OnlyEcmpPath

  // Names of hosts are an h and a number; all other nodes are switches.
  predicate IsHost(n: Name) { |n| >= 2 && n[0] == 'h' && '0' <= n[1] <= '9' }

  // An h, a digit, and anything behind.
  ghost predicate Numbered(n: Name, digit: char, rest: Name) { '0' <= digit <= '9' && n == "h" + [digit] + rest }

  /** Hosts are exactly the nodes that are named like that. */
  lemma {:induction false} HostNames(n: Name)
    ensures IsHost(n) <==> exists digit, rest :: Numbered(n, digit, rest)
  {
    if IsHost(n) {
      assert n == "h" + [n[1]] + n[2..];
      assert Numbered(n, n[1], n[2..]);
    }
  }

  // Port `port` of `n` is joined to `m`.
  ghost predicate PortTo(g: Graph, n: Name, port: nat, m: Name)
  {
    n in g && exists i :: 0 <= i < |g[n]| && g[n][i].ethid == port && g[n][i].name == m
  }

  // No port of a switch is joined to two nodes. All links of a host are at its port 0.
  ghost predicate DistinctPorts(g: Graph)
  {
    forall n, i, j :: n in g && !IsHost(n) && 0 <= i < |g[n]| && 0 <= j < |g[n]| && g[n][i].ethid == g[n][j].ethid ==> g[n][i].name == g[n][j].name
  }

  // One port for each of the next hops, in order.
  ghost predicate PortsTo(g: Graph, n: Name, ports: seq<nat>, next: seq<Name>)
  {
    |ports| == |next| && forall i :: 0 <= i < |next| ==> PortTo(g, n, ports[i], next[i])
  }

  lemma {:induction false} PortsToAdd(g: Graph, n: Name, ports: seq<nat>, next: seq<Name>, i: nat, k: nat)
    requires i < |next| && PortsTo(g, n, ports, next[..i]) && n in g && k < |g[n]| && g[n][k].name == next[i]
    ensures PortsTo(g, n, ports + [g[n][k].ethid], next[..i + 1])
  {
    assert PortTo(g, n, g[n][k].ethid, next[i]);
  }

  // The ports towards several next hops.
  method SelectPorts(g: Graph, n: Name, next: seq<Name>) returns (ports: seq<nat>)
    requires n in g && forall m :: m in next ==> Edge(g, n, m)
    ensures PortsTo(g, n, ports, next)
  {
    ports := [];
    for i := 0 to |next|
      invariant PortsTo(g, n, ports, next[..i])
    {
      ghost var was := ports;
      assert next[i] in next;
      for k := 0 to |g[n]|
        invariant ports == was && forall j :: 0 <= j < k ==> g[n][j].name != next[i]
      {
        if next[i] == g[n][k].name {
          ports := ports + [g[n][k].ethid];
          PortsToAdd(g, n, was, next, i, k);
          break;
        }
      }
    }
    assert next[..|next|] == next;
  }

  // The port towards one next hop.
  method SelectPort(g: Graph, n: Name, next: Name) returns (port: nat)
    requires n in g && Edge(g, n, next)
    ensures PortTo(g, n, port, next)
  {
    port := 1;
    for k := 0 to |g[n]|
      invariant (exists j :: 0 <= j < k && g[n][j].name == next) ==> PortTo(g, n, port, next)
    {
      if g[n][k].name == next {
        port := g[n][k].ethid;
      }
    }
  }

  // The next hops that a rule is made for.
  function Chosen(kind: RuleKind, next: seq<Name>): seq<Name>
  {
    if |next| > 1 && kind.OnlySinglePath? then [next[0]] else next
  }

  predicate HasRule(kind: RuleKind, n: Name, next: seq<Name>)
  {
    !IsHost(n) && (kind.OnlyEcmpPath? ==> |next| > 1)
  }

  /** Each switch outside `todo` that is due a rule has one port for each next hop chosen. */
  ghost predicate RulesFor(g: Graph, kind: RuleKind, path: map<Name, seq<Name>>, todo: set<Name>, rules: map<Name,
      seq<nat>>)
  {
    && (forall n :: n in rules <==> n in path && n !in todo && HasRule(kind, n, path[n]))
    && (forall n :: n in rules && n in path ==> PortsTo(g, n, rules[n], Chosen(kind, path[n])))
  }

  lemma {:induction false} RulesAdd(g: Graph, kind: RuleKind, path: map<Name, seq<Name>>, todo: set<Name>,
      rules: map<Name, seq<nat>>, n: Name, ports: seq<nat>)
    requires RulesFor(g, kind, path, todo, rules) && n in todo && n in path
    ensures !HasRule(kind, n, path[n]) ==> RulesFor(g, kind, path, todo - {n}, rules)
    ensures HasRule(kind, n, path[n]) && PortsTo(g, n, ports, Chosen(kind, path[n])) ==>
      RulesFor(g, kind, path, todo - {n}, rules[n := ports])
  {
    hide PortsTo;
  }

  lemma {:induction false} HopEdges(g: Graph, dst: Name, lab: map<Name, nat>, path: map<Name, seq<Name>>, n: Name)
    requires Built(g) && NextHops(g, dst, lab, path) && n in path
    ensures n in g && path[n] != [] && forall m :: m in path[n] ==> Edge(g, n, m)
  {
    assert path[n][0] in path[n];
    forall m | m in path[n] ensures Edge(g, n, m) {
      assert Parent(g, lab, m, n);
    }
  }

  // A neighbour of `n` one hop nearer to `dst`.
  ghost predicate Nearer(g: Graph, dst: Name, n: Name, m: Name)
  {
    Edge(g, n, m) && exists d: nat :: IsDist(g, dst, m, d) && IsDist(g, dst, n, d + 1)
  }

  // Several links lead from `n` one hop nearer: to different neighbours, or to the same.
  ghost predicate SeveralNearer(g: Graph, dst: Name, n: Name)
  {
    || (exists m :: Nearer(g, dst, n, m) && Links(g, m, n) > 1)
    || exists m, m' :: m != m' && Nearer(g, dst, n, m) && Nearer(g, dst, n, m')
  }

  // The next hops of a node, from its neighbours.
  ghost predicate HopsAre(g: Graph, dst: Name, n: Name, next: seq<Name>)
  {
    && next != [] && (forall m :: m in next <==> Nearer(g, dst, n, m))
    && forall m :: m in next ==> multiset(next)[m] == Links(g, m, n)
  }

  lemma {:induction false} OpenHopsAre(g: Graph, dst: Name, path: map<Name, seq<Name>>, n: Name)
    requires Built(g) && HopsTowards(g, dst, path)
    ensures n in path <==> n != dst && Reachable(g, dst, n)
    ensures n in path ==> HopsAre(g, dst, n, path[n])
  {
    hide Built, HopsTowards, Reachable, Edge, IsDist, Links;
    HopsAreNearer(g, dst, path, n, n);
    forall m
      ensures n in path ==> (m in path[n] <==> Nearer(g, dst, n, m))
      ensures n in path && m in path[n] ==> multiset(path[n])[m] == Links(g, m, n)
    {
      HopsAreNearer(g, dst, path, n, m);
    }
  }

  lemma {:induction false} SeveralHops(g: Graph, dst: Name, n: Name, next: seq<Name>)
    requires HopsAre(g, dst, n, next)
    ensures |next| > 1 <==> SeveralNearer(g, dst, n)
  {
    hide Nearer, Links;
    if |next| > 1 {
      assert next[0] in next && next[1] in next;
      if next[0] == next[1] { Twice(next, 0, 1); }
    }
    if |next| == 1 {
      assert next == [next[0]];
      forall m ensures multiset(next)[m] <= 1 {}
    }
  }

  lemma {:induction false} Twice(s: seq<Name>, i: nat, j: nat)
    requires i < j < |s| && s[i] == s[j]
    ensures multiset(s)[s[i]] > 1
  {
    assert s == s[..j] + s[j..] && s[i] == s[..j][i] && s[j] == s[j..][0];
    assert s[i] in s[..j] && s[i] in s[j..];
  }

  // Which switches have a rule, and to which neighbours each outputs.
  ghost predicate OutputsNearer(g: Graph, dst: Name, kind: RuleKind, rules: map<Name, seq<nat>>)
  {
    && (forall n :: n in rules <==>
          !IsHost(n) && n != dst && Reachable(g, dst, n) && (kind.OnlyEcmpPath? ==> SeveralNearer(g, dst, n)))
    && (forall n, m :: n in rules && !kind.OnlySinglePath? ==> (Outputs(g, n, rules[n], m) <==> Nearer(g, dst, n, m)))
    && (forall n :: n in rules && kind.OnlySinglePath? ==> OutputsOneNearer(g, dst, n, rules[n]))
  }

  ghost predicate OutputsOneNearer(g: Graph, dst: Name, n: Name, ports: seq<nat>)
  {
    exists m :: Nearer(g, dst, n, m) && forall m' :: Outputs(g, n, ports, m') <==> m' == m
  }

  lemma {:induction false} OutputsAre(g: Graph, n: Name, ports: seq<nat>, next: seq<Name>, m: Name)
    requires DistinctPorts(g) && !IsHost(n) && PortsTo(g, n, ports, next)
    ensures Outputs(g, n, ports, m) <==> m in next
  {
    if Outputs(g, n, ports, m) { OutputsNext(g, n, ports, next, m); }
    hide PortTo;
    if m in next {
      var i :| 0 <= i < |next| && next[i] == m;
      assert PortTo(g, n, ports[i], m);
    }
  }

  /** A switch with a rule outputs to exactly its neighbours one hop nearer to `dst`, and to exactly
      one of them where only single paths are installed. All switches that can reach `dst` have a rule,
      those with a single link that leads nearer only unless ECMP paths alone are installed. */
  lemma {:induction false} RulesOutput(g: Graph, dst: Name, kind: RuleKind, path: map<Name, seq<Name>>,
      rules: map<Name, seq<nat>>)
    requires Built(g) && DistinctPorts(g) && HopsTowards(g, dst, path) && RulesFor(g, kind, path, {}, rules)
    ensures OutputsNearer(g, dst, kind, rules)
  {
    hide Built, DistinctPorts, HopsTowards, Reachable, Nearer, SeveralNearer, Outputs, PortsTo, IsHost, HopsAre;
    forall n
      ensures n in rules <==>
        !IsHost(n) && n != dst && Reachable(g, dst, n) && (kind.OnlyEcmpPath? ==> SeveralNearer(g, dst, n))
    {
      OpenHopsAre(g, dst, path, n);
      if n in path { SeveralHops(g, dst, n, path[n]); }
    }
    forall n | n in rules
      ensures !kind.OnlySinglePath? ==> forall m :: Outputs(g, n, rules[n], m) <==> Nearer(g, dst, n, m)
      ensures kind.OnlySinglePath? ==> OutputsOneNearer(g, dst, n, rules[n])
    {
      OpenHopsAre(g, dst, path, n);
      RuleOutputs(g, dst, kind, n, path[n], rules[n]);
    }
  }

  lemma {:induction false} RuleOutputs(g: Graph, dst: Name, kind: RuleKind, n: Name, next: seq<Name>, ports: seq<nat>)
    requires DistinctPorts(g) && !IsHost(n) && HopsAre(g, dst, n, next) && PortsTo(g, n, ports, Chosen(kind, next))
    ensures !kind.OnlySinglePath? ==> forall m :: Outputs(g, n, ports, m) <==> Nearer(g, dst, n, m)
    ensures kind.OnlySinglePath? ==> OutputsOneNearer(g, dst, n, ports)
  {
    hide DistinctPorts, Nearer, Outputs, PortsTo, IsHost, Links;
    forall m ensures Outputs(g, n, ports, m) <==> m in Chosen(kind, next) {
      OutputsAre(g, n, ports, Chosen(kind, next), m);
    }
    assert next[0] in next;
    if kind.OnlySinglePath? { assert Chosen(kind, next) == [next[0]]; }
  }

  /** The rules for ordinary packets to `dst`: for each switch that has next hops and is due a
      rule, the ports that lead to them. */
  method RulesForNormalPackets(g: Graph, dst: Name, kind: RuleKind) returns (rules: map<Name, seq<nat>>)
    requires Built(g) && dst in g
    ensures exists path :: HopsTowards(g, dst, path) && RulesFor(g, kind, path, {}, rules)
    ensures DistinctPorts(g) ==> OutputsNearer(g, dst, kind, rules)
  {
    hide Distances, Labelled, NextHops, PortsTo, RulesFor, Built, Closed, HopsTowards, OutputsNearer, DistinctPorts;
    var hops := GetReversePreNodes(g, dst);
    ghost var path := hops;
    ghost var lab := HopLabels(g, dst, path);
    rules := map[];
    var todo := hops.Keys;
    RulesNone(g, kind, path);
    while todo != {}
      invariant todo <= hops.Keys && RulesFor(g, kind, path, todo, rules)
      decreases |todo|
    {
      var entity :| entity in todo;
      var next := hops[entity];
      HopEdges(g, dst, lab, path, entity);
      var ports: seq<nat> := [];
      if IsHost(entity) {
        RulesAdd(g, kind, path, todo, rules, entity, ports);
      } else if kind != OnlySinglePath && |next| > 1 {
        ports := SelectPorts(g, entity, next);
        RulesAdd(g, kind, path, todo, rules, entity, ports);
        rules := rules[entity := ports];
      } else if kind != OnlyEcmpPath {
        var port := SelectPort(g, entity, next[0]);
        ports := [port];
        OnePort(g, entity, port, next[0]);
        assert Chosen(kind, next) == [next[0]];
        RulesAdd(g, kind, path, todo, rules, entity, ports);
        rules := rules[entity := ports];
      } else {
        RulesAdd(g, kind, path, todo, rules, entity, ports);
      }
      todo := todo - {entity};
    }
    if DistinctPorts(g) { RulesOutput(g, dst, kind, path, rules); }
  }

  lemma {:induction false} RulesNone(g: Graph, kind: RuleKind, path: map<Name, seq<Name>>)
    ensures RulesFor(g, kind, path, path.Keys, map[])
  {}

  lemma {:induction false} OnePort(g: Graph, n: Name, port: nat, next: Name)
    requires PortTo(g, n, port, next)
    ensures PortsTo(g, n, [port], [next])
  {}

  // A packet's way when every switch outputs it to one of the ports of its rule.
  ghost predicate FollowsPorts(g: Graph, rules: map<Name, seq<nat>>, p: seq<Name>)
  {
    |p| > 0 && forall i :: 0 <= i < |p| - 1 ==> p[i] in rules && Outputs(g, p[i], rules[p[i]], p[i + 1])
  }

  ghost predicate Outputs(g: Graph, n: Name, ports: seq<nat>, m: Name)
  {
    exists j :: 0 <= j < |ports| && PortTo(g, n, ports[j], m)
  }

  lemma {:induction false} OutputsNext(g: Graph, n: Name, ports: seq<nat>, next: seq<Name>, m: Name)
    requires DistinctPorts(g) && !IsHost(n) && PortsTo(g, n, ports, next) && Outputs(g, n, ports, m)
    ensures m in next
  {
    var j :| 0 <= j < |ports| && PortTo(g, n, ports[j], m);
    assert PortTo(g, n, ports[j], next[j]);
  }

  /** Whatever ports the switches pick, a packet takes no more hops than the distance, visits
      no node twice, and can only stop at `dst` or where there is no rule. */
  lemma {:induction false} PortsDeliver(g: Graph, dst: Name, lab: map<Name, nat>, path: map<Name, seq<Name>>,
      kind: RuleKind, rules: map<Name, seq<nat>>, p: seq<Name>)
    requires DistinctPorts(g) && Labelled(g, dst, lab, 0)
    requires NextHops(g, dst, lab, path) && RulesFor(g, kind, path, {}, rules)
    requires FollowsPorts(g, rules, p) && p[0] in lab
    ensures Follows(path, p) && NoDup(p) && |p| <= lab[p[0]] + 1
    ensures p[|p| - 1] == dst <==> |p| == lab[p[0]] + 1
    ensures p[|p| - 1] !in rules ==> p[|p| - 1] == dst || IsHost(p[|p| - 1]) || kind.OnlyEcmpPath?
  {
    forall i | 0 <= i < |p| - 1 ensures p[i] in path && p[i + 1] in path[p[i]] {
      assert p[i] in rules && Outputs(g, p[i], rules[p[i]], p[i + 1]);
      OutputsNext(g, p[i], rules[p[i]], Chosen(kind, path[p[i]]), p[i + 1]);
    }
    hide Outputs, PortsTo, Labelled, NextHops, DistinctPorts;
    ForwardingArrives(g, dst, lab, path, p);
  }

  lemma {:induction false} ChildEdges(g: Graph, src: Name, lab: map<Name, nat>, path: map<Name, seq<Name>>, n: Name)
    requires Tree(g, src, lab, path) && n in path && Labelled(g, src, lab, 0)
    ensures n in g && forall m :: m in path[n] ==> Edge(g, n, m)
  {
    forall m | m in path[n] ensures Edge(g, n, m) {
      assert Parent(g, lab, n, m);
    }
  }

  ghost predicate Childless(path: map<Name, seq<Name>>, n: Name)
  {
    n in path && !IsHost(n) && path[n] == []
  }

  // A switch that can be reached, and is the first parent of none of its neighbours in the
  // order in which the search from `src` expands the nodes.
  ghost predicate Starved(g: Graph, src: Name, n: Name)
  {
    exists lab, j :: StarvedAt(g, src, lab, j, n)
  }

  ghost predicate StarvedAt(g: Graph, src: Name, lab: map<Name, nat>, j: nat, n: Name)
  {
    && Distances(g, src, lab) && !IsHost(n)
    && var list := Order(g, src);
      j < |list| && list[j] == n && forall v :: Parent(g, lab, n, v) ==> EarlierParent(g, lab, list, j, v)
  }

  lemma {:induction false} ChildlessAt(g: Graph, src: Name, lab: map<Name, nat>, path: map<Name, seq<Name>>, j: nat)
    requires TreeBy(g, src, lab, path) && j < |Order(g, src)|
    ensures var list := Order(g, src);
      && list[j] in path
      && (path[list[j]] == [] <==> forall v :: Parent(g, lab, list[j], v) ==> EarlierParent(g, lab, list, j, v))
  {
    var list := Order(g, src);
    hide TreeBy, Order, EarlierParent;
    FirstOwner(g, src, lab, path, j, src);
    if path[list[j]] == [] {
      forall v | Parent(g, lab, list[j], v) ensures EarlierParent(g, lab, list, j, v) {
        FirstOwner(g, src, lab, path, j, v);
      }
    } else {
      FirstOwner(g, src, lab, path, j, path[list[j]][0]);
    }
  }

  /** The switches without children are those that are starved. */
  lemma {:induction false} ChildlessIsStarved(g: Graph, src: Name, path: map<Name, seq<Name>>, n: Name)
    requires TreeFrom(g, src, path)
    ensures Childless(path, n) <==> Starved(g, src, n)
  {
    hide *;
    var lab := TreeLabels(g, src, path);
    ChildlessBy(g, src, lab, path, n);
  }

  lemma {:induction false} ChildlessBy(g: Graph, src: Name, lab: map<Name, nat>, path: map<Name, seq<Name>>, n: Name)
    requires TreeBy(g, src, lab, path)
    ensures Childless(path, n) <==> Starved(g, src, n)
  {
    hide TreeBy, Order, Parent, EarlierParent, Distances, Tree, Labelled, Closed, NoDup, IsHost;
    OpenTree(g, src, lab, path);
    var list := Order(g, src);
    if Childless(path, n) {
      OpenListed(g, src, lab, path, n);
      var j :| 0 <= j < |list| && list[j] == n;
      ChildlessAt(g, src, lab, path, j);
      assert StarvedAt(g, src, lab, j, n);
    }
    if lab', j :| StarvedAt(g, src, lab', j, n) {
      OneLabelling(g, src, lab, lab');
      ChildlessAt(g, src, lab, path, j);
    }
  }

  lemma {:induction false} OpenListed(g: Graph, src: Name, lab: map<Name, nat>, path: map<Name, seq<Name>>, n: Name)
    requires TreeBy(g, src, lab, path)
    ensures n in path <==> n in lab
    ensures n in Order(g, src) <==> n in lab
  {
    hide *;
    FirstOwner(g, src, lab, path, 0, n);
    TreeIsTree(g, src, lab, path);
    TreeNodes(g, src, lab, path, n);
  }

  lemma {:induction false} TreeNodes(g: Graph, src: Name, lab: map<Name, nat>, path: map<Name, seq<Name>>, n: Name)
    requires Tree(g, src, lab, path)
    ensures n in path <==> n in lab
  {}

  // A host other than `src` that hangs on `n` alone.
  ghost predicate OwnHost(g: Graph, src: Name, n: Name)
  {
    exists h :: h != src && Edge(g, n, h) && forall x :: Edge(g, x, h) ==> x == n
  }

  // `src` hangs on `n` alone, and `n` leads further.
  ghost predicate Gateway(g: Graph, src: Name, n: Name)
  {
    Edge(g, src, n) && (forall x :: Edge(g, src, x) ==> x == n) && exists m :: Edge(g, n, m) && m != src && m != n
  }

  // Every switch has a host of its own, which may be `src`.
  ghost predicate HostPerSwitch(g: Graph, src: Name)
  {
    forall n :: Reachable(g, src, n) && !IsHost(n) ==> OwnHost(g, src, n) || Gateway(g, src, n)
  }

  ghost predicate RulesAlong(g: Graph, src: Name, rules: map<Name, seq<nat>>)
  {
    exists path :: TreeFrom(g, src, path) && RulesFor(g, BothRules, path, {}, rules)
  }

  // What is joined to a port of a node.
  ghost function Across(links: seq<Neighbor>, port: nat): seq<Name>
  {
    if links == [] then []
    else if links[0].ethid == port then [links[0].name]
    else Across(links[1..], port)
  }

  // The copies that a switch sends, one by each port.
  ghost function SentBy(g: Graph, n: Name, ports: seq<nat>): seq<Name>
    requires n in g
  {
    if ports == [] then []
    else SentBy(g, n, ports[..|ports| - 1]) + Across(g[n], ports[|ports| - 1])
  }

  // The copies that the nodes of `at` send. A host has no rules, and sends one to each of its children.
  ghost function SentByAll(g: Graph, rules: map<Name, seq<nat>>, path: map<Name, seq<Name>>, at: seq<Name>): seq<Name>
  {
    if at == [] then []
    else
      var n := at[|at| - 1];
      SentByAll(g, rules, path, at[..|at| - 1])
      + if IsHost(n) then if n in path then path[n] else []
        else if n in rules && n in g then SentBy(g, n, rules[n])
        else []
  }

  // The copies of a packet from `src` that arrive after `k` hops.
  ghost function CopiesByPorts(g: Graph, rules: map<Name, seq<nat>>, path: map<Name, seq<Name>>, src: Name,
      k: nat): seq<Name>
  {
    if k == 0 then [src] else SentByAll(g, rules, path, CopiesByPorts(g, rules, path, src, k - 1))
  }

  lemma {:induction false} AcrossIs(links: seq<Neighbor>, i: nat, m: Name)
    requires i < |links| && links[i].name == m
    requires forall j :: 0 <= j < |links| && links[j].ethid == links[i].ethid ==> links[j].name == m
    ensures Across(links, links[i].ethid) == [m]
  {
    if links[0].ethid != links[i].ethid { AcrossIs(links[1..], i - 1, m); }
  }

  // One copy to each of the nodes that the ports were looked up for.
  lemma {:induction false} SentByIs(g: Graph, n: Name, ports: seq<nat>, next: seq<Name>)
    requires DistinctPorts(g) && !IsHost(n) && n in g && PortsTo(g, n, ports, next)
    ensures SentBy(g, n, ports) == next
  {
    if ports != [] {
      var t := |ports| - 1;
      SentByIs(g, n, ports[..t], next[..t]);
      assert PortTo(g, n, ports[t], next[t]);
      var i :| 0 <= i < |g[n]| && g[n][i].ethid == ports[t] && g[n][i].name == next[t];
      AcrossIs(g[n], i, next[t]);
    }
  }

  lemma {:induction false} SentByAllIs(g: Graph, rules: map<Name, seq<nat>>, path: map<Name, seq<Name>>, at: seq<Name>)
    requires DistinctPorts(g) && RulesFor(g, BothRules, path, {}, rules) && forall n :: n in path ==> n in g
    ensures SentByAll(g, rules, path, at) == Sent(path, at)
  {
    if at != [] {
      var n := at[|at| - 1];
      SentByAllIs(g, rules, path, at[..|at| - 1]);
      if !IsHost(n) && n in path { SentByIs(g, n, rules[n], path[n]); }
    }
  }

  lemma {:induction false} CopiesByPortsAre(g: Graph, rules: map<Name, seq<nat>>, path: map<Name, seq<Name>>,
      src: Name, k: nat)
    requires DistinctPorts(g) && RulesFor(g, BothRules, path, {}, rules) && forall n :: n in path ==> n in g
    ensures CopiesByPorts(g, rules, path, src, k) == Copies(path, src, k)
  {
    if k > 0 {
      CopiesByPortsAre(g, rules, path, src, k - 1);
      SentByAllIs(g, rules, path, Copies(path, src, k - 1));
    }
  }

  // One copy for each node at distance `k`.
  ghost predicate OneEach(g: Graph, src: Name, k: nat, at: seq<Name>)
  {
    NoDup(at) && forall v :: v in at <==> IsDist(g, src, v, k)
  }

  // The ports of the rules send a packet from `src` to every node that can be reached, once and on a
  // shortest path.
  ghost predicate ReachesAll(g: Graph, src: Name, rules: map<Name, seq<nat>>)
  {
    exists path :: TreeFrom(g, src, path) && forall k: nat :: OneEach(g, src, k, CopiesByPorts(g, rules, path, src, k))
  }

  lemma {:induction false} TreeInGraph(g: Graph, src: Name, path: map<Name, seq<Name>>)
    requires TreeFrom(g, src, path)
    ensures forall n :: n in path ==> n in g
  {
    hide *;
    var lab := TreeLabels(g, src, path);
    TreeIsTree(g, src, lab, path);
    OpenTree(g, src, lab, path);
    forall n | n in path ensures n in g { ChildEdges(g, src, lab, path, n); }
  }

  /** When every switch sends a condition packet by the ports of its rule, the copies that arrive after
      `k` hops are one for each node at distance `k`. */
  lemma {:induction false} ConditionCopies(g: Graph, src: Name, path: map<Name, seq<Name>>, rules: map<Name, seq<nat>>,
      k: nat)
    requires DistinctPorts(g) && TreeFrom(g, src, path) && RulesFor(g, BothRules, path, {}, rules)
    ensures OneEach(g, src, k, CopiesByPorts(g, rules, path, src, k))
  {
    hide DistinctPorts, TreeFrom, RulesFor, CopiesByPorts, IsDist, NoDup, Copies;
    TreeInGraph(g, src, path);
    CopiesByPortsAre(g, rules, path, src, k);
    MulticastReachesAll(g, src, path, k, src);
    forall v ensures v in Copies(path, src, k) <==> IsDist(g, src, v, k) { MulticastReachesAll(g, src, path, k, v); }
  }

  lemma {:induction false} ShutReachesAll(g: Graph, src: Name, path: map<Name, seq<Name>>, rules: map<Name, seq<nat>>)
    requires DistinctPorts(g) && TreeFrom(g, src, path) && RulesFor(g, BothRules, path, {}, rules)
    ensures ReachesAll(g, src, rules)
  {
    hide DistinctPorts, TreeFrom, RulesFor, CopiesByPorts, OneEach;
    forall k: nat ensures OneEach(g, src, k, CopiesByPorts(g, rules, path, src, k)) {
      ConditionCopies(g, src, path, rules, k);
    }
  }

  /** The rules for condition packets from `src`, along the multicast tree. The generator looks
      up the first child of every switch, so it fails if and only if some switch is starved. */
  method RulesForConditionPackets(g: Graph, src: Name) returns (res: Search<map<Name, seq<nat>>>)
    requires Built(g) && src in g
    ensures res.Raised? <==> exists n :: Starved(g, src, n)
    ensures res.Found? ==> RulesAlong(g, src, res.value)
    ensures res.Found? && DistinctPorts(g) ==> ReachesAll(g, src, res.value)
    ensures HostPerSwitch(g, src) ==> res.Found?
  {
    hide Distances, Labelled, Tree, PortsTo, RulesFor, Built, Closed, TreeFrom, TreeBy, Starved, HostPerSwitch,
      DistinctPorts, ReachesAll;
    var next := GetForwardNextNodes(g, src);
    ghost var path := next;
    ghost var lab := TreeLabels(g, src, path);
    TreeIsTree(g, src, lab, path);
    OpenTree(g, src, lab, path);
    forall n ensures Childless(path, n) <==> Starved(g, src, n) { ChildlessIsStarved(g, src, path, n); }
    var rules := map[];
    var todo := next.Keys;
    RulesNone(g, BothRules, path);
    while todo != {}
      invariant todo <= next.Keys && RulesFor(g, BothRules, path, todo, rules)
      invariant forall n :: n in path && n !in todo ==> !Childless(path, n)
      decreases |todo|
    {
      var entity :| entity in todo;
      var children := next[entity];
      ChildEdges(g, src, lab, path, entity);
      var ports: seq<nat> := [];
      if IsHost(entity) {
        RulesAdd(g, BothRules, path, todo, rules, entity, ports);
      } else {
        if |children| > 1 {
          ports := SelectPorts(g, entity, children);
        } else {
          if |children| == 0 {
            assert Childless(path, entity);
            if HostPerSwitch(g, src) { NoneChildless(g, src, path, entity); }
            return Raised;
          }
          var port := SelectPort(g, entity, children[0]);
          OnePort(g, entity, port, children[0]);
          ports := [port];
          assert children == [children[0]];
        }
        assert Chosen(BothRules, children) == children;
        RulesAdd(g, BothRules, path, todo, rules, entity, ports);
        rules := rules[entity := ports];
      }
      todo := todo - {entity};
    }
    if DistinctPorts(g) { ShutReachesAll(g, src, path, rules); }
    return Found(rules);
  }

  /** A switch that a host other than `src` hangs on is never childless. */
  lemma {:induction false} HostedSwitch(g: Graph, src: Name, lab: map<Name, nat>, path: map<Name, seq<Name>>,
      n: Name, h: Name)
    requires Tree(g, src, lab, path) && h in lab
    requires n in path && Edge(g, n, h) && h != src && forall x :: Edge(g, x, h) ==> x == n
    ensures h in path[n] && !Childless(path, n)
  {
    assert Owned(path, h);
    var u :| u in path && h in path[u];
    assert Parent(g, lab, u, h);
  }

  // The only node next to `src` has all its other neighbours as children.
  lemma {:induction false} GatewaySwitch(g: Graph, src: Name, lab: map<Name, nat>, path: map<Name, seq<Name>>, n: Name)
    requires Tree(g, src, lab, path) && Labelled(g, src, lab, 0) && Closed(g, lab) && n in path && Gateway(g, src, n)
    ensures !Childless(path, n)
  {
    var m :| Edge(g, n, m) && m != src && m != n;
    assert lab[n] <= 1 && lab[m] <= 2;
    assert Owned(path, m);
    var u :| u in path && m in path[u];
    assert Parent(g, lab, u, m);
    hide Tree;
    if u != src { NextToSrc(g, src, lab, u); }
    assert u == n;
  }

  lemma {:induction false} NextToSrc(g: Graph, src: Name, lab: map<Name, nat>, u: Name)
    requires Labelled(g, src, lab, 0) && u in lab && lab[u] <= 1 && u != src
    ensures Edge(g, src, u)
  {
    assert HasParent(g, lab, u);
    var w :| w in lab && Edge(g, w, u) && lab[w] + 1 == lab[u];
    assert w == src || HasParent(g, lab, w);
  }

  /** With a host on every switch, each switch has a child. */
  lemma {:induction false} NoneChildless(g: Graph, src: Name, path: map<Name, seq<Name>>, n: Name)
    requires HostPerSwitch(g, src) && TreeFrom(g, src, path)
    ensures !Childless(path, n)
  {
    hide TreeFrom, TreeBy, Tree, Order, Distances, Labelled, IsHost, Gateway;
    var lab := TreeLabels(g, src, path);
    TreeIsTree(g, src, lab, path);
    OpenTree(g, src, lab, path);
    if Childless(path, n) {
      TreeNodes(g, src, lab, path, n);
      DistancesAre(g, src, lab, n);
      if OwnHost(g, src, n) {
        var h :| h != src && Edge(g, n, h) && forall x :: Edge(g, x, h) ==> x == n;
        HostedSwitch(g, src, lab, path, n, h);
      } else {
        GatewaySwitch(g, src, lab, path, n);
      }
      assert false;
    }
  }
}
