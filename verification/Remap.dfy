/** Mapping the addresses of a trace onto the addresses of the twelve senders. New addresses go to
    the nodes in turn, and each node hands out the addresses of its own block in order. Two
    tables remember the node and the address that each address was given. */
module Remap {
  import opened Words
  import opened Flow
  import opened ChainTable

  const NUM_SENDERS := 12
  const START_IP := 0x0A00_0000
  const ONE_SENDER_IP_NUM := 0x0100_0000

  // The node and the address given to the `n`-th new address, counting from 1.
  function NodeOf(n: nat): Word { n % NUM_SENDERS }

  function AddressOf(n: nat): Word
    requires n > 0
  {
    Wrap(START_IP + ONE_SENDER_IP_NUM * NodeOf(n) + (n - 1) / NUM_SENDERS)
  }

  // The sender an address belongs to, read off its first byte.
  function SenderIdx(ip: Word): Word { Wrap(ip / ONE_SENDER_IP_NUM - START_IP / ONE_SENDER_IP_NUM) }

  lemma {:induction false} InRange(n: nat)
    requires 0 < n <= NUM_SENDERS * ONE_SENDER_IP_NUM
    ensures AddressOf(n) == START_IP + ONE_SENDER_IP_NUM * NodeOf(n) + (n - 1) / NUM_SENDERS
    ensures (n - 1) / NUM_SENDERS < ONE_SENDER_IP_NUM
  {}

  /** The mapped address belongs to the node it was given, exactly as long as each node's
      block of addresses lasts. */
  lemma {:induction false} SenderIsNode(n: nat)
    requires 0 < n <= WORDS
    ensures SenderIdx(AddressOf(n)) == NodeOf(n) <==> n <= NUM_SENDERS * ONE_SENDER_IP_NUM
  {
    var q := (n - 1) / NUM_SENDERS;
    var block, rest := q / ONE_SENDER_IP_NUM, q % ONE_SENDER_IP_NUM;
    assert q == block * ONE_SENDER_IP_NUM + rest && 0 <= block <= 21;
    var s := START_IP + ONE_SENDER_IP_NUM * NodeOf(n) + q;
    assert s == ONE_SENDER_IP_NUM * (10 + NodeOf(n) + block) + rest;
    assert AddressOf(n) == s;
    assert s / ONE_SENDER_IP_NUM == 10 + NodeOf(n) + block;
  }

  /** The `N` first new addresses get different addresses exactly when there are at most
      12 * 2^24 of them: the next one gets the address of the second. */
  lemma {:induction false} InjectiveUpTo(N: nat)
    requires N <= WORDS
    ensures (forall a: nat, b: nat :: 0 < a < b <= N ==> AddressOf(a) != AddressOf(b)) <==> N <= NUM_SENDERS * ONE_SENDER_IP_NUM
  {
    var most := NUM_SENDERS * ONE_SENDER_IP_NUM;
    if N <= most {
      forall a: nat, b: nat | 0 < a < b <= N ensures AddressOf(a) != AddressOf(b) {
        Apart(a, b);
      }
    } else {
      assert AddressOf(2) == AddressOf(most + 1);
    }
  }

  lemma {:induction false} DivMod(a: nat, b: nat)
    requires 0 < a < b && NodeOf(a) == NodeOf(b)
    ensures (a - 1) / NUM_SENDERS < (b - 1) / NUM_SENDERS
  {}

  lemma {:induction false} Apart(a: nat, b: nat)
    requires 0 < a < b <= NUM_SENDERS * ONE_SENDER_IP_NUM
    ensures AddressOf(a) != AddressOf(b)
  {
    InRange(a);
    InRange(b);
    SenderIsNode(a);
    SenderIsNode(b);
    if NodeOf(a) == NodeOf(b) { DivMod(a, b); }
  }

  /** The first new address is node 1's and the start of that node's block; from then on the nodes take
      turns, in order and with node 0 behind node 11, and the address after a round is the next one. */
  lemma {:induction false} GoesRound(n: nat)
    requires 0 < n <= NUM_SENDERS * ONE_SENDER_IP_NUM
    ensures NodeOf(1) == 1 && AddressOf(1) == 0x0B00_0000
    ensures NodeOf(n) < 12 && NodeOf(n + 1) == if NodeOf(n) == 11 then 0 else NodeOf(n) + 1
    ensures n <= 12 ==> AddressOf(n) == 0x0A00_0000 + 0x0100_0000 * NodeOf(n)
    ensures n + 12 <= NUM_SENDERS * ONE_SENDER_IP_NUM ==> AddressOf(n + 12) == AddressOf(n) + 1
  {
    InRange(n);
    if n + 12 <= NUM_SENDERS * ONE_SENDER_IP_NUM {
      InRange(n + 12);
      RoundLater(n);
    }
  }

  lemma {:induction false} RoundLater(n: nat)
    requires n > 0
    ensures NodeOf(n + 12) == NodeOf(n) && (n + 12 - 1) / NUM_SENDERS == (n - 1) / NUM_SENDERS + 1
  {}

  // How many of the first `N` new addresses go to `node`.
  ghost function Load(N: nat, node: nat): nat
  {
    if N == 0 then 0 else Load(N - 1, node) + if NodeOf(N) == node then 1 else 0
  }

  // How many whole rounds have gone by when `N` addresses are given out, the last to `node`.
  ghost function Rounds(N: nat, node: nat): nat
    requires node < NUM_SENDERS
  {
    if node == 0 then N / NUM_SENDERS else (N + NUM_SENDERS - node) / NUM_SENDERS
  }

  lemma {:induction false} RoundsNext(N: nat, node: nat)
    requires node < NUM_SENDERS
    ensures Rounds(N + 1, node) == Rounds(N, node) + if NodeOf(N + 1) == node then 1 else 0
  {
    var q, r := N / 12, N % 12;
    assert N == 12 * q + r;
    if node == 0 {
      assert N + 1 == 12 * q + (r + 1);
    } else {
      assert N + 12 - node == 12 * q + (r + 12 - node);
    }
  }

  lemma {:induction false} LoadIs(N: nat, node: nat)
    requires node < NUM_SENDERS
    ensures Load(N, node) == Rounds(N, node)
  {
    if N > 0 {
      LoadIs(N - 1, node);
      RoundsNext(N - 1, node);
      hide Rounds, NodeOf;
    }
  }

  /** The loads of any two nodes differ by at most one. */
  lemma {:induction false} Balanced(N: nat, i: nat, j: nat)
    requires i < NUM_SENDERS && j < NUM_SENDERS
    ensures Load(N, i) <= Load(N, j) + 1
  {
    LoadIs(N, i);
    LoadIs(N, j);
  }

  // The place of an address in the order of first appearance, counting from 1.
  ghost predicate IsNth(order: seq<Word>, ip: Word, n: nat)
  {
    0 < n <= |order| && order[n - 1] == ip
  }

  // The two tables hold what the `n`-th new address was given.
  ghost predicate Maps(order: seq<Word>, nodes: map<FlowSrc, Word>, addresses: map<FlowSrc, Word>)
  {
    && (forall i, j :: 0 <= i < j < |order| ==> order[i] != order[j])
    && (forall k :: k in nodes <==> k.dstip == 0 && k.srcip in order)
    && (forall ip, n: nat :: IsNth(order, ip, n) ==> FlowSrc(ip, 0) in nodes && nodes[FlowSrc(ip, 0)] == NodeOf(n))
    && (forall ip, n: nat :: IsNth(order, ip, n) ==> FlowSrc(ip, 0) in addresses && addresses[FlowSrc(ip, 0)] == AddressOf(n))
  }

  lemma {:induction false} MapsOld(order: seq<Word>, nodes: map<FlowSrc, Word>, addresses: map<FlowSrc, Word>,
      ip: Word) returns (n: nat)
    requires Maps(order, nodes, addresses) && FlowSrc(ip, 0) in nodes
    ensures IsNth(order, ip, n) && FlowSrc(ip, 0) in addresses
    ensures nodes[FlowSrc(ip, 0)] == NodeOf(n) < 0x8000_0000 && addresses[FlowSrc(ip, 0)] == AddressOf(n)
  {
    var i :| 0 <= i < |order| && order[i] == ip;
    n := i + 1;
    assert IsNth(order, ip, n);
  }

  lemma {:induction false} MapsNew(order: seq<Word>, nodes: map<FlowSrc, Word>, addresses: map<FlowSrc, Word>, ip: Word)
    requires Maps(order, nodes, addresses) && FlowSrc(ip, 0) !in nodes
    ensures ip !in order && IsNth(order + [ip], ip, |order| + 1)
    ensures Maps(order + [ip], nodes[FlowSrc(ip, 0) := NodeOf(|order| + 1)], addresses[FlowSrc(ip, 0) := AddressOf(|order| + 1)])
  {
    var order1 := order + [ip];
    assert ip !in order;
    forall x, n: nat | IsNth(order1, x, n) ensures if x == ip then n == |order| + 1 else IsNth(order, x, n) {
      assert n <= |order| ==> order[n - 1] in order;
    }
    forall k: FlowSrc ensures k.srcip in order1 <==> k.srcip in order || k.srcip == ip {}
  }

  class Remapper {
    const nodes: Table
    const addresses: Table
    var uniqueIpNum: nat
    // The addresses seen, in order of first appearance.
    ghost var order: seq<Word>

    ghost predicate Valid()
      reads this, nodes, nodes.table, nodes.entries, addresses, addresses.table, addresses.entries
    {
      && nodes.Valid() && addresses.Valid() && Separate()
      && uniqueIpNum == |order| && Maps(order, nodes.contents, addresses.contents)
    }

    ghost predicate Separate()
      reads nodes, addresses
    {
      nodes != addresses && nodes.table != addresses.table && nodes.entries !! addresses.entries
    }

    constructor (size: nat, hash: Hash)
      requires size > 0 && forall k :: hash(k) < size
      ensures Valid() && order == []
    {
      nodes := new Table(size, hash);
      addresses := new Table(size, hash);
      uniqueIpNum := 0;
      order := [];
    }

    /** The node and the address that `ip` is mapped to: given to it when it first appeared,
        and the same ever since. */
    method GetMappedInfo(ip: Word) returns (node: Word, mapped: Word, ghost n: nat)
      requires Valid()
      modifies this, nodes, nodes.table, nodes.entries, addresses, addresses.table, addresses.entries
      ensures Valid() && order == if ip in old(order) then old(order) else old(order) + [ip]
      ensures IsNth(order, ip, n) && node == NodeOf(n) && mapped == AddressOf(n)
    {
      hide *;
      OpenRemapper();
      var flow := FlowSrc(ip, 0);
      var ret := nodes.Get(flow);
      if ret < 0 {
        NotSeen(order, nodes.contents, addresses.contents, ip);
        MapsNew(order, nodes.contents, addresses.contents, ip);
        uniqueIpNum := uniqueIpNum + 1;
        n := uniqueIpNum;
        node := NodeOf(uniqueIpNum);
        nodes.Set(flow, node);
        mapped := AddressOf(uniqueIpNum);
        addresses.Set(flow, mapped);
        order := order + [ip];
        ShutRemapper();
      } else {
        n := MapsOld(order, nodes.contents, addresses.contents, ip);
        node := ret;
        var got := addresses.Get(flow);
        SignedIs(addresses.contents[flow]);
        mapped := Wrap(got);
        NthIn(order, ip, n);
      }
    }

    lemma {:induction false} OpenRemapper()
      requires Valid()
      ensures nodes.Valid() && addresses.Valid() && nodes != addresses
      ensures nodes.table != addresses.table && nodes.entries !! addresses.entries
      ensures uniqueIpNum == |order| && Maps(order, nodes.contents, addresses.contents)
    {}

    lemma {:induction false} ShutRemapper()
      requires nodes.Valid() && addresses.Valid() && nodes != addresses
      requires nodes.table != addresses.table && nodes.entries !! addresses.entries
      requires uniqueIpNum == |order| && Maps(order, nodes.contents, addresses.contents)
      ensures Valid()
    {}
  }

  lemma {:induction false} NthIn(order: seq<Word>, ip: Word, n: nat)
    requires IsNth(order, ip, n)
    ensures ip in order
  {}

  // A node index is never negative as an int, so a negative answer means a new address.
  lemma {:induction false} NotSeen(order: seq<Word>, nodes: map<FlowSrc, Word>, addresses: map<FlowSrc, Word>, ip: Word)
    requires Maps(order, nodes, addresses)
    ensures FlowSrc(ip, 0) in nodes ==> nodes[FlowSrc(ip, 0)] < 0x8000_0000
  {
    if FlowSrc(ip, 0) in nodes {
      var n := MapsOld(order, nodes, addresses, ip);
    }
  }

  /** Over any run with at most 12 * 2^24 different addresses no two of them share a mapped
      address, and every mapped address names the node its packets are written for. */
  lemma {:induction false} RunIsInjective(order: seq<Word>, nodes: map<FlowSrc, Word>, addresses: map<FlowSrc,
      Word>, a: Word, b: Word)
    requires Maps(order, nodes, addresses) && |order| <= NUM_SENDERS * ONE_SENDER_IP_NUM
    requires a in order && b in order
    ensures FlowSrc(a, 0) in nodes && FlowSrc(a, 0) in addresses && FlowSrc(b, 0) in addresses
    ensures addresses[FlowSrc(a, 0)] == addresses[FlowSrc(b, 0)] <==> a == b
    ensures SenderIdx(addresses[FlowSrc(a, 0)]) == nodes[FlowSrc(a, 0)]
  {
    assert FlowSrc(a, 0) in nodes && FlowSrc(b, 0) in nodes;
    var n := MapsOld(order, nodes, addresses, a);
    var m := MapsOld(order, nodes, addresses, b);
    hide AddressOf, SenderIdx, NodeOf, Maps;
    SenderIsNode(n);
    if n < m { Apart(n, m); }
    if m < n { Apart(m, n); }
  }
}
