/** Flow keys and their order. */
module Flow {
  import opened Words

  // A flow named by its two addresses.
  datatype FlowSrc = FlowSrc(srcip: Word, dstip: Word)

  // 0 when equal, 1 when `a` comes after `b`, -1 when before.
  function Compare(a: FlowSrc, b: FlowSrc): int
  {
    if a.srcip != b.srcip then
      if a.srcip > b.srcip then 1 else -1
    else if a.dstip != b.dstip then
      if a.dstip > b.dstip then 1 else -1
    else 0
  }

  predicate Less(a: FlowSrc, b: FlowSrc) { Compare(a, b) < 0 }

  /** The comparison is a strict total order on flows: by source, and then by destination. */
  lemma {:induction false} CompareOrders(a: FlowSrc, b: FlowSrc, c: FlowSrc)
    ensures Compare(a, b) == 0 <==> a == b
    ensures Compare(a, b) == -Compare(b, a) && -1 <= Compare(a, b) <= 1
    ensures Less(a, b) && Less(b, c) ==> Less(a, c)
    ensures Less(a, b) <==> a.srcip < b.srcip || (a.srcip == b.srcip && a.dstip < b.dstip)
  {}

  type Port = x: int | 0 <= x < 0x1_0000

  // A flow named by its five tuple.
  datatype Flow5 = Flow5(srcip: Word, dstip: Word, srcPort: Port, dstPort: Port, protocol: nat)

  function Compare5(a: Flow5, b: Flow5): int
  {
    if a.srcip != b.srcip then
      if a.srcip > b.srcip then 1 else -1
    else if a.dstip != b.dstip then
      if a.dstip > b.dstip then 1 else -1
    else if a.srcPort != b.srcPort then
      if a.srcPort > b.srcPort then 1 else -1
    else if a.dstPort != b.dstPort then
      if a.dstPort > b.dstPort then 1 else -1
    else 0
  }

  // What the comparison looks at: everything but the protocol.
  datatype Key4 = Key4(srcip: Word, dstip: Word, srcPort: Port, dstPort: Port)

  function KeyOf(f: Flow5): Key4 { Key4(f.srcip, f.dstip, f.srcPort, f.dstPort) }

  // The two addresses or the two ports are not the same.
  predicate Differs(a: Flow5, b: Flow5)
  {
    a.srcip != b.srcip || a.dstip != b.dstip || a.srcPort != b.srcPort || a.dstPort != b.dstPort
  }

  /** Flows are taken for the same exactly when their addresses and ports are: the protocol is not
      looked at. */
  lemma {:induction false} Compare5Keys(a: Flow5, b: Flow5)
    ensures Compare5(a, b) == 0 <==>
      a.srcip == b.srcip && a.dstip == b.dstip && a.srcPort == b.srcPort && a.dstPort == b.dstPort
    ensures KeyOf(a) == KeyOf(b) <==>
      a.srcip == b.srcip && a.dstip == b.dstip && a.srcPort == b.srcPort && a.dstPort == b.dstPort
    ensures Differs(a, b) <==> KeyOf(a) != KeyOf(b)
  {}

  /** On what it looks at the comparison is a strict total order, field by field. */
  lemma {:induction false} Compare5Orders(a: Flow5, b: Flow5, c: Flow5)
    ensures Compare5(a, b) == -Compare5(b, a) && -1 <= Compare5(a, b) <= 1
    ensures Compare5(a, b) < 0 && Compare5(b, c) < 0 ==> Compare5(a, c) < 0
    ensures Compare5(a, b) < 0 <==>
      || a.srcip < b.srcip
      || (a.srcip == b.srcip && a.dstip < b.dstip)
      || (a.srcip == b.srcip && a.dstip == b.dstip && a.srcPort < b.srcPort)
      || (a.srcip == b.srcip && a.dstip == b.dstip && a.srcPort == b.srcPort && a.dstPort < b.dstPort)
  {}
}
