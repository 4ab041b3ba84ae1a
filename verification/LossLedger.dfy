/** The table behind the sender's book: for each flow a linked queue of packets under way. */
module LossLedger {
  import opened Words
  import opened Flow
  import opened Ledger

  class Pkt {
    const p: Packet
    ghost const flow: Key4
    var next: Pkt?

    constructor (p: Packet, ghost flow: Key4)
      ensures this.p == p && this.flow == flow && next == null
    {
      this.p, this.flow, next := p, flow, null;
    }
  }

  ghost function At(c: seq<Pkt>, i: nat): Pkt? { if i < |c| then c[i] else null }

  // Linked in this order, the last to nothing.
  ghost predicate Linked(c: seq<Pkt>)
    reads c
  {
    (forall i :: 0 <= i < |c| ==> c[i].next == At(c, i + 1)) && forall i, j :: 0 <= i < j < |c| ==> c[i] != c[j]
  }

  ghost function Packets(c: seq<Pkt>): (q: seq<Packet>)
    ensures |q| == |c|
  {
    seq(|c|, i requires 0 <= i < |c| => c[i].p)
  }

  // The queue of one flow.
  class Queue {
    ghost const flow: Key4
    var oldest: Pkt?
    var newest: Pkt?
    ghost var pkts: seq<Pkt>

    ghost predicate Valid()
      reads this, pkts
    {
      oldest == At(pkts, 0) && newest == (if pkts == [] then null else pkts[|pkts| - 1]) && Linked(pkts)
    }

    // All its packets are of its own flow.
    ghost predicate Own()
      reads this, pkts
    {
      Valid() && forall x :: x in pkts ==> x.flow == flow
    }

    constructor (p: Pkt)
      requires p.next == null
      ensures Own() && pkts == [p] && flow == p.flow
    {
      oldest, newest, pkts, flow := p, p, [p], p.flow;
    }

    method Append(p: Pkt)
      requires Own() && p.next == null && p !in pkts && p.flow == flow
      modifies this, pkts
      ensures Own() && pkts == old(pkts) + [p]
    {
      if oldest == null {
        oldest := p;
        newest := p;
      } else {
        newest.next := p;
        newest := p;
      }
      pkts := pkts + [p];
    }

    lemma {:induction false} OpenQueue()
      requires Own()
      ensures forall x :: x in pkts ==> x.flow == flow
      ensures oldest == At(pkts, 0) && Linked(pkts) && newest == (if pkts == [] then null else pkts[|pkts| - 1])
    {}

    lemma {:induction false} ShutQueue(c: seq<Pkt>, n: nat)
      requires Linked(c) && n <= |c| && pkts == c[n..] && oldest == At(c, n)
      requires newest == (if n == |c| then null else c[|c| - 1]) && forall x :: x in c ==> x.flow == flow
      ensures Own()
    {
      LinkedFrom(c, n);
      hide Linked;
    }

    /** Drop the packets before `seqid` as lost, and the one with that number as received. */
    method Settle(seqid: Word) returns (ans: Answer)
      requires Own()
      modifies this
      ensures Own() && Packets(pkts) == Left(old(Packets(pkts)), seqid)
      ensures ans == Answered(old(Packets(pkts)), seqid) && forall x :: x in pkts ==> x in old(pkts)
    {
      hide *;
      OpenQueue();
      ghost var c, q, n := pkts, Packets(pkts), 0;
      var entry := oldest;
      var lost: Word, lostNum: Word := 0, 0;
      SumNone(q);
      while entry != null && entry.p.seqid < seqid
        invariant n <= |c| == |q| && entry == At(c, n) && Linked(c) && newest == (if c == [] then null else c[|c| - 1])
        invariant forall i :: 0 <= i < n ==> q[i].seqid < seqid
        invariant lost == Wrap(Sum(q[..n])) && lostNum == Wrap(n)
        decreases |c| - n
      {
        LinkedAt(c, n);
        SumNext(q, n);
        lost := Wrap(lost + entry.p.volume);
        lostNum := Wrap(lostNum + 1);
        entry := entry.next;
        n := n + 1;
      }
      LinkedAt(c, n);
      AnsweredAt(q, seqid, n);
      var received: Word := 0;
      if entry != null && entry.p.seqid == seqid {
        received := entry.p.volume;
        entry := entry.next;
        n := n + 1;
        LinkedAt(c, n);
      }
      oldest := entry;
      if entry == null {
        newest := null;
      }
      pkts := c[n..];
      PacketsFrom(c, n);
      ShutQueue(c, n);
      ans := Answer(received, lost, lostNum);
    }
  }

  lemma {:induction false} LinkedAt(c: seq<Pkt>, i: nat)
    requires Linked(c)
    ensures At(c, i) == null <==> i >= |c|
    ensures i < |c| ==> At(c, i) == c[i] && c[i].next == At(c, i + 1) && Packets(c)[i] == c[i].p
  {}

  lemma {:induction false} LinkedFrom(c: seq<Pkt>, n: nat)
    requires Linked(c) && n <= |c|
    ensures Linked(c[n..]) && At(c[n..], 0) == At(c, n) && (n < |c| ==> c[n..][|c[n..]| - 1] == c[|c| - 1])
  {
    forall i | 0 <= i < |c[n..]| ensures c[n..][i].next == At(c[n..], i + 1) {
      var j := n + i;
      assert c[j].next == At(c, j + 1);
    }
  }

  lemma {:induction false} PacketsFrom(c: seq<Pkt>, n: nat)
    requires n <= |c|
    ensures Packets(c[n..]) == Packets(c)[n..]
  {}

  // What a report is answered, read off the place where the walk stops.
  lemma {:induction false} AnsweredAt(q: seq<Packet>, s: Word, n: nat)
    requires n <= |q| && (forall i :: 0 <= i < n ==> q[i].seqid < s) && (n < |q| ==> q[n].seqid >= s)
    ensures var hit := n < |q| && q[n].seqid == s;
      && Left(q, s) == (if hit then q[n + 1..] else q[n..])
      && Answered(q, s) == Answer(if hit then q[n].volume else 0, Wrap(Sum(q[..n])), Wrap(n))
  {
    BelowAt(q, s, n);
  }

  lemma {:induction false} SumNone(q: seq<Packet>)
    ensures Wrap(Sum(q[..0])) == 0 == Wrap(0)
  {}

  lemma {:induction false} SumNext(q: seq<Packet>, n: nat)
    requires n < |q|
    ensures Wrap(Sum(q[..n + 1])) == Wrap(Wrap(Sum(q[..n])) + q[n].volume)
    ensures Wrap(n + 1) == Wrap(Wrap(n) + 1)
  {
    assert q[..n + 1][..n] == q[..n];
  }

  lemma {:induction false} BelowAt(q: seq<Packet>, s: Word, n: nat)
    requires n <= |q| && (forall i :: 0 <= i < n ==> q[i].seqid < s) && (n < |q| ==> q[n].seqid >= s)
    ensures Below(q, s) == n
  {
    if n > 0 { BelowAt(q[1..], s, n - 1); }
  }

  // The queues are what the run so far leaves of each flow's packets.
  ghost predicate Keeps(log: seq<Event>, queues: map<Key4, seq<Packet>>)
  {
    forall k :: After(log, k).queue == if k in queues then queues[k] else []
  }

  lemma {:induction false} KeepsSend(log: seq<Event>, queues: map<Key4, seq<Packet>>, k: Key4, p: Packet)
    requires Keeps(log, queues)
    ensures Keeps(log + [Send(k, p)], queues[k := (if k in queues then queues[k] else []) + [p]])
  {
    forall f ensures After(log + [Send(k, p)], f).queue == if f == k then After(log, f).queue + [p] else After(log, f).queue {
      AfterNext(log, Send(k, p), f);
    }
  }

  lemma {:induction false} KeepsReport(log: seq<Event>, queues: map<Key4, seq<Packet>>, k: Key4, s: Word)
    requires Keeps(log, queues)
    ensures k in queues ==> After(log, k).queue == queues[k] && Keeps(log + [Report(k, s)], queues[k := Left(queues[k], s)])
    ensures k !in queues ==> After(log, k).queue == [] && Keeps(log + [Report(k, s)], queues) && Answered([], s) == Answer(0, 0, 0)
  {
    forall f ensures After(log + [Report(k, s)], f).queue == if f == k then Left(After(log, f).queue, s) else After(log, f).queue {
      AfterNext(log, Report(k, s), f);
    }
  }

  // The packets of a flow under way, and what a report on it would be answered now.
  ghost function UnderWay(log: seq<Event>, f: Flow5): seq<Packet> { After(log, KeyOf(f)).queue }

  ghost function AnswerTo(log: seq<Event>, f: Flow5, seqid: Word): Answer { Answered(UnderWay(log, f), seqid) }

  // What is done to one flow changes neither the packets nor the answer of any flow that differs from it in
  // an address or a port.
  ghost predicate OthersKept(log: seq<Event>, log1: seq<Event>, f: Flow5)
  {
    && (forall g :: Differs(f, g) ==> UnderWay(log1, g) == UnderWay(log, g))
    && (forall g, s :: Differs(f, g) ==> AnswerTo(log1, g, s) == AnswerTo(log, g, s))
  }

  lemma {:induction false} OtherFlows(log: seq<Event>, e: Event, f: Flow5)
    requires e.flow == KeyOf(f)
    ensures OthersKept(log, log + [e], f)
  {
    forall g | Differs(f, g) ensures UnderWay(log + [e], g) == UnderWay(log, g) {
      Compare5Keys(f, g);
      AfterNext(log, e, KeyOf(g));
    }
    hide Differs, UnderWay;
  }

  // Flows that differ in neither share their packets.
  lemma {:induction false} SameFlows(log: seq<Event>, f: Flow5, g: Flow5)
    requires !Differs(f, g)
    ensures UnderWay(log, f) == UnderWay(log, g)
  {
    Compare5Keys(f, g);
  }

  lemma {:induction false} SentLast(log: seq<Event>, f: Flow5, p: Packet)
    ensures UnderWay(log + [Send(KeyOf(f), p)], f) == UnderWay(log, f) + [p]
  {
    AfterNext(log, Send(KeyOf(f), p), KeyOf(f));
  }

  lemma {:induction false} ReportAnswered(log: seq<Event>, f: Flow5, seqid: Word)
    ensures AnswerTo(log, f, seqid) == Answered(After(log, KeyOf(f)).queue, seqid)
    ensures UnderWay(log + [Report(KeyOf(f), seqid)], f) == Left(UnderWay(log, f), seqid)
  {
    AfterNext(log, Report(KeyOf(f), seqid), KeyOf(f));
  }

  lemma {:induction false} ReportOthers(log: seq<Event>, f: Flow5, seqid: Word)
    ensures OthersKept(log, log + [Report(KeyOf(f), seqid)], f)
  {
    OtherFlows(log, Report(KeyOf(f), seqid), f);
  }

  class Table {
    // The entries of the hash table, by key.
    var flows: map<Key4, Queue>
    ghost var queues: set<Queue>
    ghost var packets: set<Pkt>
    // Everything done to the table so far.
    ghost var log: seq<Event>

    // Each flow has a queue of its own, with its own packets in it.
    ghost predicate FlowOk(k: Key4)
      requires k in flows
      reads this`flows, this`queues, this`packets, flows[k], flows[k].pkts
    {
      var q := flows[k];
      q in queues && q.flow == k && q.Own() && forall x :: x in q.pkts ==> x in packets
    }

    ghost predicate Separate()
      reads this`flows, this`queues, this`packets, queues, packets
    {
      forall k :: k in flows ==> flows[k] in queues && (forall x :: x in flows[k].pkts ==> x in packets) && FlowOk(k)
    }

    ghost function Contents(): map<Key4, seq<Packet>>
      reads this`flows, this`queues, queues
    {
      map k | k in flows :: if flows[k] in queues then Packets(flows[k].pkts) else []
    }

    /** Each flow's queue holds what the run so far has not settled. */
    ghost predicate Valid()
      reads this, queues, packets
    {
      Separate() && Keeps(log, Contents())
    }

    constructor ()
      ensures Valid() && log == [] && queues == {} && packets == {}
    {
      flows, queues, packets, log := map[], {}, {}, [];
    }

    lemma {:induction false} OpenTable()
      requires Separate()
      ensures forall k :: k in flows ==> FlowOk(k) && flows[k] in queues && flows[k].flow == k && flows[k].Own()
      ensures forall k, x :: k in flows && x in flows[k].pkts ==> x in packets && x.flow == k
      ensures Contents().Keys == flows.Keys
      ensures forall k :: k in flows ==> Contents()[k] == Packets(flows[k].pkts)
    {
      forall k | k in flows
        ensures FlowOk(k) && flows[k].flow == k && flows[k].Own() && forall x :: x in flows[k].pkts ==> x.flow == k {
        assert FlowOk(k);
      }
    }

    lemma {:induction false} ShutFlow(k: Key4)
      requires k in flows && flows[k] in queues && flows[k].flow == k && flows[k].Own()
      requires forall x :: x in flows[k].pkts ==> x in packets
      ensures FlowOk(k)
    {}

    lemma {:induction false} ShutTable()
      requires forall k :: k in flows ==> FlowOk(k)
      ensures Separate() && Contents().Keys == flows.Keys
      ensures forall k :: k in flows ==> Contents()[k] == Packets(flows[k].pkts)
    {
      forall k | k in flows ensures flows[k] in queues && forall x :: x in flows[k].pkts ==> x in packets {
        assert FlowOk(k);
      }
    }

    // Queue `q` is of no other flow.
    lemma {:induction false} Apart(k: Key4)
      requires Separate() && k in flows
      ensures forall l :: l in flows && l != k ==> flows[l] != flows[k]
      ensures forall l, i :: l in flows && l != k && 0 <= i < |flows[l].pkts| ==> flows[l].pkts[i] !in flows[k].pkts
    {
      hide *;
      OpenTable();
      forall l, i | l in flows && l != k && 0 <= i < |flows[l].pkts| ensures flows[l].pkts[i] !in flows[k].pkts {
        var x := flows[l].pkts[i];
        assert x in flows[l].pkts && x.flow == l;
        assert forall y :: y in flows[k].pkts ==> y.flow == k;
      }
    }

    // A packet of a flow that has a queue.
    method Extend(k: Key4, pkt: Pkt)
      requires Separate() && k in flows && pkt.next == null && pkt !in packets && pkt.flow == k
      modifies this`packets, queues, packets
      ensures Separate() && Contents() == old(Contents())[k := old(Contents()[k]) + [pkt.p]]
      ensures packets == old(packets) + {pkt}
    {
      hide *;
      OpenTable();
      Apart(k);
      ghost var was := Contents();
      PacketsAppend(flows[k].pkts, pkt);
      flows[k].Append(pkt);
      assert forall l :: l in flows && l != k ==> flows[l].pkts == old(flows[l].pkts);
      forall l | l in flows && l != k ensures flows[l].Own() {
        assert old(flows[l].Own());
      }
      packets := packets + {pkt};
      forall l | l in flows ensures FlowOk(l) {
        ShutFlow(l);
      }
      ShutTable();
      assert Contents() == was[k := was[k] + [pkt.p]];
    }

    // The first packet of a flow.
    method Begin(k: Key4, pkt: Pkt)
      requires Separate() && k !in flows && pkt.next == null && pkt !in packets && pkt.flow == k
      modifies this`packets, this`flows, this`queues
      ensures Separate() && Contents() == old(Contents())[k := [pkt.p]]
      ensures packets == old(packets) + {pkt} && fresh(queues - old(queues)) && queues >= old(queues)
    {
      hide *;
      OpenTable();
      ghost var was := Contents();
      PacketsAppend([], pkt);
      var q := new Queue(pkt);
      flows := flows[k := q];
      queues := queues + {q};
      packets := packets + {pkt};
      forall l | l in flows ensures FlowOk(l) {
        ShutFlow(l);
      }
      ShutTable();
      assert Contents() == was[k := [pkt.p]];
    }

    lemma {:induction false} OpenLedger()
      requires Valid()
      ensures Separate() && Keeps(log, Contents()) && Contents().Keys == flows.Keys
    {}

    lemma {:induction false} ShutLedger()
      requires Separate() && Keeps(log, Contents())
      ensures Valid()
    {}

    // Enter a packet that has been sent.
    method Set(flow: Flow5, seqid: Word, volume: Word)
      requires Valid()
      modifies this, queues, packets
      ensures Valid() && log == old(log) + [Send(KeyOf(flow), Packet(seqid, volume))]
      ensures UnderWay(log, flow) == UnderWay(old(log), flow) + [Packet(seqid, volume)]
      ensures OthersKept(old(log), log, flow)
      ensures fresh(queues - old(queues)) && fresh(packets - old(packets))
    {
      hide *;
      OpenLedger();
      var k, p := KeyOf(flow), Packet(seqid, volume);
      KeepsSend(log, Contents(), k, p);
      ghost var was := Contents();
      var pkt := new Pkt(p, k);
      if k in flows {
        Extend(k, pkt);
      } else {
        Begin(k, pkt);
      }
      OtherFlows(log, Send(k, p), flow);
      SentLast(log, flow, p);
      log := log + [Send(k, p)];
      assert [] + [p] == [p];
      ShutLedger();
    }

    // A report for a flow that has a queue.
    method SettleFlow(k: Key4, seqid: Word) returns (ans: Answer)
      requires Separate() && k in flows && k in Contents()
      modifies queues
      ensures Separate() && Contents() == old(Contents())[k := Left(old(Contents()[k]), seqid)]
      ensures ans == Answered(old(Contents()[k]), seqid)
    {
      hide *;
      OpenTable();
      Apart(k);
      ghost var was := Contents();
      ans := flows[k].Settle(seqid);
      assert forall l :: l in flows && l != k ==> flows[l].pkts == old(flows[l].pkts);
      forall l | l in flows && l != k ensures flows[l].Own() {
        assert old(flows[l].Own());
      }
      forall l | l in flows ensures FlowOk(l) {
        ShutFlow(l);
      }
      ShutTable();
      assert Contents() == was[k := Left(was[k], seqid)];
    }

    /** What a report says of the packets of its flow. */
    method GetReceLostVolume(flow: Flow5, seqid: Word) returns (ans: Answer)
      requires Valid()
      modifies this`log, queues
      ensures Valid() && log == old(log) + [Report(KeyOf(flow), seqid)]
      ensures ans == AnswerTo(old(log), flow, seqid) && UnderWay(log, flow) == Left(UnderWay(old(log), flow), seqid)
      ensures OthersKept(old(log), log, flow)
    {
      hide *;
      OpenLedger();
      var k := KeyOf(flow);
      ReportAnswered(log, flow, seqid);
      ReportOthers(log, flow, seqid);
      ghost var log1 := log + [Report(k, seqid)];
      KeepsReport(log, Contents(), k, seqid);
      if k !in flows {
        ans := Answer(0, 0, 0);
      } else {
        ans := SettleFlow(k, seqid);
      }
      log := log1;
      ShutLedger();
    }
  }

  lemma {:induction false} PacketsAppend(c: seq<Pkt>, x: Pkt)
    ensures Packets(c + [x]) == Packets(c) + [x.p] && Packets([x]) == [x.p]
  {}
}
