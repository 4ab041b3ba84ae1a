/** The sender's book of packets: which are still under way, and what a report from the
    receiver says of the others. */
module Ledger {
  import opened Words
  import opened Flow

  datatype Packet = Packet(seqid: Word, volume: Word)

  datatype Event = Send(flow: Key4, p: Packet) | Report(flow: Key4, seqid: Word)

  // What a report returns.
  datatype Answer = Answer(received: Word, lost: Word, lostNum: Word)

  // How many packets at the front of the queue come before `seqid`.
  function Below(q: seq<Packet>, seqid: Word): (n: nat)
    ensures n <= |q| && forall i :: 0 <= i < n ==> q[i].seqid < seqid
    ensures n < |q| ==> q[n].seqid >= seqid
  {
    if q == [] || q[0].seqid >= seqid then 0 else 1 + Below(q[1..], seqid)
  }

  predicate Hit(q: seq<Packet>, seqid: Word)
  {
    var n := Below(q, seqid); n < |q| && q[n].seqid == seqid
  }

  function Sum(q: seq<Packet>): nat
  {
    if q == [] then 0 else Sum(q[..|q| - 1]) + q[|q| - 1].volume
  }

  function Answered(q: seq<Packet>, seqid: Word): Answer
  {
    var n := Below(q, seqid);
    Answer(if Hit(q, seqid) then q[n].volume else 0, Wrap(Sum(q[..n])), Wrap(n))
  }

  function Left(q: seq<Packet>, seqid: Word): seq<Packet>
  {
    q[Below(q, seqid) + (if Hit(q, seqid) then 1 else 0)..]
  }

  // One flow in a run: its queue, the packets reported received and those found lost, in
  // order, and the totals of the answers given.
  datatype Book = Book(queue: seq<Packet>, received: seq<Packet>, lost: seq<Packet>, toldReceived: nat, toldLost: nat)

  function Step(b: Book, e: Event): Book
  {
    match e
    case Send(_, p) => b.(queue := b.queue + [p])
    case Report(_, s) =>
      var n, a := Below(b.queue, s), Answered(b.queue, s);
      Book(Left(b.queue, s), b.received + (if Hit(b.queue, s) then [b.queue[n]] else []), b.lost + b.queue[..n],
        b.toldReceived + a.received, b.toldLost + a.lost)
  }

  function After(es: seq<Event>, flow: Key4): Book
  {
    if es == [] then Book([], [], [], 0, 0)
    else
      var b, e := After(es[..|es| - 1], flow), es[|es| - 1];
      if e.flow == flow then Step(b, e) else b
  }

  lemma {:induction false} AfterNext(es: seq<Event>, e: Event, flow: Key4)
    ensures After(es + [e], flow) == if e.flow == flow then Step(After(es, flow), e) else After(es, flow)
  {
    assert (es + [e])[..|es|] == es;
  }

  function SentOf(es: seq<Event>, flow: Key4): seq<Packet>
  {
    if es == [] then []
    else
      var e := es[|es| - 1];
      SentOf(es[..|es| - 1], flow) + (if e.Send? && e.flow == flow then [e.p] else [])
  }

  function ReportsOf(es: seq<Event>, flow: Key4): seq<Word>
  {
    if es == [] then []
    else
      var e := es[|es| - 1];
      ReportsOf(es[..|es| - 1], flow) + (if e.Report? && e.flow == flow then [e.seqid] else [])
  }

  lemma {:induction false} SumConcat(p: seq<Packet>, q: seq<Packet>)
    ensures Sum(p + q) == Sum(p) + Sum(q)
  {
    if q == [] {
      assert p + q == p;
    } else {
      SumConcat(p, q[..|q| - 1]);
      assert (p + q)[..|p + q| - 1] == p + q[..|q| - 1];
    }
  }

  // No report of the run finds 2^32 bytes or more lost at once.
  ghost predicate NoWrap(es: seq<Event>, flow: Key4)
  {
    forall i :: 0 <= i < |es| && es[i].Report? && es[i].flow == flow ==> Fits(After(es[..i], flow).queue, es[i].seqid)
  }

  predicate Fits(q: seq<Packet>, seqid: Word) { Sum(q[..Below(q, seqid)]) < WORDS }

  lemma {:induction false} NoWrapNext(es: seq<Event>, e: Event, flow: Key4)
    ensures NoWrap(es + [e], flow) <==>
      NoWrap(es, flow) && (e.Report? && e.flow == flow ==> Fits(After(es, flow).queue, e.seqid))
  {
    var es1 := es + [e];
    assert es1[..|es|] == es;
    assert forall i :: 0 <= i < |es| ==> es1[i] == es[i] && es1[..i] == es[..i];
  }

  // A report splits the queue.
  lemma {:induction false} SplitQueue(q: seq<Packet>, s: Word)
    ensures var n := Below(q, s);
      && multiset(q) == multiset(q[..n]) + multiset(if Hit(q, s) then [q[n]] else []) + multiset(Left(q, s))
      && Sum(q) == Sum(q[..n]) + Answered(q, s).received + Sum(Left(q, s))
  {
    var n := Below(q, s);
    var mid := if Hit(q, s) then [q[n]] else [];
    assert q == q[..n] + mid + Left(q, s);
    SumConcat(q[..n], mid);
    SumConcat(q[..n] + mid, Left(q, s));
    assert Hit(q, s) ==> [q[n]][..0] == [];
  }

  /** Every packet sent is either reported received, found lost or still queued. */
  lemma {:induction false} PacketsConserved(es: seq<Event>, flow: Key4)
    ensures var b := After(es, flow);
      multiset(SentOf(es, flow)) == multiset(b.received) + multiset(b.lost) + multiset(b.queue)
  {
    if es != [] {
      var before, e := es[..|es| - 1], es[|es| - 1];
      PacketsConserved(before, flow);
      if e.flow == flow && e.Report? {
        SplitQueue(After(before, flow).queue, e.seqid);
      }
      hide Below, Left, Hit, Answered;
    }
  }

  lemma {:induction false} SentNext(es: seq<Event>, e: Event, flow: Key4)
    ensures Sum(SentOf(es + [e], flow)) == Sum(SentOf(es, flow)) + (if e.Send? && e.flow == flow then e.p.volume else 0)
  {
    assert (es + [e])[..|es|] == es;
    if e.Send? && e.flow == flow {
      SumConcat(SentOf(es, flow), [e.p]);
      assert [e.p][..0] == [];
    } else {
      assert SentOf(es, flow) + [] == SentOf(es, flow);
    }
  }

  lemma {:induction false} WholeDropped(n: nat)
    ensures n / WORDS == 0 <==> n < WORDS
  {}

  // How often 2^32 has been dropped from the totals told.
  ghost function Dropped(es: seq<Event>, flow: Key4): nat
  {
    if es == [] then 0
    else
      var q, e := After(es[..|es| - 1], flow).queue, es[|es| - 1];
      Dropped(es[..|es| - 1], flow) + (if e.Report? && e.flow == flow then Sum(q[..Below(q, e.seqid)]) / WORDS else 0)
  }

  lemma {:induction false} StepTotals(b: Book, e: Event)
    ensures e.Send? ==> Sum(Step(b, e).queue) == Sum(b.queue) + e.p.volume
    ensures e.Report? ==>
      var q := b.queue;
      Step(b, e).toldReceived + Step(b, e).toldLost + Sum(Step(b, e).queue) + WORDS * (Sum(q[..Below(q, e.seqid)]) / WORDS)
        == b.toldReceived + b.toldLost + Sum(b.queue)
  {
    if e.Send? {
      SumConcat(b.queue, [e.p]);
      assert [e.p][..0] == [];
    } else {
      SplitQueue(b.queue, e.seqid);
    }
  }

  lemma {:induction false} TotalsDropped(es: seq<Event>, flow: Key4)
    ensures var b := After(es, flow);
      b.toldReceived + b.toldLost + Sum(b.queue) + WORDS * Dropped(es, flow) == Sum(SentOf(es, flow))
    ensures Dropped(es, flow) == 0 <==> NoWrap(es, flow)
  {
    if es != [] {
      var before, e := es[..|es| - 1], es[|es| - 1];
      TotalsDropped(before, flow);
      assert before + [e] == es;
      NoWrapNext(before, e, flow);
      StepTotals(After(before, flow), e);
      SentNext(before, e, flow);
      hide Step, NoWrap, SentOf;
      if e.Report? && e.flow == flow {
        WholeDropped(Sum(After(before, flow).queue[..Below(After(before, flow).queue, e.seqid)]));
      }
    }
  }

  /** The totals told to the sender balance its books: up to 32 bits always, and exactly if and
      only if no single report finds 2^32 bytes or more lost. */
  lemma {:induction false} TotalsConserved(es: seq<Event>, flow: Key4)
    ensures var b := After(es, flow);
      && b.toldReceived + b.toldLost + Sum(b.queue) <= Sum(SentOf(es, flow))
      && Wrap(b.toldReceived + b.toldLost + Sum(b.queue)) == Wrap(Sum(SentOf(es, flow)))
      && (b.toldReceived + b.toldLost + Sum(b.queue) == Sum(SentOf(es, flow)) <==> NoWrap(es, flow))
  {
    TotalsDropped(es, flow);
    hide After, Sum, SentOf, NoWrap, Dropped;
  }

  /** It does happen: of two packets of 2^31 bytes lost at once, the sender is told of none. */
  lemma {:induction false} LostUntold(flow: Key4) returns (es: seq<Event>)
    ensures !NoWrap(es, flow)
    ensures var b := After(es, flow);
      Sum(SentOf(es, flow)) == WORDS && b.toldReceived + b.toldLost + Sum(b.queue) == 0
  {
    hide *;
    var p, q := Packet(0, 0x8000_0000), Packet(1, 0x8000_0000);
    var e0, e1, e2 := Send(flow, p), Send(flow, q), Report(flow, 2);
    es := [e0, e1] + [e2];
    assert [] + [e0] == [e0] && [e0] + [e1] == [e0, e1] && [] + [p] == [p] && [p] + [q] == [p, q];
    Nothing(flow);
    AfterNext([], e0, flow);
    AfterNext([e0], e1, flow);
    AfterNext([e0, e1], e2, flow);
    SentNext([], e0, flow);
    SentNext([e0], e1, flow);
    SentNext([e0, e1], e2, flow);
    StepSendTo(Book([], [], [], 0, 0), flow, p);
    StepSendTo(Book([p], [], [], 0, 0), flow, q);
    BothLost(flow, p, q, 2);
    NoWrapNext([e0, e1], e2, flow);
  }

  lemma {:induction false} Nothing(flow: Key4)
    ensures After([], flow) == Book([], [], [], 0, 0) && Sum(SentOf([], flow)) == 0 && WORDS == 0x1_0000_0000
  {}

  lemma {:induction false} StepSendTo(b: Book, flow: Key4, p: Packet)
    ensures Step(b, Send(flow, p)) == b.(queue := b.queue + [p])
  {}

  // A report past two queued packets.
  lemma {:induction false} BothLost(flow: Key4, p: Packet, q: Packet, s: Word)
    requires p.seqid < s && q.seqid < s
    ensures Step(Book([p, q], [], [], 0, 0), Report(flow, s)) == Book([], [], [p, q], 0, Wrap(p.volume + q.volume))
    ensures Fits([p, q], s) <==> p.volume + q.volume < WORDS
    ensures p.volume + q.volume == WORDS ==> Wrap(p.volume + q.volume) == 0
    ensures Sum([]) == 0
  {
    var two := [p, q];
    BothBelow(p, q, s);
    BothSum(p, q);
    assert two[..2] == two && two[2..] == [] && [] + two == two;
    hide Below, Sum;
  }

  lemma {:induction false} BothBelow(p: Packet, q: Packet, s: Word)
    requires p.seqid < s && q.seqid < s
    ensures Below([p, q], s) == 2
  {
    assert [p, q][1..] == [q] && [q][1..] == [];
    assert Below([q], s) == 1;
  }

  lemma {:induction false} BothSum(p: Packet, q: Packet)
    ensures Sum([p, q]) == p.volume + q.volume && Sum([]) == 0
  {
    assert [p, q] == [p] + [q] && [p][..0] == [] && [q][..0] == [];
    SumConcat([p], [q]);
    assert Sum([p]) == p.volume && Sum([q]) == q.volume;
  }

  // The packets of `q` whose numbers are in `ids`, or those whose are not.
  ghost function Those(q: seq<Packet>, ids: seq<Word>, within: bool): seq<Packet>
  {
    if q == [] then []
    else Those(q[..|q| - 1], ids, within) + (if (q[|q| - 1].seqid in ids) == within then [q[|q| - 1]] else [])
  }

  lemma {:induction false} ThoseConcat(p: seq<Packet>, q: seq<Packet>, ids: seq<Word>, within: bool)
    ensures Those(p + q, ids, within) == Those(p, ids, within) + Those(q, ids, within)
  {
    if q == [] {
      assert p + q == p;
    } else {
      ThoseConcat(p, q[..|q| - 1], ids, within);
      assert (p + q)[..|p + q| - 1] == p + q[..|q| - 1];
    }
  }

  // One more number that none of the packets has makes no difference.
  lemma {:induction false} ThoseSame(q: seq<Packet>, ids: seq<Word>, s: Word, within: bool)
    requires forall x :: x in q ==> x.seqid != s
    ensures Those(q, ids + [s], within) == Those(q, ids, within)
  {
    if q != [] { ThoseSame(q[..|q| - 1], ids, s, within); }
  }

  lemma {:induction false} ThoseUniform(q: seq<Packet>, ids: seq<Word>, within: bool, all: bool)
    requires forall x :: x in q ==> (x.seqid in ids) == within
    ensures Those(q, ids, all) == if all == within then q else []
  {
    if q != [] {
      ThoseUniform(q[..|q| - 1], ids, within, all);
      assert q == q[..|q| - 1] + [q[|q| - 1]];
    }
  }

  ghost predicate Increasing(q: seq<Packet>)
  {
    forall i, j :: 0 <= i < j < |q| ==> q[i].seqid < q[j].seqid
  }

  // Numbers go up as packets are sent, and each report is for a packet sent before and has a
  // higher number than the reports before it.
  ghost predicate Regular(es: seq<Event>, flow: Key4)
  {
    es == [] ||
    var before, e := es[..|es| - 1], es[|es| - 1];
    && Regular(before, flow)
    && (e.flow == flow && e.Send? ==> forall q :: q in SentOf(before, flow) ==> q.seqid < e.p.seqid)
    && (e.flow == flow && e.Report? ==>
      (exists q :: q in SentOf(before, flow) && q.seqid == e.seqid) && forall r :: r in ReportsOf(before, flow) ==> r < e.seqid)
  }

  // Only packets before `c` have been reported, and the last of them was reported last.
  ghost predicate ReportedTo(sent: seq<Packet>, reports: seq<Word>, c: nat)
  {
    && c <= |sent|
    && (forall r :: r in reports ==> exists i :: 0 <= i < c && sent[i].seqid == r)
    && (c > 0 ==> reports != [] && sent[c - 1].seqid == reports[|reports| - 1])
  }

  // The first `c` packets sent are settled: those reported were received, the others lost.
  ghost predicate Settled(b: Book, sent: seq<Packet>, reports: seq<Word>, c: nat)
  {
    && Increasing(sent) && ReportedTo(sent, reports, c)
    && b.queue == sent[c..]
    && b.received == Those(sent, reports, true)
    && b.lost == Those(sent[..c], reports, false)
  }

  lemma {:induction false} ReportedBelow(sent: seq<Packet>, reports: seq<Word>, c: nat)
    requires Increasing(sent) && ReportedTo(sent, reports, c)
    ensures forall i :: c <= i < |sent| ==> sent[i].seqid !in reports
    ensures forall p: Packet :: (forall q :: q in sent ==> q.seqid < p.seqid) ==> p.seqid !in reports
  {
    forall p: Packet | p.seqid in reports ensures exists q :: q in sent && q.seqid == p.seqid {
      var i :| 0 <= i < c && sent[i].seqid == p.seqid;
      assert sent[i] in sent;
    }
  }

  // A report for packet `m` is for one not settled yet.
  lemma {:induction false} ReportedNext(sent: seq<Packet>, reports: seq<Word>, c: nat, m: nat)
    requires Increasing(sent) && ReportedTo(sent, reports, c) && m < |sent|
    requires forall r :: r in reports ==> r < sent[m].seqid
    ensures m >= c && ReportedTo(sent, reports + [sent[m].seqid], m + 1)
  {
    if c > 0 {
      assert sent[c - 1].seqid in reports;
      assert m >= c;
    }
    forall r | r in reports + [sent[m].seqid] ensures exists i :: 0 <= i < m + 1 && sent[i].seqid == r {
      if r in reports {
        var i :| 0 <= i < c && sent[i].seqid == r;
      } else {
        assert sent[m].seqid == r;
      }
    }
  }

  lemma {:induction false} IncreasingSend(sent: seq<Packet>, reports: seq<Word>, c: nat, p: Packet)
    requires Increasing(sent) && ReportedTo(sent, reports, c) && forall q :: q in sent ==> q.seqid < p.seqid
    ensures Increasing(sent + [p]) && ReportedTo(sent + [p], reports, c)
  {
    assert forall i :: 0 <= i < |sent| ==> (sent + [p])[i] == sent[i] && sent[i] in sent;
    forall r | r in reports ensures exists i :: 0 <= i < c && (sent + [p])[i].seqid == r {
      var i :| 0 <= i < c && sent[i].seqid == r;
      assert (sent + [p])[i].seqid == r;
    }
  }

  // Where a report finds its packet.
  lemma {:induction false} BelowIs(q: seq<Packet>, s: Word, n: nat)
    requires Increasing(q) && n < |q| && q[n].seqid == s
    ensures Below(q, s) == n && Hit(q, s) && Left(q, s) == q[n + 1..]
  {
    if n > 0 {
      assert q[0].seqid < q[n].seqid && q[1..][n - 1] == q[n];
      assert forall i, j :: 0 <= i < j < |q[1..]| ==> q[1..][i].seqid == q[i + 1].seqid && q[1..][j].seqid == q[j + 1].seqid;
      BelowIs(q[1..], s, n - 1);
    }
  }

  lemma {:induction false} IncreasingFrom(sent: seq<Packet>, c: nat)
    requires Increasing(sent) && c <= |sent|
    ensures Increasing(sent[c..])
  {}

  // The packets of `sent` but packet `m` do not have its number.
  lemma {:induction false} OtherNumbers(sent: seq<Packet>, reports: seq<Word>, c: nat, m: nat)
    requires Increasing(sent) && ReportedTo(sent, reports, c) && c <= m < |sent|
    ensures forall x :: x in sent[..c] ==> x.seqid != sent[m].seqid
    ensures forall x :: x in sent[c..m] ==> x.seqid !in reports + [sent[m].seqid]
    ensures forall x :: x in sent[m + 1..] ==> x.seqid !in reports + [sent[m].seqid]
    ensures forall x :: x in sent[c..] ==> x.seqid !in reports
  {
    ReportedBelow(sent, reports, c);
    hide ReportedTo;
  }

  // Cutting what was sent at `c` and around packet `m`.
  lemma {:induction false} Cuts(sent: seq<Packet>, c: nat, m: nat)
    requires c <= m < |sent|
    ensures sent == sent[..c] + sent[c..] && sent[c..][m - c] == sent[m]
    ensures sent[..m + 1] == sent[..c] + sent[c..m] + [sent[m]]
    ensures sent == sent[..c] + sent[c..m] + [sent[m]] + sent[m + 1..]
    ensures sent[c..][..m - c] == sent[c..m] && sent[c..][m - c + 1..] == sent[m + 1..]
  {}

  lemma {:induction false} StepReport(b: Book, flow: Key4, s: Word, n: nat)
    requires Increasing(b.queue) && n < |b.queue| && b.queue[n].seqid == s
    ensures var b1 := Step(b, Report(flow, s));
      b1.queue == b.queue[n + 1..] && b1.received == b.received + [b.queue[n]] && b1.lost == b.lost + b.queue[..n]
  {
    BelowIs(b.queue, s, n);
    hide Below, Left, Hit, Increasing, Sum;
  }

  lemma {:induction false} OpenSettled(b: Book, sent: seq<Packet>, reports: seq<Word>, c: nat)
    requires Settled(b, sent, reports, c)
    ensures Increasing(sent) && ReportedTo(sent, reports, c) && c <= |sent|
    ensures b.queue == sent[c..] && b.received == Those(sent, reports, true)
    ensures b.lost == Those(sent[..c], reports, false)
  {}

  lemma {:induction false} ShutSettled(b: Book, sent: seq<Packet>, reports: seq<Word>, c: nat)
    requires Increasing(sent) && ReportedTo(sent, reports, c) && c <= |sent|
    requires b.queue == sent[c..] && b.received == Those(sent, reports, true)
    requires b.lost == Those(sent[..c], reports, false)
    ensures Settled(b, sent, reports, c)
  {}

  lemma {:induction false} SettledSend(b: Book, sent: seq<Packet>, reports: seq<Word>, c: nat, p: Packet)
    requires Settled(b, sent, reports, c) && forall q :: q in sent ==> q.seqid < p.seqid
    ensures Settled(b.(queue := b.queue + [p]), sent + [p], reports, c)
  {
    hide *;
    OpenSettled(b, sent, reports, c);
    IncreasingSend(sent, reports, c, p);
    ReportedBelow(sent, reports, c);
    ThoseConcat(sent, [p], reports, true);
    ThoseUniform([p], reports, false, true);
    assert (sent + [p])[..c] == sent[..c] && (sent + [p])[c..] == sent[c..] + [p];
    ShutSettled(b.(queue := b.queue + [p]), sent + [p], reports, c);
  }

  lemma {:induction false} SettledReport(b: Book, sent: seq<Packet>, reports: seq<Word>, c: nat, flow: Key4, m: nat)
    requires Settled(b, sent, reports, c) && m < |sent| && forall r :: r in reports ==> r < sent[m].seqid
    ensures Settled(Step(b, Report(flow, sent[m].seqid)), sent, reports + [sent[m].seqid], m + 1)
  {
    hide *;
    var s := sent[m].seqid;
    OpenSettled(b, sent, reports, c);
    ReportedNext(sent, reports, c, m);
    OtherNumbers(sent, reports, c, m);
    IncreasingFrom(sent, c);
    Cuts(sent, c, m);
    StepReport(b, flow, s, m - c);
    var done, lost, rest := sent[..c], sent[c..m], sent[m + 1..];
    ThoseConcat(done, sent[c..], reports, true);
    ThoseUniform(sent[c..], reports, false, true);
    ThoseSame(done, reports, s, true);
    ThoseSame(done, reports, s, false);
    Pieces(done, lost, sent[m], rest, reports + [s]);
    ShutSettled(Step(b, Report(flow, s)), sent, reports + [s], m + 1);
  }

  lemma {:induction false} Pieces(done: seq<Packet>, lost: seq<Packet>, p: Packet, rest: seq<Packet>, ids: seq<Word>)
    requires p.seqid in ids && (forall x :: x in lost ==> x.seqid !in ids) && forall x :: x in rest ==> x.seqid !in ids
    ensures Those(done + lost + [p] + rest, ids, true) == Those(done, ids, true) + [p]
    ensures Those(done + lost + [p], ids, false) == Those(done, ids, false) + lost
  {
    ThoseConcat(done + lost + [p], rest, ids, true);
    ThoseConcat(done + lost, [p], ids, true);
    ThoseConcat(done, lost, ids, true);
    ThoseConcat(done + lost, [p], ids, false);
    ThoseConcat(done, lost, ids, false);
    ThoseUniform(rest, ids, false, true);
    ThoseUniform(lost, ids, false, true);
    ThoseUniform(lost, ids, false, false);
    ThoseUniform([p], ids, true, true);
    ThoseUniform([p], ids, true, false);
  }

  lemma {:induction false} RegularNext(es: seq<Event>, e: Event, flow: Key4)
    requires Regular(es + [e], flow)
    ensures Regular(es, flow)
    ensures e.flow == flow && e.Send? ==> forall q :: q in SentOf(es, flow) ==> q.seqid < e.p.seqid
    ensures e.flow == flow && e.Report? ==> exists m :: 0 <= m < |SentOf(es, flow)| && SentOf(es, flow)[m].seqid == e.seqid
    ensures e.flow == flow && e.Report? ==> forall r :: r in ReportsOf(es, flow) ==> r < e.seqid
  {
    assert (es + [e])[..|es|] == es;
  }

  // What one more event adds to what was sent and what was reported.
  lemma {:induction false} HistoryNext(es: seq<Event>, e: Event, flow: Key4)
    ensures SentOf(es + [e], flow) == if e.Send? && e.flow == flow then SentOf(es, flow) + [e.p] else SentOf(es, flow)
    ensures ReportsOf(es + [e], flow) ==
      if e.Report? && e.flow == flow then ReportsOf(es, flow) + [e.seqid] else ReportsOf(es, flow)
  {
    assert (es + [e])[..|es|] == es;
  }

  lemma {:induction false} StepSend(b: Book, e: Event)
    requires e.Send?
    ensures Step(b, e) == b.(queue := b.queue + [e.p])
  {}

  lemma {:induction false} SettledNone(flow: Key4)
    ensures Settled(After([], flow), SentOf([], flow), ReportsOf([], flow), 0)
  {}

  /** In a regular run the packets received are exactly those reported, the packets lost
      exactly the unreported ones before the latest report, and the others are still queued. */
  lemma {:induction false} Classified(es: seq<Event>, flow: Key4) returns (c: nat)
    requires Regular(es, flow)
    ensures Settled(After(es, flow), SentOf(es, flow), ReportsOf(es, flow), c)
  {
    hide *;
    if es == [] {
      c := 0;
      SettledNone(flow);
    } else {
      var before, e := es[..|es| - 1], es[|es| - 1];
      assert before + [e] == es;
      RegularNext(before, e, flow);
      AfterNext(before, e, flow);
      HistoryNext(before, e, flow);
      c := Classified(before, flow);
      var b, sent, reports := After(before, flow), SentOf(before, flow), ReportsOf(before, flow);
      if e.flow == flow && e.Send? {
        SettledSend(b, sent, reports, c, e.p);
        StepSend(b, e);
      } else if e.flow == flow {
        var m :| 0 <= m < |sent| && sent[m].seqid == e.seqid;
        SettledReport(b, sent, reports, c, flow, m);
        c := m + 1;
      }
    }
  }
}
