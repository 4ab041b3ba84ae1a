/** Whole filters over byte strings, host addresses and relations: what they say of a packet, and
    the graph that is generated for them. */
module Queries {
  import opened Words
  import opened Bpf
  import opened Filter
  import opened Blocks
  import opened FinishParse
  import opened FieldTests
  import opened WlanHosts
  import opened Registers
  import opened Arithmetic
  import opened Relations

  datatype Query =
    | Bytes(hdr: Word, offset: Word, v: seq<Byte>)
    | Host(link: Word, eaddr: seq<Byte>, dir: Dir)
    | Relation(jump: Jump, e0: Arith, e1: Arith, reversed: bool)
    | All(l: Query, r: Query)
    | Any(l: Query, r: Query)
    | No(q: Query)

  // Byte strings are not empty, addresses have six bytes, headers start where offsets into them
  // are 32-bit words, and protocol checks do not look at what the machine holds.
  ghost predicate WellFormed(q: Query)
  {
    match q
    case Bytes(hdr, offset, v) => v != [] && hdr + offset + |v| <= WORDS
    case Host(hdr, eaddr, _) => |eaddr| == 6 && hdr + 30 <= WORDS
    case Relation(_, e0, e1, _) => forall c :: c in AllKept(e0, e1) ==> MachineFree(c)
    case All(l, r) => WellFormed(l) && WellFormed(r)
    case Any(l, r) => WellFormed(l) && WellFormed(r)
    case No(q1) => WellFormed(q1)
  }

  // What a check says of a packet.
  ghost function CheckReply(c: Expr, p: Packet): Reply
  {
    if Definite(c, p) then var a :| Means(c, p, a); a else None
  }

  // One check after the other.
  ghost function ChecksReply(cs: seq<Expr>, p: Packet): Reply
  {
    if cs == [] then Some(true) else AndThen(CheckReply(cs[0], p), ChecksReply(cs[1..], p))
  }

  /** What a query says of a packet: yes, no, or nothing, when the packet ends too early or a
      division by zero is asked for before the answer is known. */
  ghost function ReplyTo(q: Query, p: Packet): Reply
  {
    match q
    case Bytes(hdr, offset, v) => FieldIs(p, hdr + offset, v)
    case Host(hdr, eaddr, dir) => DirReply(p, hdr, eaddr, dir)
    case Relation(jump, e0, e1, reversed) =>
      AndThen(ChecksReply(AllKept(e0, e1), p), RelationReply(p, jump, e0, e1, reversed))
    case All(l, r) => AndThen(ReplyTo(l, p), ReplyTo(r, p))
    case Any(l, r) => OrElse(ReplyTo(l, p), ReplyTo(r, p))
    case No(q1) => NotSo(ReplyTo(q1, p))
  }

  // Enough registers for each relation, one at a time.
  function Fits(q: Query, free: int): bool
  {
    match q
    case Bytes(_, _, _) => true
    case Host(_, _, _) => true
    case Relation(_, e0, e1, _) => Need(e0) <= free && 1 + Need(e1) <= free
    case All(l, r) => Fits(l, free) && Fits(r, free)
    case Any(l, r) => Fits(l, free) && Fits(r, free)
    case No(q1) => Fits(q1, free)
  }

  ghost predicate Expresses(e: Expr, q: Query)
  {
    forall p :: Means(e, p, ReplyTo(q, p))
  }

  lemma {:induction false} EvalAllReplies(cs: seq<Expr>, p: Packet, m: Machine)
    requires forall c :: c in cs ==> MachineFree(c)
    ensures match EvalAll(cs, p, m) case Rejected => ChecksReply(cs, p) == None case Answer(v, _) => ChecksReply(cs, p) == Some(v)
  {
    hide Eval, Means;
    if cs != [] {
      assert MachineFree(cs[0]) && Definite(cs[0], p);
      OneMeaning(cs[0], p, CheckReply(cs[0], p), m);
      match Eval(cs[0], p, m)
      case Answer(true, m') => EvalAllReplies(cs[1..], p, m');
      case other =>
    }
  }

  lemma {:induction false} GuardsMean(c: Option<Expr>, cs: seq<Expr>, p: Packet)
    requires Guards(c, cs) && forall c :: c in cs ==> MachineFree(c)
    ensures c == None ==> ChecksReply(cs, p) == Some(true)
    ensures c.Some? ==> Means(c.value, p, ChecksReply(cs, p))
  {
    if c.Some? {
      forall m ensures Replies(c.value, p, m, ChecksReply(cs, p)) {
        EvalAllReplies(cs, p, m);
        hide Eval, EvalAll, ChecksReply;
      }
    }
  }

  lemma {:induction false} RelationExpresses(jump: Jump, e0: Arith, e1: Arith, reversed: bool, rel: Expr)
    requires TestsRelation(rel, jump, e0, e1, reversed) && WellFormed(Relation(jump, e0, e1, reversed))
    ensures Expresses(Guarded(Joined(Kept(e0), Kept(e1)), rel), Relation(jump, e0, e1, reversed))
  {
    var c, cs := Joined(Kept(e0), Kept(e1)), AllKept(e0, e1);
    KeptGuards(e0);
    KeptGuards(e1);
    JoinedGuards(Kept(e0), KeptChecks(e0), Kept(e1), KeptChecks(e1));
    forall p ensures Means(Guarded(c, rel), p, ReplyTo(Relation(jump, e0, e1, reversed), p)) {
      var a := RelationReply(p, jump, e0, e1, reversed);
      assert Means(rel, p, a);
      GuardsMean(c, cs, p);
      if c.Some? { MeansAnd(c.value, rel, p, ChecksReply(cs, p), a); }
    }
  }

  lemma {:induction false} JunctionsExpress(e0: Expr, e1: Expr, l: Query, r: Query)
    requires Expresses(e0, l) && Expresses(e1, r)
    ensures Expresses(And(e0, e1), All(l, r)) && Expresses(Or(e0, e1), Any(l, r)) && Expresses(Not(e0), No(l))
  {
    forall p
      ensures Means(And(e0, e1), p, ReplyTo(All(l, r), p)) && Means(Or(e0, e1), p, ReplyTo(Any(l, r), p))
      ensures Means(Not(e0), p, ReplyTo(No(l), p))
    {
      var a, b := ReplyTo(l, p), ReplyTo(r, p);
      assert Means(e0, p, a) && Means(e1, p, b);
      hide Means;
      MeansAnd(e0, e1, p, a, b);
      MeansOr(e0, e1, p, a, b);
      MeansNot(e0, p, a);
    }
  }

  lemma {:induction false} FieldsExpress(e: Expr, q: Query)
    requires q.Bytes? ==> TestsField(e, q.hdr + q.offset, q.v)
    requires q.Host? ==> IsHostFilter(e, q.link, q.eaddr, q.dir)
    ensures q.Bytes? || q.Host? ==> Expresses(e, q)
  {
    hide Means, FieldIs, DirReply;
  }

  /** Generate the filter for a query: this succeeds exactly when the registers suffice, and then
      the filter's reply to every packet is the query's. */
  method GenQuery(q: Query, regs: Regs) returns (b: Block?)
    requires WellFormed(q) && regs.Valid()
    modifies regs, regs.used
    ensures regs.Valid() && (b != null <==> Fits(q, 16 - |old(regs.Used())|))
    ensures b != null ==> b.Valid() && fresh(b.blocks) && regs.Used() == old(regs.Used()) && Expresses(b.expr, q)
    decreases q
  {
    match q
    case Bytes(hdr, offset, v) =>
      b := GenBcmp(hdr, offset, v);
      FieldsExpress(b.expr, q);
    case Host(hdr, eaddr, dir) =>
      b := GenWlanHostop(hdr, eaddr, dir);
      FieldsExpress(b.expr, q);
    case Relation(jump, e0, e1, reversed) =>
      ghost var rel;
      b, rel := CompileRelation(jump, e0, e1, reversed, regs);
      if b != null { RelationExpresses(jump, e0, e1, reversed, rel); }
    case All(l, r) =>
      b := GenJunction(l, r, true, regs);
    case Any(l, r) =>
      b := GenJunction(l, r, false, regs);
    case No(q1) =>
      b := GenQuery(q1, regs);
      if b != null {
        JunctionsExpress(b.expr, b.expr, q1, q1);
        hide *;
        GenNot(b);
      }
  }

  method GenJunction(l: Query, r: Query, all: bool, regs: Regs) returns (b: Block?)
    requires WellFormed(l) && WellFormed(r) && regs.Valid()
    modifies regs, regs.used
    ensures regs.Valid() && (b != null <==> Fits(l, 16 - |old(regs.Used())|) && Fits(r, 16 - |old(regs.Used())|))
    ensures b != null ==> b.Valid() && fresh(b.blocks) && regs.Used() == old(regs.Used())
    ensures b != null ==> Expresses(b.expr, if all then All(l, r) else Any(l, r))
    decreases if all then All(l, r) else Any(l, r), 0
  {
    hide *;
    b := null;
    var b0 := GenQuery(l, regs);
    if b0 == null { return; }
    ghost var blocks := b0.blocks;
    b := GenQuery(r, regs);
    if b == null { return; }
    JunctionsExpress(b0.expr, b.expr, l, r);
    Separate(b0, b);
    if all { GenAnd(b0, b); } else { GenOr(b0, b); }
  }

  lemma {:induction false} Separate(b0: Block, b1: Block)
    requires forall x :: x in b0.blocks ==> x !in b1.blocks
    ensures Apart(b0, b1)
  {}

  // From `root`, the blocks return the snapshot length if the query says yes to the packet, and
  // 0 if it does not.
  ghost predicate DecidesOn(root: Block, blocks: seq<Block>, st: Store, q: Query, snaplen: Word, p: Packet, m: Machine)
  {
    Follow(root, |blocks| + 1, p, m, st) == Returned(if ReplyTo(q, p) == Some(true) then snaplen else 0)
  }

  // They do so for every packet, whatever the machine holds at the start.
  ghost predicate Decides(root: Block, blocks: seq<Block>, q: Query, snaplen: Word)
    reads blocks
  {
    var st := Contents(blocks);
    forall p, m :: DecidesOn(root, blocks, st, q, snaplen, p, m)
  }

  lemma {:induction false} ComputesDecides(root: Block, blocks: seq<Block>, e: Expr, accept: Block, reject: Block,
      q: Query, snaplen: Word)
    requires FinishParse.Computes(root, blocks, e, accept, reject) && accept.body == Ret(snaplen) && Expresses(e, q)
    ensures Decides(root, blocks, q, snaplen)
  {
    var st := Contents(blocks);
    forall p, m ensures DecidesOn(root, blocks, st, q, snaplen, p, m) {
      var a := ReplyTo(q, p);
      assert Means(e, p, a);
      assert Replies(e, p, m, a);
    }
  }

  /** Compile a query: the finished graph returns the snapshot length for exactly the packets the
      query says yes to. It fails exactly when some relation needs more than sixteen registers. */
  method CompileQuery(q: Query, snaplen: Word) returns (root: Block?, ghost blocks: seq<Block>)
    requires WellFormed(q)
    ensures root != null <==> Fits(q, 16)
    ensures root != null ==> fresh(blocks) && Decides(root, blocks, q, snaplen)
  {
    var regs := new Regs();
    root, blocks := null, [];
    var p := GenQuery(q, regs);
    if p == null { return; }
    hide *;
    blocks := p.blocks;
    ghost var e, accept, reject := p.expr, p, p;
    root, accept, reject := Close(p, snaplen);
    ComputesDecides(root, blocks, e, accept, reject, q, snaplen);
  }
}
