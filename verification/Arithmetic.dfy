/** Arithmetic expressions, their meaning, and what it means for a statement list to compute
    one into a scratch register. */
module Arithmetic {
  import opened Words
  import opened Bpf
  import opened Filter
  import opened FieldTests

  // Where a load counts from, and what it checks. A fixed header starts at `off`, and `check`,
  // if any, is the test that the packet has it. A transport header starts behind the IPv4
  // header at `off`: the packet must be IPv4, of the protocol, and no later fragment.
  datatype Header =
    | Fixed(off: Word, check: Option<Expr>)
    | Transport(off: Word, ip: Expr, proto: Expr, frag: Expr)

  // A load reads `size` bytes of a header, at the value of `index`.
  datatype Arith =
    | Num(k: Word)
    | Len
    | Minus(e: Arith)
    | Bin(op: AluOp, l: Arith, r: Arith)
    | At(size: Size, hdr: Header, index: Arith)

  // The offset of the transport header is added to the index in 32 bits.
  function LoadAt(p: Packet, size: Size, hdr: Header, x: Word): Option<Word>
  {
    match hdr
    case Fixed(off, _) => Load(p, size, x as int + off as int)
    case Transport(off, _, _, _) =>
      match HeaderLen(p, off) case None => None case Some(n) => Load(p, size, Wrap(x + n) as int + off as int)
  }

  // 32-bit evaluation; None when the packet is rejected on the way.
  function Value(e: Arith, p: Packet): Option<Word>
  {
    match e
    case Num(k) => Some(k)
    case Len => Some(p.wireLen)
    case Minus(e1) =>
      (match Value(e1, p) case None => None case Some(v) => Some(Wrap(0 - v as int)))
    case Bin(op, l, r) =>
      (match Value(l, p)
       case None => None
       case Some(a) => match Value(r, p) case None => None case Some(x) => Alu(op, a, x))
    case At(size, hdr, index) =>
      (match Value(index, p) case None => None case Some(x) => LoadAt(p, size, hdr, x))
  }

  /** Constants and the length on the wire are themselves, operations apply to the values of their
      operands, and a negated value is what makes up for the value, up to multiples of 2^32. */
  lemma {:induction false} OperationValues(op: AluOp, l: Arith, r: Arith, p: Packet)
    ensures Value(Len, p) == Some(p.wireLen) && forall k: Word :: Value(Num(k), p) == Some(k)
    ensures Value(Minus(l), p).None? <==> Value(l, p).None?
    ensures Value(l, p).Some? ==> Congruent(Value(Minus(l), p).value, -(Value(l, p).value as int))
    ensures Value(l, p).None? || Value(r, p).None? ==> Value(Bin(op, l, r), p) == None
    ensures Value(l, p).Some? && Value(r, p).Some? ==>
      Value(Bin(op, l, r), p) == Alu(op, Value(l, p).value, Value(r, p).value)
  {
    hide Alu;
    if Value(l, p).Some? { WrapCongruent(0 - Value(l, p).value as int); }
  }

  /** A load from a fixed header reads the bytes at its offset plus the index. */
  lemma {:induction false} FixedReads(p: Packet, size: Size, off: Word, check: Option<Expr>, index: Arith, x: Word)
    requires Value(index, p) == Some(x)
    ensures IsRead(Value(At(size, Fixed(off, check), index), p), p.data, off as int + x as int, Width(size))
  {
    LoadReads(p, size, off as int + x as int);
    hide Load;
  }

  /** A load from a transport header reads the bytes that the index counts from behind the IPv4
      header, whose length is four times the low half of its first byte; the sum is in 32 bits. */
  lemma {:induction false} TransportReads(p: Packet, size: Size, off: Word, ip: Expr, proto: Expr, frag: Expr,
      index: Arith, x: Word)
    requires Value(index, p) == Some(x)
    ensures var v := Value(At(size, Transport(off, ip, proto, frag), index), p);
      if off >= |p.data| then v == None
      else IsRead(v, p.data, off as int + (4 * (p.data[off] % 16) + x) % 0x1_0000_0000, Width(size))
  {
    if off < |p.data| {
      var at := off as int + (4 * (p.data[off] % 16) + x) % 0x1_0000_0000;
      LoadReads(p, size, at);
      hide Load;
    }
  }

  /** So when a packet is something in front, an IPv4 header and a segment, what is read of its
      transport header are the bytes of the segment at the index. */
  lemma {:induction false} SegmentRead(p: Packet, size: Size, front: seq<Byte>, header: seq<Byte>, segment: seq<Byte>,
      ip: Expr, proto: Expr, frag: Expr, index: Arith, x: Word)
    requires p.data == front + header + segment && |front| < |p.data| && |front| < 0x1_0000_0000
    requires |header| == 4 * (p.data[|front|] % 16) && |header| + x < 0x1_0000_0000 && Value(index, p) == Some(x)
    ensures IsRead(Value(At(size, Transport(|front|, ip, proto, frag), index), p), segment, x, Width(size))
  {
    hide *;
    TransportReads(p, size, |front|, ip, proto, frag, index, x);
    var v := Value(At(size, Transport(|front|, ip, proto, frag), index), p);
    ReadBehind(v, front + header, segment, x, Width(size));
  }

  lemma {:induction false} ReadBehind(v: Option<Word>, front: seq<Byte>, rest: seq<Byte>, at: nat, n: nat)
    requires IsRead(v, front + rest, |front| + at, n)
    ensures IsRead(v, rest, at, n)
  {
    var d := front + rest;
    if at + n <= |rest| { assert d[|front| + at..|front| + at + n] == rest[at..at + n]; }
  }

  // The most registers in use at once while `e` is compiled, beyond those in use before.
  function Need(e: Arith): (n: nat)
    ensures n >= 1
  {
    match e
    case Num(_) => 1
    case Len => 1
    case Minus(e1) => Need(e1)
    case Bin(_, l, r) => if Need(l) > 1 + Need(r) then Need(l) else 1 + Need(r)
    case At(_, _, index) => if Need(index) > 2 then Need(index) else 2
  }

  // Running `code` leaves the value of `e` in register `r` and the registers `keep` alone.
  ghost predicate Leaves(code: seq<Instr>, e: Arith, r: Reg, keep: set<nat>, p: Packet, m: Machine)
  {
    match Value(e, p)
    case None => Exec(code, p, m) == None
    case Some(v) =>
      match Exec(code, p, m)
      case None => false
      case Some(m') => m'.mem[r] == v && forall q: nat :: q in keep && q < 16 ==> m'.mem[q] == m.mem[q]
  }

  ghost predicate Computes(code: seq<Instr>, e: Arith, r: Reg, keep: set<nat>)
  {
    forall p, m :: Leaves(code, e, r, keep, p, m)
  }

  lemma {:induction false} Exec3(a: Instr, b: Instr, c: Instr, p: Packet, m: Machine)
    ensures Exec([a, b, c], p, m) ==
      match Step(a, p, m)
      case None => None
      case Some(m1) => match Step(b, p, m1) case None => None case Some(m2) => Step(c, p, m2)
  {
    hide Step;
    assert [a, b, c][1..] == [b, c] && [b, c][1..] == [c] && [c][1..] == [];
    match Step(a, p, m)
    case None =>
    case Some(m1) =>
      assert Exec([a, b, c], p, m) == Exec([b, c], p, m1);
      match Step(b, p, m1)
      case None =>
      case Some(m2) =>
        assert Exec([b, c], p, m1) == Exec([c], p, m2);
        match Step(c, p, m2)
        case None =>
        case Some(m3) => assert Exec([c], p, m2) == Exec([], p, m3);
  }

  lemma {:induction false} Exec2(a: Instr, b: Instr, p: Packet, m: Machine)
    ensures Exec([a, b], p, m) == match Step(a, p, m) case None => None case Some(m1) => Step(b, p, m1)
  {
    hide Step;
    assert [a, b][1..] == [b] && [b][1..] == [];
    match Step(a, p, m)
    case None =>
    case Some(m1) =>
      assert Exec([a, b], p, m) == Exec([b], p, m1);
      match Step(b, p, m1)
      case None =>
      case Some(m2) => assert Exec([b], p, m1) == Exec([], p, m2);
  }

  lemma {:induction false} NumComputes(k: Word, r: Reg, keep: set<nat>)
    requires r !in keep
    ensures Computes([LdImm(k), St(r)], Num(k), r, keep)
  {
    forall p, m ensures Leaves([LdImm(k), St(r)], Num(k), r, keep, p, m) {
      Exec2(LdImm(k), St(r), p, m);
    }
  }

  lemma {:induction false} LenComputes(r: Reg, keep: set<nat>)
    requires r !in keep
    ensures Computes([LdLen, St(r)], Len, r, keep)
  {
    forall p, m ensures Leaves([LdLen, St(r)], Len, r, keep, p, m) {
      Exec2(LdLen, St(r), p, m);
    }
  }

  lemma {:induction false} MinusComputes(code: seq<Instr>, e: Arith, r: Reg, keep: set<nat>)
    requires Computes(code, e, r, keep) && r !in keep
    ensures Computes(code + [LdMem(r), Instr.Neg, St(r)], Minus(e), r, keep)
  {
    var tail := [LdMem(r), Instr.Neg, St(r)];
    forall p, m ensures Leaves(code + tail, Minus(e), r, keep, p, m) {
      assert Leaves(code, e, r, keep, p, m);
      ExecConcat(code, tail, p, m);
      match Exec(code, p, m)
      case None =>
      case Some(m1) => Exec3(LdMem(r), Instr.Neg, St(r), p, m1);
    }
  }

  // Load from the header, at the index in register `r`.
  function Fetch(size: Size, hdr: Header, r: Reg): seq<Instr>
  {
    match hdr
    case Fixed(off, _) => [LdxMem(r), LdInd(size, off)]
    case Transport(off, _, _, _) => [LdxMsh(off), LdMem(r), AluX(Add), Tax, LdInd(size, off)]
  }

  lemma {:induction false} LoadComputes(code: seq<Instr>, e: Arith, r: Reg, keep: set<nat>, size: Size, hdr: Header,
      r': Reg)
    requires Computes(code, e, r, keep) && r' !in keep
    ensures Computes(code + Fetch(size, hdr, r) + [St(r')], At(size, hdr, e), r', keep)
  {
    var tail := Fetch(size, hdr, r) + [St(r')];
    assert code + Fetch(size, hdr, r) + [St(r')] == code + tail;
    forall p, m ensures Leaves(code + tail, At(size, hdr, e), r', keep, p, m) {
      assert Leaves(code, e, r, keep, p, m);
      ExecConcat(code, tail, p, m);
      match Exec(code, p, m)
      case None =>
      case Some(m1) => Fetches(size, hdr, r, r', p, m1);
    }
  }

  // After `code`, register `r'` holds `v`, if there is such a value, and the others are as before.
  ghost predicate Stores(code: seq<Instr>, v: Option<Word>, r': Reg, p: Packet, m: Machine)
  {
    match Exec(code, p, m)
    case None => v == None
    case Some(m') => v == Some(m'.mem[r']) && m'.mem == m.mem[r' := m'.mem[r']]
  }

  lemma {:induction false} Fetches(size: Size, hdr: Header, r: Reg, r': Reg, p: Packet, m: Machine)
    ensures Stores(Fetch(size, hdr, r) + [St(r')], LoadAt(p, size, hdr, m.mem[r]), r', p, m)
  {
    match hdr
    case Fixed(off, _) =>
      assert Fetch(size, hdr, r) + [St(r')] == [LdxMem(r), LdInd(size, off), St(r')];
      Exec3(LdxMem(r), LdInd(size, off), St(r'), p, m);
    case Transport(off, _, _, _) =>
      var front, tail := [LdxMsh(off), LdMem(r), AluX(Add)], [Tax, LdInd(size, off), St(r')];
      assert Fetch(size, hdr, r) + [St(r')] == front + tail;
      ExecConcat(front, tail, p, m);
      TransportIndex(off, r, p, m);
      match HeaderLen(p, off)
      case None =>
      case Some(n) => TransportItem(size, off, r', p, Machine(Wrap(m.mem[r] + n), n, m.mem));
  }

  // The length of the IPv4 header is added to the index.
  lemma {:induction false} TransportIndex(off: Word, r: Reg, p: Packet, m: Machine)
    ensures Exec([LdxMsh(off), LdMem(r), AluX(Add)], p, m) ==
      match HeaderLen(p, off)
      case None => None
      case Some(n) => Some(Machine(Wrap(m.mem[r] + n), n, m.mem))
  {
    Exec3(LdxMsh(off), LdMem(r), AluX(Add), p, m);
  }

  lemma {:induction false} TransportItem(size: Size, off: Word, r': Reg, p: Packet, m: Machine)
    ensures Stores([Tax, LdInd(size, off), St(r')], Load(p, size, m.a as int + off as int), r', p, m)
  {
    Exec3(Tax, LdInd(size, off), St(r'), p, m);
  }

  // Load X from register `x` and A from register `a`, then apply the operation, if any.
  function Operands(x: Reg, a: Reg, op: Option<AluOp>): seq<Instr>
  {
    if op.Some? then [LdxMem(x), LdMem(a), AluX(op.value)] else [LdxMem(x), LdMem(a)]
  }

  // The left operand survives the right one's code, so both end up in A and X.
  ghost predicate BothLoaded(code: seq<Instr>, l: Arith, r: Arith, keep: set<nat>, p: Packet, m: Machine)
  {
    match Value(l, p)
    case None => Exec(code, p, m) == None
    case Some(a) =>
      match Value(r, p)
      case None => Exec(code, p, m) == None
      case Some(x) =>
        match Exec(code, p, m)
        case None => false
        case Some(m') => m'.a == a && m'.x == x && forall q: nat :: q in keep && q < 16 ==> m'.mem[q] == m.mem[q]
  }

  lemma {:induction false} OperandsLoaded(c0: seq<Instr>, e0: Arith, r0: Reg, keep0: set<nat>,
                                          c1: seq<Instr>, e1: Arith, r1: Reg, keep1: set<nat>, p: Packet, m: Machine)
    requires Leaves(c0, e0, r0, keep0, p, m) && Computes(c1, e1, r1, keep1) && keep0 + {r0} <= keep1
    ensures BothLoaded(c0 + (c1 + [LdxMem(r1), LdMem(r0)]), e0, e1, keep0, p, m)
  {
    var tail := [LdxMem(r1), LdMem(r0)];
    ExecConcat(c0, c1 + tail, p, m);
    match Exec(c0, p, m)
    case None =>
    case Some(m1) =>
      assert Leaves(c1, e1, r1, keep1, p, m1);
      ExecConcat(c1, tail, p, m1);
      match Exec(c1, p, m1)
      case None =>
      case Some(m2) =>
        assert r0 in keep1;
        Exec2(LdxMem(r1), LdMem(r0), p, m2);
  }

  lemma {:induction false} BinComputes(op: AluOp, c0: seq<Instr>, e0: Arith, r0: Reg, keep0: set<nat>,
                                       c1: seq<Instr>, e1: Arith, r1: Reg, keep1: set<nat>, r': Reg)
    requires Computes(c0, e0, r0, keep0) && Computes(c1, e1, r1, keep1) && keep0 + {r0} <= keep1 && r' !in keep0
    ensures Computes(c0 + (c1 + Operands(r1, r0, Some(op))) + [St(r')], Bin(op, e0, e1), r', keep0)
  {
    var front, tail := c0 + (c1 + [LdxMem(r1), LdMem(r0)]), [AluX(op), St(r')];
    assert c0 + (c1 + Operands(r1, r0, Some(op))) + [St(r')] == front + tail;
    forall p, m ensures Leaves(front + tail, Bin(op, e0, e1), r', keep0, p, m) {
      assert Leaves(c0, e0, r0, keep0, p, m);
      hide *;
      OperandsLoaded(c0, e0, r0, keep0, c1, e1, r1, keep1, p, m);
      BinLeaves(op, front, e0, e1, keep0, r', p, m);
    }
  }

  // The operation on the two values is stored.
  lemma {:induction false} BinLeaves(op: AluOp, front: seq<Instr>, e0: Arith, e1: Arith, keep: set<nat>, r': Reg,
      p: Packet, m: Machine)
    requires BothLoaded(front, e0, e1, keep, p, m) && r' !in keep
    ensures Leaves(front + [AluX(op), St(r')], Bin(op, e0, e1), r', keep, p, m)
  {
    ExecConcat(front, [AluX(op), St(r')], p, m);
    hide Alu, Exec;
    match Exec(front, p, m)
    case None =>
    case Some(m1) => Exec2(AluX(op), St(r'), p, m1);
  }

  // Whether the values of the two sides are in the relation, or are not when it is reversed.
  function RelationReply(p: Packet, jump: Jump, e0: Arith, e1: Arith, reversed: bool): Reply
  {
    match Value(e0, p)
    case None => None
    case Some(a) => match Value(e1, p) case None => None case Some(x) => Some(Compare(jump, a, x) != reversed)
  }

  /** The six operators of the language, each with its jump and whether it is reversed. A packet
      on which a side has no value is rejected. */
  lemma {:induction false} SixOperators(p: Packet, e0: Arith, e1: Arith)
    ensures forall jump, reversed :: RelationReply(p, jump, e0, e1, reversed).None? <==> Value(e0, p).None? || Value(e1, p).None?
    ensures Value(e0, p).Some? && Value(e1, p).Some? ==>
      var a, x := Value(e0, p).value, Value(e1, p).value;
      && RelationReply(p, Jgt, e0, e1, false) == Some(a > x) && RelationReply(p, Jgt, e0, e1, true) == Some(a <= x)
      && RelationReply(p, Jge, e0, e1, false) == Some(a >= x) && RelationReply(p, Jge, e0, e1, true) == Some(a < x)
      && RelationReply(p, Jeq, e0, e1, false) == Some(a == x) && RelationReply(p, Jeq, e0, e1, true) == Some(a != x)
  {
    hide Value;
  }

  // Equality is tested by subtracting and comparing with zero, the others directly.
  function RelationOp(jump: Jump): Option<AluOp> { if jump == Jeq then Some(Sub) else None }

  function RelationCond(jump: Jump): Cond { if jump == Jeq then CmpK(Jeq, 0) else CmpX(jump) }

  lemma {:induction false} WrappedDifference(a: Word, x: Word)
    ensures Wrap(a - x) == 0 <==> a == x
  {}

  lemma {:induction false} RelationMeans(jump: Jump, c0: seq<Instr>, e0: Arith, r0: Reg, keep0: set<nat>,
                                         c1: seq<Instr>, e1: Arith, r1: Reg, keep1: set<nat>, p: Packet)
    requires Computes(c0, e0, r0, keep0) && Computes(c1, e1, r1, keep1) && keep0 + {r0} <= keep1
    ensures Means(Leaf(Test(c0 + (c1 + Operands(r1, r0, RelationOp(jump))), RelationCond(jump))), p, RelationReply(p, jump, e0, e1, false))
  {
    var front := c0 + (c1 + [LdxMem(r1), LdMem(r0)]);
    var code := c0 + (c1 + Operands(r1, r0, RelationOp(jump)));
    var e := Leaf(Test(code, RelationCond(jump)));
    forall m ensures Replies(e, p, m, RelationReply(p, jump, e0, e1, false)) {
      assert Leaves(c0, e0, r0, keep0, p, m);
      assert code == if jump == Jeq then front + [AluX(Sub)] else front;
      hide *;
      OperandsLoaded(c0, e0, r0, keep0, c1, e1, r1, keep1, p, m);
      RelationReplies(jump, front, e0, e1, keep0, p, m);
    }
  }

  // The two values are compared, for equality by their difference.
  lemma {:induction false} RelationReplies(jump: Jump, front: seq<Instr>, e0: Arith, e1: Arith, keep: set<nat>,
      p: Packet, m: Machine)
    requires BothLoaded(front, e0, e1, keep, p, m)
    ensures var code := if jump == Jeq then front + [AluX(Sub)] else front;
      Replies(Leaf(Test(code, RelationCond(jump))), p, m, RelationReply(p, jump, e0, e1, false))
  {
    if jump == Jeq {
      ExecConcat(front, [AluX(Sub)], p, m);
      match Exec(front, p, m)
      case None =>
      case Some(m1) =>
        Exec1(AluX(Sub), p, m1);
        WrappedDifference(m1.a, m1.x);
    }
  }

  lemma {:induction false} Exec1(a: Instr, p: Packet, m: Machine)
    ensures Exec([a], p, m) == Step(a, p, m)
  {
    hide Step;
    assert [a][1..] == [];
    match Step(a, p, m)
    case None =>
    case Some(m1) => assert Exec([a], p, m) == Exec([], p, m1);
  }

  // ---- protocol checks ----

  function Joined(a: Option<Expr>, b: Option<Expr>): Option<Expr>
  {
    if a == None then b else if b == None then a else Some(And(a.value, b.value))
  }

  // The checks of a load joined to those kept for its index.
  function Checking(hdr: Header, kept: Option<Expr>): Option<Expr>
  {
    match hdr
    case Fixed(_, check) => Joined(kept, check)
    case Transport(_, ip, proto, frag) => Joined(Some(ip), Joined(kept, Some(And(proto, frag))))
  }

  // The checks tested before those of the index, and after them.
  function Front(hdr: Header): seq<Expr>
  {
    match hdr case Fixed(_, _) => [] case Transport(_, ip, _, _) => [ip]
  }

  function Back(hdr: Header): seq<Expr>
  {
    match hdr
    case Fixed(_, check) => if check == None then [] else [check.value]
    case Transport(_, _, proto, frag) => [proto, frag]
  }

  // The check that guards the code for `e`. A binary operation keeps only its left operand's.
  function Kept(e: Arith): Option<Expr>
  {
    match e
    case Num(_) => None
    case Len => None
    case Minus(e1) => Kept(e1)
    case Bin(_, l, _) => Kept(l)
    case At(_, hdr, index) => Checking(hdr, Kept(index))
  }

  // Every check that a load in `e` calls for, in order.
  function Checks(e: Arith): seq<Expr>
  {
    match e
    case Num(_) => []
    case Len => []
    case Minus(e1) => Checks(e1)
    case Bin(_, l, r) => Checks(l) + Checks(r)
    case At(_, hdr, index) => Front(hdr) + Checks(index) + Back(hdr)
  }

  // The checks that guard the code for `e`, in order.
  function KeptChecks(e: Arith): seq<Expr>
  {
    match e
    case Num(_) => []
    case Len => []
    case Minus(e1) => KeptChecks(e1)
    case Bin(_, l, _) => KeptChecks(l)
    case At(_, hdr, index) => Front(hdr) + KeptChecks(index) + Back(hdr)
  }

  // No right operand in `e` calls for a check.
  predicate RightFree(e: Arith)
  {
    match e
    case Num(_) => true
    case Len => true
    case Minus(e1) => RightFree(e1)
    case Bin(_, l, r) => RightFree(l) && Checks(r) == []
    case At(_, _, index) => RightFree(index)
  }

  // `c` accepts a packet exactly when all of `cs` do, tested one after the other.
  ghost predicate Guards(c: Option<Expr>, cs: seq<Expr>)
  {
    if cs == [] then c == None
    else c.Some? && forall p, m :: Eval(c.value, p, m) == EvalAll(cs, p, m)
  }

  // Test the filters one after the other, stopping at the first that does not accept.
  function EvalAll(cs: seq<Expr>, p: Packet, m: Machine): Outcome
  {
    if cs == [] then Answer(true, m)
    else match Eval(cs[0], p, m)
      case Answer(true, m') => EvalAll(cs[1..], p, m')
      case other => other
  }

  lemma {:induction false} EvalAllConcat(cs: seq<Expr>, ds: seq<Expr>, p: Packet, m: Machine)
    ensures EvalAll(cs + ds, p, m) ==
      match EvalAll(cs, p, m)
      case Answer(true, m') => EvalAll(ds, p, m')
      case other => other
  {
    hide Eval;
    if cs == [] {
      assert cs + ds == ds;
    } else {
      assert (cs + ds)[1..] == cs[1..] + ds;
      match Eval(cs[0], p, m)
      case Answer(true, m') => EvalAllConcat(cs[1..], ds, p, m');
      case other =>
    }
  }

  lemma {:induction false} JoinedGuards(a: Option<Expr>, cs: seq<Expr>, b: Option<Expr>, ds: seq<Expr>)
    requires Guards(a, cs) && Guards(b, ds)
    ensures Guards(Joined(a, b), cs + ds)
  {
    hide RunTest;
    assert cs == [] ==> cs + ds == ds;
    assert ds == [] ==> cs + ds == cs;
    if cs != [] && ds != [] {
      forall p, m ensures Eval(And(a.value, b.value), p, m) == EvalAll(cs + ds, p, m) {
        EvalAllConcat(cs, ds, p, m);
      }
    }
  }

  lemma {:induction false} OneGuards(c: Expr)
    ensures Guards(Some(c), [c])
  {
    hide RunTest;
    forall p, m ensures Eval(c, p, m) == EvalAll([c], p, m) {
      assert [c][1..] == [];
    }
  }

  /** The check kept for `e` tests the kept checks in order, and these are all the checks the
      loads in `e` call for exactly when no right operand calls for one. */
  lemma {:induction false} KeptGuards(e: Arith)
    ensures Guards(Kept(e), KeptChecks(e))
    ensures |KeptChecks(e)| <= |Checks(e)|
    ensures KeptChecks(e) == Checks(e) <==> RightFree(e)
  {
    match e
    case Num(_) =>
    case Len =>
    case Minus(e1) => KeptGuards(e1);
    case Bin(_, l, r) =>
      KeptGuards(l);
      if Checks(r) == [] {
        assert Checks(e) == Checks(l);
      } else {
        assert |Checks(e)| > |KeptChecks(e)|;
      }
    case At(_, hdr, index) =>
      KeptGuards(index);
      CheckingGuards(hdr, Kept(index), KeptChecks(index));
      MiddleOf(Front(hdr), KeptChecks(index), Checks(index), Back(hdr));
  }

  lemma {:induction false} MiddleOf(a: seq<Expr>, s: seq<Expr>, t: seq<Expr>, b: seq<Expr>)
    ensures a + s + b == a + t + b <==> s == t
  {
    if a + s + b == a + t + b {
      assert s == (a + s + b)[|a|..|a| + |s|] && t == (a + t + b)[|a|..|a| + |t|];
    }
  }

  lemma {:induction false} CheckingGuards(hdr: Header, kept: Option<Expr>, cs: seq<Expr>)
    requires Guards(kept, cs)
    ensures Guards(Checking(hdr, kept), Front(hdr) + cs + Back(hdr))
  {
    match hdr
    case Fixed(_, check) =>
      if check.Some? { OneGuards(check.value); }
      JoinedGuards(kept, cs, check, Back(hdr));
      assert Front(hdr) + cs == cs;
    case Transport(_, ip, proto, frag) =>
      OneGuards(ip);
      OneGuards(proto);
      OneGuards(frag);
      JoinedGuards(Some(proto), [proto], Some(frag), [frag]);
      JoinedGuards(kept, cs, Some(And(proto, frag)), [proto] + [frag]);
      JoinedGuards(Some(ip), [ip], Joined(kept, Some(And(proto, frag))), cs + ([proto] + [frag]));
      assert Front(hdr) + cs + Back(hdr) == [ip] + (cs + ([proto] + [frag]));
  }

  // The checks that the loads of both sides of a relation call for, and those kept for both.
  function AllChecks(e0: Arith, e1: Arith): seq<Expr> { Checks(e0) + Checks(e1) }

  function AllKept(e0: Arith, e1: Arith): seq<Expr> { KeptChecks(e0) + KeptChecks(e1) }

  // Every check that a load in either expression calls for is kept for one of them.
  predicate Covered(e0: Arith, e1: Arith)
  {
    forall c :: c in AllChecks(e0, e1) ==> c in AllKept(e0, e1)
  }

  ghost predicate AllHold(holds: Expr -> bool, cs: seq<Expr>)
  {
    forall c :: c in cs ==> holds(c)
  }

  // A packet that passes the kept checks passes all of them.
  ghost predicate Suffice(holds: Expr -> bool, e0: Arith, e1: Arith)
  {
    AllHold(holds, AllKept(e0, e1)) ==> AllHold(holds, AllChecks(e0, e1))
  }

  /** Whatever the checks mean, a packet that passes those kept for the two sides of a relation
      passes all that their loads call for, if and only if each check called for is kept on one
      side or the other. */
  lemma {:induction false} KeptSuffice(e0: Arith, e1: Arith)
    ensures (forall holds: Expr -> bool :: Suffice(holds, e0, e1)) <==> Covered(e0, e1)
  {
    hide AllChecks, AllKept;
    if forall holds: Expr -> bool :: Suffice(holds, e0, e1) {
      var kept := (c: Expr) => c in AllKept(e0, e1);
      assert AllHold(kept, AllKept(e0, e1));
      assert Suffice(kept, e0, e1);
      forall c | c in AllChecks(e0, e1) ensures c in AllKept(e0, e1) {
        assert kept(c);
      }
    }
  }

  // What the filter says of the packet does not depend on what the machine holds.
  ghost predicate Definite(c: Expr, p: Packet)
  {
    exists a :: Means(c, p, a)
  }

  ghost predicate MachineFree(c: Expr)
  {
    forall p :: Definite(c, p)
  }

  lemma {:induction false} AllAccept(cs: seq<Expr>, p: Packet, m: Machine)
    requires (forall c :: c in cs ==> MachineFree(c)) && EvalAll(cs, p, m).Answer? && EvalAll(cs, p, m).verdict
    ensures forall c :: c in cs ==> Means(c, p, Some(true))
  {
    hide Eval, Means;
    if cs != [] {
      assert MachineFree(cs[0]) && Definite(cs[0], p);
      var a :| Means(cs[0], p, a);
      OneMeaning(cs[0], p, a, m);
      AllAccept(cs[1..], p, Eval(cs[0], p, m).m);
      assert forall c :: c in cs ==> c == cs[0] || c in cs[1..];
    }
  }

  lemma {:induction false} OneMeaning(c: Expr, p: Packet, a: Reply, m: Machine)
    requires Means(c, p, a)
    ensures match Eval(c, p, m) case Rejected => a == None case Answer(v, _) => a == Some(v)
  {
    hide Eval;
    assert Replies(c, p, m, a);
  }

  // Whether the check, if there is one, accepts.
  ghost predicate Passes(check: Option<Expr>, p: Packet, m: Machine)
  {
    match check case None => true case Some(c) => Eval(c, p, m).Answer? && Eval(c, p, m).verdict
  }

  /** So the checks joined for a covered relation let through only packets that every check its
      loads call for accepts. */
  lemma {:induction false} CoveredChecksAll(e0: Arith, e1: Arith, p: Packet, m: Machine)
    requires Covered(e0, e1) && (forall c :: c in AllChecks(e0, e1) ==> MachineFree(c))
    requires Passes(Joined(Kept(e0), Kept(e1)), p, m)
    ensures forall c :: c in AllChecks(e0, e1) ==> Means(c, p, Some(true))
  {
    hide Eval, Means, MachineFree;
    KeptGuards(e0);
    KeptGuards(e1);
    JoinedGuards(Kept(e0), KeptChecks(e0), Kept(e1), KeptChecks(e1));
    KeptAmong(e0);
    KeptAmong(e1);
    var kept := AllKept(e0, e1);
    forall c | c in kept ensures MachineFree(c) {
      assert c in AllChecks(e0, e1);
    }
    if kept != [] { AllAccept(kept, p, m); }
  }

  lemma {:induction false} KeptAmong(e: Arith)
    ensures forall c :: c in KeptChecks(e) ==> c in Checks(e)
  {
    match e
    case Num(_) =>
    case Len =>
    case Minus(e1) => KeptAmong(e1);
    case Bin(_, l, _) => KeptAmong(l);
    case At(_, _, index) => KeptAmong(index);
  }
}
