/** Comparisons between two arithmetic expressions, behind the protocol checks kept for them. */
module Relations {
  import opened Words
  import opened Bits
  import opened Bpf
  import opened Filter
  import opened Blocks
  import opened FieldTests
  import opened Statements
  import opened Registers
  import opened Arithmetic
  import opened ArithCode

  // The statements of a list, as the code of one test.
  method Take(s: Slist, ghost list: seq<Slist>) returns (code: seq<Instr>)
    requires IsList(s, list)
    ensures code == Code(list)
  {
    code := [s.s];
    var z: Slist := s;
    ghost var k := 0;
    CodeConcat([], list[..1]);
    assert list[..1] == [s];
    while z.next != null
      invariant 0 <= k < |list| && z == list[k] && code == Code(list[..k + 1])
      decreases |list| - k
    {
      z := z.next;
      code := code + [z.s];
      k := k + 1;
      CodeConcat(list[..k], [list[k]]);
      assert list[..k] + [list[k]] == list[..k + 1];
    }
    assert list[..k + 1] == list;
  }

  // The filter for a relation: the kept checks, if any, then the comparison itself.
  function Guarded(check: Option<Expr>, rel: Expr): Expr
  {
    match check case None => rel case Some(c) => And(c, rel)
  }

  ghost predicate TestsRelation(rel: Expr, jump: Jump, e0: Arith, e1: Arith, reversed: bool)
  {
    forall p :: Means(rel, p, RelationReply(p, jump, e0, e1, reversed))
  }

  lemma {:induction false} RelationTests(jump: Jump, c0: seq<Instr>, e0: Arith, r0: Reg, keep0: set<nat>,
                                         c1: seq<Instr>, e1: Arith, r1: Reg, keep1: set<nat>)
    requires Computes(c0, e0, r0, keep0) && Computes(c1, e1, r1, keep1) && keep0 + {r0} <= keep1
    ensures var rel := Leaf(Test(c0 + (c1 + Operands(r1, r0, RelationOp(jump))), RelationCond(jump)));
      TestsRelation(rel, jump, e0, e1, false) && TestsRelation(Not(rel), jump, e0, e1, true)
  {
    hide Computes;
    var rel := Leaf(Test(c0 + (c1 + Operands(r1, r0, RelationOp(jump))), RelationCond(jump)));
    forall p
      ensures Means(rel, p, RelationReply(p, jump, e0, e1, false))
      ensures Means(Not(rel), p, RelationReply(p, jump, e0, e1, true))
    {
      RelationMeans(jump, c0, e0, r0, keep0, c1, e1, r1, keep1, p);
      MeansNot(rel, p, RelationReply(p, jump, e0, e1, false));
      assert NotSo(RelationReply(p, jump, e0, e1, false)) == RelationReply(p, jump, e0, e1, true);
    }
  }

  lemma {:induction false} OpenCoded(a: Arth)
    requires a.Coded()
    ensures IsList(a.s, a.list) && a.regno < 16 && Computes(Code(a.list), a.e, a.regno, a.keep)
  {}

  // The statements of the bare comparison.
  method RelationCode(jump: Jump, a0: Arth, a1: Arth) returns (code: seq<Instr>)
    requires a0.Coded() && a1.Coded() && a0 != a1 && (forall x :: x in a0.list ==> x !in a1.list)
    requires a0.keep + {a0.regno} <= a1.keep
    modifies a0`list, a1`list, a0.list, a1.list
    ensures var rel := Leaf(Test(code, RelationCond(jump)));
      TestsRelation(rel, jump, a0.e, a1.e, false) && TestsRelation(Not(rel), jump, a0.e, a1.e, true)
  {
    hide *;
    OpenCoded(a0);
    OpenCoded(a1);
    RelationTests(jump, Code(a0.list), a0.e, a0.regno, a0.keep, Code(a1.list), a1.e, a1.regno, a1.keep);
    ghost var ops := JoinCode(a0, a1, RelationOp(jump));
    code := Take(a0.s, a0.list);
  }

  method NewTest(code: seq<Instr>, cond: Cond, reversed: bool) returns (b: Block)
    ensures b.Valid() && fresh(b) && b.blocks == [b]
    ensures b.expr == var rel := Leaf(Test(code, cond)); if reversed then Not(rel) else rel
  {
    hide *;
    b := new Block(Branch(Test(code, cond)));
    if reversed { GenNot(b); }
  }

  // Join the checks kept for the two sides.
  method JoinChecks(b0: Block?, ghost e0: Arith, b1: Block?, ghost e1: Arith) returns (tmp: Block?)
    requires Checked(b0, e0) && Checked(b1, e1) && (b0 != null && b1 != null ==> Apart(b0, b1))
    modifies BlocksOf(b0), BlocksOf(b1)
    ensures IsCheck(tmp, Joined(Kept(e0), Kept(e1)))
    ensures BlocksOf(tmp) == old(BlocksOf(b0) + BlocksOf(b1))
  {
    tmp := b1;
    if b0 != null {
      tmp := b0;
      if b1 != null {
        GenAnd(b0, b1);
        tmp := b1;
      }
    }
  }

  // Put the joined checks in front of the comparison.
  method GuardBlock(tmp: Block?, b: Block, ghost check: Option<Expr>)
    requires b.Valid() && IsCheck(tmp, check)
    requires forall x :: x in b.blocks ==> x !in BlocksOf(tmp)
    modifies b.blocks, BlocksOf(tmp)
    ensures b.Valid() && b.expr == Guarded(check, old(b.expr)) && b.blocks == old(BlocksOf(tmp) + b.blocks)
  {
    if tmp != null {
      assert Apart(tmp, b);
      GenAnd(tmp, b);
    }
  }

  lemma {:induction false} ApartChecks(a0: Arth, a1: Arth)
    requires forall x :: x in a0.Blks() ==> x !in a1.Blks()
    ensures a0.b != null && a1.b != null ==> Apart(a0.b, a1.b)
  {
    if a0.b != null && a1.b != null {
      assert a0.Blks() == a0.b.blocks && a1.Blks() == a1.b.blocks;
      forall x | x in a0.b.blocks ensures x !in a1.b.blocks {
        assert x in a0.Blks();
      }
    }
  }

  // The statements of the comparison, and the checks of both sides joined.
  method CodeAndChecks(jump: Jump, a0: Arth, a1: Arth) returns (code: seq<Instr>, tmp: Block?)
    requires a0.Valid() && a1.Valid() && a0 != a1 && (forall x :: x in a0.list ==> x !in a1.list)
    requires (forall x :: x in a0.Blks() ==> x !in a1.Blks()) && a0.keep + {a0.regno} <= a1.keep
    modifies a0`list, a1`list, a0.list, a1.list, a0.Blks(), a1.Blks()
    ensures var rel := Leaf(Test(code, RelationCond(jump)));
      TestsRelation(rel, jump, a0.e, a1.e, false) && TestsRelation(Not(rel), jump, a0.e, a1.e, true)
    ensures IsCheck(tmp, Joined(Kept(a0.e), Kept(a1.e))) && BlocksOf(tmp) == old(a0.Blks() + a1.Blks())
  {
    hide *;
    ApartChecks(a0, a1);
    SplitArth(a0);
    SplitArth(a1);
    code := RelationCode(jump, a0, a1);
    tmp := JoinChecks(a0.b, a0.e, a1.b, a1.e);
  }

  // The comparison behind its checks.
  method RelationFilter(jump: Jump, a0: Arth, a1: Arth, reversed: bool) returns (b: Block, ghost rel: Expr)
    requires a0.Valid() && a1.Valid() && a0 != a1 && (forall x :: x in a0.list ==> x !in a1.list)
    requires (forall x :: x in a0.Blks() ==> x !in a1.Blks()) && a0.keep + {a0.regno} <= a1.keep
    modifies a0`list, a1`list, a0.list, a1.list, a0.Blks(), a1.Blks()
    ensures b.Valid() && b.expr == Guarded(Joined(Kept(a0.e), Kept(a1.e)), rel)
    ensures TestsRelation(rel, jump, a0.e, a1.e, reversed)
    ensures fresh(b) && b.blocks == old(a0.Blks() + a1.Blks()) + [b]
  {
    hide *;
    SplitArth(a0);
    SplitArth(a1);
    var code, tmp := CodeAndChecks(jump, a0, a1);
    b := NewTest(code, RelationCond(jump), reversed);
    rel := b.expr;
    GuardBlock(tmp, b, Joined(Kept(a0.e), Kept(a1.e)));
  }

  /** Compare the values of two compiled expressions and give their registers back. The filter
      is the conjunction of the protocol checks kept for the two sides, then the comparison. */
  method GenRelation(jump: Jump, a0: Arth, a1: Arth, reversed: bool, regs: Regs) returns (b: Block, ghost rel: Expr)
    requires a0.Valid() && a1.Valid() && a0 != a1 && (forall x :: x in a0.list ==> x !in a1.list)
    requires (forall x :: x in a0.Blks() ==> x !in a1.Blks()) && a0.keep + {a0.regno} <= a1.keep && regs.Valid()
    modifies a0`list, a1`list, a0.list, a1.list, a0.Blks(), a1.Blks(), regs.used
    ensures b.Valid() && b.expr == Guarded(Joined(Kept(a0.e), Kept(a1.e)), rel)
    ensures TestsRelation(rel, jump, a0.e, a1.e, reversed)
    ensures fresh(b) && b.blocks == old(a0.Blks() + a1.Blks()) + [b]
    ensures regs.Valid() && regs.Used() == old(regs.Used()) - {a0.regno, a1.regno}
  {
    hide *;
    SplitArth(a0);
    SplitArth(a1);
    b, rel := RelationFilter(jump, a0, a1, reversed);
    regs.FreeReg(a0.regno);
    regs.FreeReg(a1.regno);
  }

  lemma {:induction false} SplitArth(a: Arth)
    requires a.Valid()
    ensures a.Coded() && Checked(a.b, a.e) && a.regno < 16 && a.Blks() == BlocksOf(a.b) == if a.b == null then [] else a.b.blocks
  {}

  // The code of both sides, the right one compiled while the register of the left one is in use.
  ghost predicate Sides(a0: Arth, a1: Arth, e0: Arith, e1: Arith, u: set<nat>)
    reads a0, a0.list, if a0.b == null then {} else {a0.b}, if a0.b == null then [] else a0.b.blocks
    reads a1, a1.list, if a1.b == null then {} else {a1.b}, if a1.b == null then [] else a1.b.blocks
  {
    && a0.Valid() && a0.e == e0 && a0.keep == u && a0.regno !in u
    && a1.Valid() && a1.e == e1 && a1.keep == u + {a0.regno} && a1.regno !in u + {a0.regno}
    && a0 != a1 && (forall x :: x in a0.list ==> x !in a1.list) && (forall x :: x in a0.Blks() ==> x !in a1.Blks())
  }

  method CompileSides(e0: Arith, e1: Arith, regs: Regs) returns (a0: Arth?, a1: Arth?)
    requires regs.Valid()
    modifies regs, regs.used
    ensures regs.Valid()
    ensures a0 != null && a1 != null <==> Need(e0) <= 16 - |old(regs.Used())| && 1 + Need(e1) <= 16 - |old(regs.Used())|
    ensures a0 != null && a1 != null ==>
      && Sides(a0, a1, e0, e1, old(regs.Used())) && regs.Used() == old(regs.Used()) + {a0.regno, a1.regno}
      && fresh(a0) && fresh(a0.list) && fresh(a0.Blks()) && fresh(a1) && fresh(a1.list) && fresh(a1.Blks())
  {
    hide *;
    ghost var u := regs.Used();
    a1 := null;
    a0 := GenArith(e0, regs);
    if a0 == null { return; }
    OpenCode(a0, e0, u, regs);
    SplitArth(a0);
    ghost var u1, B0 := regs.Used(), if a0.b == null then [] else a0.b.blocks;
    a1 := GenArith(e1, regs);
    if a1 == null { return; }
    OpenCode(a1, e1, u1, regs);
    assert a0.Blks() == B0;
    ShutSides(a0, a1, e0, e1, u);
  }

  lemma {:induction false} ShutSides(a0: Arth, a1: Arth, e0: Arith, e1: Arith, u: set<nat>)
    requires a0.Valid() && a0.e == e0 && a0.keep == u && a0.regno !in u
    requires a1.Valid() && a1.e == e1 && a1.keep == u + {a0.regno} && a1.regno !in u + {a0.regno}
    requires a0 != a1 && (forall x :: x in a0.list ==> x !in a1.list) && (forall x :: x in a0.Blks() ==> x !in a1.Blks())
    ensures Sides(a0, a1, e0, e1, u)
  {}

  lemma {:induction false} OpenSides(a0: Arth, a1: Arth, e0: Arith, e1: Arith, u: set<nat>)
    requires Sides(a0, a1, e0, e1, u)
    ensures a0.Valid() && a0.e == e0 && a0.keep == u && a0.regno !in u
    ensures a1.Valid() && a1.e == e1 && a1.keep == u + {a0.regno} && a1.regno !in u + {a0.regno}
    ensures a0 != a1 && (forall x :: x in a0.list ==> x !in a1.list) && (forall x :: x in a0.Blks() ==> x !in a1.Blks())
  {}

  /** A whole relation: it compiles exactly when enough registers are free, and leaves the
      registers as they were. */
  method CompileRelation(jump: Jump, e0: Arith, e1: Arith, reversed: bool, regs: Regs) returns (b: Block?,
      ghost rel: Expr)
    requires regs.Valid()
    modifies regs, regs.used
    ensures regs.Valid()
    ensures (b != null <==> Need(e0) <= 16 - |old(regs.Used())| && 1 + Need(e1) <= 16 - |old(regs.Used())|)
    ensures b != null ==> b.Valid() && fresh(b.blocks) && regs.Used() == old(regs.Used())
    ensures b != null ==> b.expr == Guarded(Joined(Kept(e0), Kept(e1)), rel) && TestsRelation(rel, jump, e0, e1, reversed)
  {
    hide *;
    ghost var u := regs.Used();
    rel := Leaf(Test([], CmpK(Jeq, 0)));
    var a0, a1 := CompileSides(e0, e1, regs);
    if a0 == null || a1 == null { return null, rel; }
    OpenSides(a0, a1, e0, e1, u);
    b, rel := GenRelation(jump, a0, a1, reversed, regs);
  }

  /** When every check is kept on one side or the other, a relation's filter accepts only packets
      that every check called for accepts, and of which the relation holds. */
  lemma {:induction false} FilterChecksAll(jump: Jump, e0: Arith, e1: Arith, reversed: bool, rel: Expr, p: Packet,
      m: Machine)
    requires Covered(e0, e1) && (forall c :: c in AllChecks(e0, e1) ==> MachineFree(c))
    requires TestsRelation(rel, jump, e0, e1, reversed)
    requires Passes(Some(Guarded(Joined(Kept(e0), Kept(e1)), rel)), p, m)
    ensures forall c :: c in AllChecks(e0, e1) ==> Means(c, p, Some(true))
    ensures RelationReply(p, jump, e0, e1, reversed) == Some(true)
  {
    hide *;
    var m' := GuardedPasses(Joined(Kept(e0), Kept(e1)), rel, p, m);
    CoveredChecksAll(e0, e1, p, m);
    RelationSays(rel, jump, e0, e1, reversed, p, m');
  }

  // Behind a check, both the check and the comparison have accepted.
  lemma {:induction false} GuardedPasses(check: Option<Expr>, rel: Expr, p: Packet, m: Machine) returns (m': Machine)
    requires Passes(Some(Guarded(check, rel)), p, m)
    ensures Passes(check, p, m) && Passes(Some(rel), p, m')
  {
    hide RunTest;
    match check
    case None => m' := m;
    case Some(c) => m' := Eval(c, p, m).m;
  }

  lemma {:induction false} RelationSays(rel: Expr, jump: Jump, e0: Arith, e1: Arith, reversed: bool, p: Packet,
      m: Machine)
    requires TestsRelation(rel, jump, e0, e1, reversed)
    ensures Passes(Some(rel), p, m) <==> RelationReply(p, jump, e0, e1, reversed) == Some(true)
  {
    assert Means(rel, p, RelationReply(p, jump, e0, e1, reversed));
    hide Means, Eval, RelationReply;
    OneMeaning(rel, p, RelationReply(p, jump, e0, e1, reversed), m);
  }

  // `ip[0]` on raw IP, whose packets have no header in front: the load calls for the check that
  // the version is 4.
  function VersionCheck(): Expr { Leaf(Test(LoadStmts(0, 0, B, 0xF0), CmpK(Jeq, 0x40))) }

  function FirstByte(): Arith { At(B, Fixed(0, Some(VersionCheck())), Num(0)) }

  lemma {:induction false} VersionSix()
    ensures Means(VersionCheck(), Packet([0x60], 1), Some(false))
  {
    hide *;
    VersionCheckIs();
    SixIsNot();
    VersionIsNot(Packet([0x60], 1), 0xF0, 0x40);
  }

  lemma {:induction false} SixIsNot()
    ensures AndBits(0x60, 0xF0) != 0x40
  {
    hide *;
    AndUpper(0x60);
  }

  lemma {:induction false} VersionIsNot(p: Packet, mask: Word, v: Word)
    requires |p.data| > 0 && mask < 0xffff_ffff
    ensures AndBits(p.data[0], mask) != v ==>
      Means(Leaf(Test(LoadStmts(0, 0, B, mask), CmpK(Jeq, v))), p, Some(false))
  {
    hide AndBits, LoadStmts, Means;
    CompareMeans(0, 0, B, mask, Jeq, v, p);
  }

  lemma {:induction false} VersionCheckIs()
    ensures VersionCheck() == Leaf(Test(LoadStmts(0, 0, B, 0xF0), CmpK(Jeq, 0x40)))
  {}

  // What the filter for `1 + ip[0] = 97` is made of.
  lemma {:induction false} OnlyRight()
    ensures var e := Bin(Add, Num(1), FirstByte());
      && Checks(e) == [VersionCheck()] && KeptChecks(e) == [] && Joined(Kept(e), Kept(Num(97))) == None
      && RelationReply(Packet([0x60], 1), Jeq, e, Num(97), false) == Some(true)
  {
    var p, e := Packet([0x60], 1), Bin(Add, Num(1), FirstByte());
    hide VersionCheck;
    assert p.data[0] == 0x60 && Load(p, B, 0) == Some(0x60);
    assert Value(Num(0), p) == Some(0) && Value(Num(1), p) == Some(1) && Value(Num(97), p) == Some(97);
    assert Value(FirstByte(), p) == Some(0x60);
    assert Value(e, p) == Some(0x61);
    assert Checks(FirstByte()) == [VersionCheck()] && Checks(Num(1)) == [];
  }

  /** Otherwise a packet that a check refuses may get through: on raw IP, the filter for
      `1 + ip[0] = 97` accepts an IPv6 packet. */
  lemma {:induction false} DroppedCheck() returns (e: Arith, c: Expr, p: Packet)
    ensures c == VersionCheck() && e == Bin(Add, Num(1), FirstByte()) && !Covered(e, Num(97))
    ensures c in AllChecks(e, Num(97)) && Means(c, p, Some(false))
    ensures forall rel, m :: TestsRelation(rel, Jeq, e, Num(97), false) ==>
      Passes(Some(Guarded(Joined(Kept(e), Kept(Num(97))), rel)), p, m)
  {
    e, c, p := Bin(Add, Num(1), FirstByte()), VersionCheck(), Packet([0x60], 1);
    VersionSix();
    OnlyRight();
    assert KeptChecks(Num(97)) == [] && Checks(Num(97)) == [];
    assert c in AllChecks(e, Num(97)) && c !in AllKept(e, Num(97));
    hide VersionCheck, FirstByte, Checks, KeptChecks, Kept, Joined, RelationReply, RunTest;
    forall rel, m | TestsRelation(rel, Jeq, e, Num(97), false)
      ensures Passes(Some(Guarded(Joined(Kept(e), Kept(Num(97))), rel)), p, m)
    {
      RelationSays(rel, Jeq, e, Num(97), false, p, m);
    }
  }

  /** It is the checks of both sides together that count: in `1 + ip[0] = ip[0]` the left side
      loses its check and the right side keeps the same one. */
  lemma {:induction false} KeptElsewhere()
    ensures var e := Bin(Add, Num(1), FirstByte()); !Covered(e, Num(0)) && Covered(e, FirstByte())
  {
    OnlyRight();
    hide VersionCheck;
    assert Checks(FirstByte()) == [VersionCheck()] == KeptChecks(FirstByte());
    assert Checks(Num(0)) == [] == KeptChecks(Num(0));
    var e := Bin(Add, Num(1), FirstByte());
    assert AllChecks(e, Num(0)) == [VersionCheck()] && AllKept(e, Num(0)) == [];
    assert VersionCheck() in AllChecks(e, Num(0)) && VersionCheck() !in AllKept(e, Num(0));
    assert AllChecks(e, FirstByte()) == [VersionCheck(), VersionCheck()] && AllKept(e, FirstByte())[0] == VersionCheck();
  }
}
