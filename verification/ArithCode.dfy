/** Code generation for arithmetic: statement lists are appended in place, and intermediate
    values live in scratch registers that are handed out and returned as the code grows. */
module ArithCode {
  import opened Words
  import opened Finite
  import opened Bpf
  import opened Filter
  import opened Blocks
  import opened Statements
  import opened Registers
  import opened Arithmetic
  import Parser

  ghost function BlocksOf(b: Block?): seq<Block>
    reads (if b == null then {} else {b})`blocks
  {
    if b == null then [] else b.blocks
  }

  // `b` is the block of the check, if there is one.
  ghost predicate IsCheck(b: Block?, check: Option<Expr>)
    reads if b == null then {} else {b}, if b == null then [] else b.blocks
  {
    if b == null then check == None else b.Valid() && check == Some(b.expr)
  }

  class Arth {
    var b: Block?     // protocol checks
    var s: Slist      // statement list
    var regno: nat    // register of the result
    // The statements, the expression they compute, and the registers they leave alone.
    ghost var list: seq<Slist>
    ghost var e: Arith
    ghost var keep: set<nat>

    ghost predicate Valid()
      reads this, list, if b == null then {} else {b}, if b == null then [] else b.blocks
    {
      Coded() && Checked(b, e)
    }

    ghost predicate Coded()
      reads this, list
    {
      IsList(s, list) && regno < 16 && regno !in keep && Computes(Code(list), e, regno, keep)
    }

    ghost function Blks(): seq<Block>
      reads this`b, (if b == null then {} else {b})`blocks
    {
      BlocksOf(b)
    }

    constructor (s: Slist, regno: nat, ghost list: seq<Slist>, ghost e: Arith, ghost keep: set<nat>)
      requires IsList(s, list) && regno < 16 && regno !in keep
      requires Computes(Code(list), e, regno, keep) && Kept(e) == None
      ensures Valid() && b == null && this.s == s && this.regno == regno
      ensures this.list == list && this.e == e && this.keep == keep
    {
      b, this.s, this.regno := null, s, regno;
      this.list, this.e, this.keep := list, e, keep;
    }
  }

  // `b` is the block of the check kept for `e`.
  ghost predicate Checked(b: Block?, e: Arith)
    reads if b == null then {} else {b}, if b == null then [] else b.blocks
  {
    IsCheck(b, Kept(e))
  }

  // A fresh list of two statements.
  method NewPair(i: Instr, j: Instr) returns (s: Slist, ghost list: seq<Slist>)
    ensures IsList(s, list) && fresh(list) && Code(list) == [i, j]
  {
    s := new Slist(i);
    var t := new Slist(j);
    s.next := t;
    list := [s, t];
    CodeConcat([s], [t]);
    assert [s] + [t] == list;
  }

  // `a` is the code for `e` made while the registers `u` were in use: it leaves them alone
  // and holds one register more.
  ghost predicate IsCodeFor(a: Arth, e: Arith, u: set<nat>, regs: Regs)
    requires regs.Valid()
    reads a, a.list, if a.b == null then {} else {a.b}, if a.b == null then [] else a.b.blocks, regs, regs.used
  {
    a.Valid() && a.e == e && a.keep == u && a.regno !in u && regs.Used() == u + {a.regno}
  }

  method GenLoadi(k: Word, regs: Regs) returns (ok: bool, a: Arth?)
    requires regs.Valid()
    modifies regs, regs.used
    ensures regs.Valid() && (ok <==> |old(regs.Used())| < 16) && (ok <==> a != null)
    ensures a != null ==> IsCodeFor(a, Num(k), old(regs.Used()), regs) && fresh(a) && fresh(a.list) && fresh(a.Blks())
  {
    ghost var u := regs.Used();
    CountFree(u);
    var reg;
    ok, reg := regs.AllocReg();
    if !ok { return false, null; }
    var s; ghost var list;
    s, list := NewPair(LdImm(k), St(reg));
    NumComputes(k, reg, u);
    a := new Arth(s, reg, list, Num(k), u);
  }

  method GenLoadlen(regs: Regs) returns (ok: bool, a: Arth?)
    requires regs.Valid()
    modifies regs, regs.used
    ensures regs.Valid() && (ok <==> |old(regs.Used())| < 16) && (ok <==> a != null)
    ensures a != null ==> IsCodeFor(a, Len, old(regs.Used()), regs) && fresh(a) && fresh(a.list) && fresh(a.Blks())
  {
    ghost var u := regs.Used();
    CountFree(u);
    var reg;
    ok, reg := regs.AllocReg();
    if !ok { return false, null; }
    var s; ghost var list;
    s, list := NewPair(LdLen, St(reg));
    LenComputes(reg, u);
    a := new Arth(s, reg, list, Len, u);
  }

  // Some register is free exactly when fewer than sixteen are in use.
  lemma {:induction false} CountFree(u: set<nat>)
    requires forall r :: r in u ==> r < 16
    ensures |u| <= 16
    ensures |u| < 16 <==> exists r: nat :: r < 16 && r !in u
  {
    var all := Below(16);
    assert u <= all;
    Smaller(u, all);
    if |u| == 16 {
      assert all == u + (all - u);
      assert all - u == {};
    } else {
      assert u != all;
      var r :| r in all && r !in u;
    }
    if r: nat :| r < 16 && r !in u {
      Smaller(u + {r}, all);
    }
  }

  // Append one new statement.
  method Emit(a: Arth, i: Instr) returns (ghost t: Slist)
    requires IsList(a.s, a.list)
    modifies a`list, a.list
    ensures IsList(a.s, a.list) && Code(a.list) == old(Code(a.list)) + [i] && a.list == old(a.list) + [t] && fresh(t)
  {
    var u := new Slist(i);
    assert u !in a.list;
    hide *;
    Sappend(a.s, u, a.list, [u]);
    a.list := a.list + [u];
    t := u;
  }

  // Append the statements `code`, one after the other.
  method EmitAll(a: Arth, code: seq<Instr>) returns (ghost added: seq<Slist>)
    requires IsList(a.s, a.list)
    modifies a`list, a.list
    ensures IsList(a.s, a.list) && Code(a.list) == old(Code(a.list)) + code
    ensures a.list == old(a.list) + added && fresh(added)
  {
    hide *;
    ghost var l0, c0 := a.list, Code(a.list);
    added := [];
    for k := 0 to |code|
      invariant IsList(a.s, a.list) && Code(a.list) == c0 + code[..k]
      invariant a.list == l0 + added && fresh(added)
    {
      ghost var t := Emit(a, code[k]);
      assert l0 + added + [t] == l0 + (added + [t]);
      added := added + [t];
      assert c0 + code[..k] + [code[k]] == c0 + code[..k + 1];
    }
    assert code[..|code|] == code;
  }

  method GenNeg(a: Arth) returns (ghost added: seq<Slist>)
    requires a.Valid()
    modifies a`list, a`e, a.list
    ensures a.Valid() && a.e == Minus(old(a.e)) && a.list == old(a.list) + added && fresh(added)
  {
    hide *;
    OpenArth(a);
    MinusComputes(Code(a.list), a.e, a.regno, a.keep);
    CheckedMinus(a.b, a.e);
    added := EmitAll(a, [LdMem(a.regno), Instr.Neg, St(a.regno)]);
    a.e := Minus(a.e);
    ShutArth(a);
  }

  lemma {:induction false} OpenArth(a: Arth)
    requires a.Valid()
    ensures IsList(a.s, a.list) && a.regno < 16 && a.regno !in a.keep
    ensures Computes(Code(a.list), a.e, a.regno, a.keep) && Checked(a.b, a.e)
  {}

  lemma {:induction false} ShutArth(a: Arth)
    requires IsList(a.s, a.list) && a.regno < 16 && a.regno !in a.keep
    requires Computes(Code(a.list), a.e, a.regno, a.keep) && Checked(a.b, a.e)
    ensures a.Valid()
  {}

  lemma {:induction false} CheckedMinus(b: Block?, e: Arith)
    requires Checked(b, e)
    ensures Checked(b, Minus(e))
  {}

  // Append a list of statements that is nobody else's.
  method AppendList(a: Arth, s: Slist, ghost p: seq<Slist>)
    requires IsList(a.s, a.list) && IsList(s, p) && forall x :: x in a.list ==> x !in p
    modifies a`list, a.list
    ensures IsList(a.s, a.list) && a.list == old(a.list) + p && Code(a.list) == old(Code(a.list)) + Code(p)
  {
    hide *;
    assert |a.list| > 0 by { OpenList(a.s, a.list); }
    Sappend(a.s, s, a.list, p);
    a.list := a.list + p;
  }

  lemma {:induction false} OpenList(s: Slist, p: seq<Slist>)
    requires IsList(s, p)
    ensures |p| > 0 && p[0] == s && (forall k :: 0 <= k < |p| ==> p[k].next == Statements.After(p, k))
    ensures forall i, j :: 0 <= i < j < |p| ==> p[i] != p[j]
  {}

  lemma {:induction false} ShutList(s: Slist, p: seq<Slist>)
    requires |p| > 0 && p[0] == s && (forall k :: 0 <= k < |p| ==> p[k].next == Statements.After(p, k))
    requires forall i, j :: 0 <= i < j < |p| ==> p[i] != p[j]
    ensures IsList(s, p)
  {}

  // Load X from register `x` and A from register `a`, then apply the operation, if any.
  method NewOperands(x: Reg, a: Reg, op: Option<AluOp>) returns (s0: Slist, ghost list: seq<Slist>)
    ensures IsList(s0, list) && fresh(list)
    ensures Code(list) == Operands(x, a, op)
  {
    s0 := new Slist(LdxMem(x));
    var s1 := new Slist(LdMem(a));
    ghost var tail := [s1];
    if op.Some? {
      var s2 := new Slist(AluX(op.value));
      Sappend(s1, s2, [s1], [s2]);
      tail := [s1] + [s2];
    }
    Sappend(s0, s1, [s0], tail);
    list := [s0] + tail;
  }

  // Append to the code of `a0` the code of `a1` and the loading of both results.
  method JoinCode(a0: Arth, a1: Arth, op: Option<AluOp>) returns (ghost ops: seq<Slist>)
    requires IsList(a0.s, a0.list) && IsList(a1.s, a1.list) && a0 != a1 && a0.regno < 16 && a1.regno < 16
    requires forall x :: x in a0.list ==> x !in a1.list
    modifies a0`list, a1`list, a0.list, a1.list
    ensures IsList(a0.s, a0.list) && a0.list == old(a0.list) + (old(a1.list) + ops) && fresh(ops)
    ensures Code(a0.list) == old(Code(a0.list)) + (old(Code(a1.list)) + Operands(a1.regno, a0.regno, op))
  {
    hide *;
    OpenList(a0.s, a0.list);
    ghost var l0, l1 := a0.list, a1.list;
    var s0; ghost var p;
    s0, p := NewOperands(a1.regno, a0.regno, op);
    ops := p;
    AppendList(a1, s0, ops);
    assert forall k :: 0 <= k < |l0| ==> l0[k] in l0;
    ShutList(a0.s, l0);
    assert forall x :: x in l0 ==> x !in l1 && x !in ops;
    AppendList(a0, a1.s, a1.list);
  }

  // The code of a binary operation, stored in `reg`.
  method BinCode(op: AluOp, a0: Arth, a1: Arth, reg: Reg) returns (ghost added: seq<Slist>)
    requires a0.Valid() && a1.Valid() && a0 != a1 && (forall x :: x in a0.list ==> x !in a1.list)
    requires a0.keep + {a0.regno} <= a1.keep && reg !in a0.keep
    modifies a0`list, a0`e, a0`regno, a1`list, a0.list, a1.list
    ensures a0.Valid() && a0.e == Bin(op, old(a0.e), a1.e) && a0.regno == reg
    ensures a0.list == old(a0.list) + (old(a1.list) + added) && fresh(added)
  {
    hide *;
    OpenArth(a0);
    OpenArth(a1);
    ghost var c0, c1 := Code(a0.list), Code(a1.list);
    CheckedBin(a0.b, op, a0.e, a1.e);
    ghost var ops := JoinCode(a0, a1, Some(op));
    BinComputes(op, c0, a0.e, a0.regno, a0.keep, c1, a1.e, a1.regno, a1.keep, reg);
    a0.regno := reg;
    ghost var t := Emit(a0, St(reg));
    a0.e := Bin(op, a0.e, a1.e);
    added := ops + [t];
    ShutArth(a0);
  }

  method GenArth(op: AluOp, a0: Arth, a1: Arth, regs: Regs) returns (ghost added: seq<Slist>)
    requires a0.Valid() && a1.Valid() && a0 != a1 && (forall x :: x in a0.list ==> x !in a1.list)
    requires regs.Valid() && a0.regno in regs.Used() && a1.regno in regs.Used()
    requires a0.keep <= regs.Used() - {a0.regno, a1.regno} && a0.keep + {a0.regno} <= a1.keep
    modifies a0`list, a0`e, a0`regno, a1`list, a0.list, a1.list, regs, regs.used
    ensures regs.Valid() && a0.Valid() && a0.e == Bin(op, old(a0.e), a1.e)
    ensures a0.list == old(a0.list) + (old(a1.list) + added) && fresh(added)
    ensures a0.regno !in a0.keep && regs.Used() == old(regs.Used() - {a0.regno, a1.regno}) + {a0.regno}
  {
    hide *;
    OpenArth(a0);
    OpenArth(a1);
    ghost var r0 := a0.regno;
    regs.FreeReg(a0.regno);
    regs.FreeReg(a1.regno);
    assert r0 < 16 && r0 !in regs.Used();
    var ok, reg := regs.AllocReg();
    added := BinCode(op, a0, a1, reg);
  }

  lemma {:induction false} CheckedBin(b: Block?, op: AluOp, l: Arith, r: Arith)
    requires Checked(b, l)
    ensures Checked(b, Bin(op, l, r))
  {}

  // The check of a fixed header, if it has one, comes behind those already there.
  method AddFixed(a: Arth, hdr: Header) returns (ghost newer: seq<Block>)
    requires Checked(a.b, a.e) && hdr.Fixed?
    modifies a`b, a.Blks()
    ensures IsCheck(a.b, Checking(hdr, Kept(a.e))) && a.Blks() == old(a.Blks()) + newer && fresh(newer)
  {
    newer := [];
    if hdr.check.Some? {
      var b := Parser.GenExpr(hdr.check.value);
      newer := b.blocks;
      AndKept(a.b, b, Kept(a.e));
      a.b := b;
    }
  }

  // Two checks in a row.
  method GenBoth(l: Expr, r: Expr) returns (b: Block)
    ensures b.Valid() && fresh(b.blocks) && b.expr == And(l, r)
  {
    var q := Parser.GenExpr(l);
    ghost var front := q.blocks;
    b := Parser.GenExpr(r);
    assert Apart(q, b);
    GenAnd(q, b);
  }

  // Put the check already there, if there is one, in front of `b`.
  method AndKept(k: Block?, b: Block, ghost kept: Option<Expr>)
    requires IsCheck(k, kept) && b.Valid() && forall x :: x in b.blocks ==> x !in BlocksOf(k)
    modifies BlocksOf(k), b.blocks
    ensures b.Valid() && b.blocks == old(BlocksOf(k) + b.blocks) && Some(b.expr) == Joined(kept, Some(old(b.expr)))
  {
    if k != null {
      assert Apart(k, b);
      GenAnd(k, b);
    }
  }

  // Put the test for IPv4 in front of `b`.
  method AndFront(ip: Expr, b: Block) returns (ghost older: seq<Block>)
    requires b.Valid()
    modifies b.blocks
    ensures b.Valid() && b.expr == And(ip, old(b.expr)) && b.blocks == older + old(b.blocks) && fresh(older)
  {
    var i := Parser.GenExpr(ip);
    older := i.blocks;
    assert Apart(i, b);
    GenAnd(i, b);
  }

  lemma {:induction false} BlksAre(a: Arth)
    ensures a.Blks() == BlocksOf(a.b) == if a.b == null then [] else a.b.blocks
    ensures Checked(a.b, a.e) <==> IsCheck(a.b, Kept(a.e))
  {}

  lemma {:induction false} BlockChecks(b: Block)
    requires b.Valid()
    ensures IsCheck(b, Some(b.expr)) && BlocksOf(b) == b.blocks
  {}

  lemma {:induction false} TransportChecking(hdr: Header, kept: Option<Expr>)
    requires hdr.Transport?
    ensures var inner := Joined(kept, Some(And(hdr.proto, hdr.frag)));
      inner.Some? && Checking(hdr, kept) == Some(And(hdr.ip, inner.value))
  {}

  // The checks that a load from a transport header calls for: those of the index in their
  // midst, and the test for IPv4 in front.
  method AddTransport(a: Arth, hdr: Header) returns (ghost older: seq<Block>, ghost newer: seq<Block>)
    requires Checked(a.b, a.e) && hdr.Transport?
    modifies a`b, a.Blks()
    ensures IsCheck(a.b, Checking(hdr, Kept(a.e)))
    ensures a.Blks() == older + (old(a.Blks()) + newer) && fresh(older) && fresh(newer)
  {
    hide *;
    BlksAre(a);
    ghost var was := if a.b == null then [] else a.b.blocks;
    var b := GenBoth(hdr.proto, hdr.frag);
    newer := b.blocks;
    assert forall x :: x in b.blocks ==> x !in was;
    AndKept(a.b, b, Kept(a.e));
    older := AndFront(hdr.ip, b);
    a.b := b;
    BlksAre(a);
    BlockChecks(b);
    TransportChecking(hdr, Kept(a.e));
  }

  // Guard the code with the checks a load calls for.
  method AddChecks(a: Arth, hdr: Header) returns (ghost older: seq<Block>, ghost newer: seq<Block>)
    requires Checked(a.b, a.e)
    modifies a`b, a.Blks()
    ensures IsCheck(a.b, Checking(hdr, Kept(a.e)))
    ensures a.Blks() == older + (old(a.Blks()) + newer) && fresh(older) && fresh(newer)
  {
    hide *;
    older := [];
    match hdr
    case Fixed(_, _) => newer := AddFixed(a, hdr);
    case Transport(_, _, _, _) => older, newer := AddTransport(a, hdr);
  }

  // The statements that load from the header.
  method NewFetch(size: Size, hdr: Header, r: Reg) returns (s: Slist, ghost list: seq<Slist>)
    ensures IsList(s, list) && fresh(list) && Code(list) == Fetch(size, hdr, r)
  {
    match hdr
    case Fixed(off, _) =>
      s, list := NewPair(LdxMem(r), LdInd(size, off));
    case Transport(off, _, _, _) =>
      var t; ghost var front, back;
      s, front := NewPair(LdxMsh(off), LdMem(r));
      t, back := NewTail(size, off);
      Sappend(s, t, front, back);
      list := front + back;
  }

  method NewTail(size: Size, off: Word) returns (t: Slist, ghost list: seq<Slist>)
    ensures IsList(t, list) && fresh(list) && Code(list) == [AluX(Add), Tax, LdInd(size, off)]
  {
    var u; ghost var p;
    t, p := NewPair(AluX(Add), Tax);
    u := new Slist(LdInd(size, off));
    Sappend(t, u, p, [u]);
    list := p + [u];
  }

  method EmitFetch(a: Arth, size: Size, hdr: Header) returns (ghost added: seq<Slist>)
    requires IsList(a.s, a.list) && a.regno < 16
    modifies a`list, a.list
    ensures IsList(a.s, a.list) && Code(a.list) == old(Code(a.list)) + Fetch(size, hdr, a.regno)
    ensures a.list == old(a.list) + added && fresh(added)
  {
    hide *;
    var s;
    s, added := NewFetch(size, hdr, a.regno);
    AppendList(a, s, added);
  }

  lemma {:induction false} CheckedAt(b: Block?, size: Size, hdr: Header, e: Arith)
    requires IsCheck(b, Checking(hdr, Kept(e)))
    ensures Checked(b, At(size, hdr, e))
  {}

  // The code of a load, stored in `reg`.
  method LoadCode(size: Size, hdr: Header, inst: Arth, reg: Reg)
    returns (ghost added: seq<Slist>, ghost older: seq<Block>, ghost newer: seq<Block>)
    requires inst.Valid() && reg !in inst.keep
    modifies inst`b, inst`list, inst`e, inst`regno, inst.list, inst.Blks()
    ensures inst.Valid() && inst.e == At(size, hdr, old(inst.e)) && inst.regno == reg
    ensures inst.list == old(inst.list) + added && fresh(added)
    ensures inst.Blks() == older + (old(inst.Blks()) + newer) && fresh(older) && fresh(newer)
  {
    hide *;
    OpenArth(inst);
    ghost var c0 := Code(inst.list);
    ghost var p := EmitFetch(inst, size, hdr);
    older, newer := AddChecks(inst, hdr);
    CheckedAt(inst.b, size, hdr, inst.e);
    LoadComputes(c0, inst.e, inst.regno, inst.keep, size, hdr, reg);
    inst.regno := reg;
    ghost var t := Emit(inst, St(reg));
    inst.e := At(size, hdr, inst.e);
    added := p + [t];
    ShutArth(inst);
  }

  method GenLoad(size: Size, hdr: Header, inst: Arth, regs: Regs)
    returns (ok: bool, ghost added: seq<Slist>, ghost older: seq<Block>, ghost newer: seq<Block>)
    requires inst.Valid() && regs.Valid() && inst.regno in regs.Used() && inst.keep <= regs.Used() - {inst.regno}
    modifies inst`b, inst`list, inst`e, inst`regno, inst.list, inst.Blks(), regs, regs.used
    ensures regs.Valid() && (ok <==> |old(regs.Used())| < 16)
    ensures ok ==> inst.Valid() && inst.e == At(size, hdr, old(inst.e))
    ensures ok ==> inst.regno !in inst.keep && regs.Used() == old(regs.Used() - {inst.regno}) + {inst.regno}
    ensures ok ==> inst.list == old(inst.list) + added && fresh(added)
    ensures ok ==> inst.Blks() == older + (old(inst.Blks()) + newer) && fresh(older) && fresh(newer)
  {
    hide *;
    OpenArth(inst);
    CountFree(regs.Used());
    added, older, newer := [], [], [];
    var reg;
    ok, reg := regs.AllocReg();
    if !ok { return false, [], [], []; }
    regs.FreeReg(inst.regno);
    added, older, newer := LoadCode(size, hdr, inst, reg);
  }

  lemma {:induction false} OpenCode(a: Arth, e: Arith, u: set<nat>, regs: Regs)
    requires regs.Valid() && IsCodeFor(a, e, u, regs)
    ensures a.Valid() && a.e == e && a.keep == u && a.regno !in u
    ensures regs.Used() == u + {a.regno} && |regs.Used()| == |u| + 1
  {}

  lemma {:induction false} ShutCode(a: Arth, e: Arith, u: set<nat>, regs: Regs)
    requires regs.Valid() && a.Valid() && a.e == e && a.keep == u && a.regno !in u && regs.Used() == u + {a.regno}
    ensures IsCodeFor(a, e, u, regs)
  {}

  lemma {:induction false} Needs(op: AluOp, l: Arith, r: Arith, size: Size, hdr: Header)
    ensures Need(Minus(l)) == Need(l)
    ensures var n := Need(Bin(op, l, r)); Need(l) <= n && 1 + Need(r) <= n && (n == Need(l) || n == 1 + Need(r))
    ensures var n := Need(At(size, hdr, l)); Need(l) <= n && 2 <= n && (n == Need(l) || n == 2)
  {}

  /** Compile an arithmetic expression bottom up. It succeeds exactly when the registers it
      needs are free; then the code leaves the value of the expression in its register,
      disturbs none of the registers in use before, and exactly one more is in use. */
  method GenArith(e: Arith, regs: Regs) returns (a: Arth?)
    requires regs.Valid()
    modifies regs, regs.used
    ensures regs.Valid() && (a != null <==> Need(e) <= 16 - |old(regs.Used())|)
    ensures a != null ==> IsCodeFor(a, e, old(regs.Used()), regs) && fresh(a) && fresh(a.list) && fresh(a.Blks())
    decreases e, 1
  {
    match e
    case Num(k) =>
      var ok;
      ok, a := GenLoadi(k, regs);
    case Len =>
      var ok;
      ok, a := GenLoadlen(regs);
    case Minus(e1) => a := GenMinus(e1, regs);
    case Bin(op, l, r) => a := GenBin(op, l, r, regs);
    case At(size, hdr, index) => a := GenAt(size, hdr, index, regs);
  }

  method GenMinus(e: Arith, regs: Regs) returns (a: Arth?)
    requires regs.Valid()
    modifies regs, regs.used
    ensures regs.Valid() && (a != null <==> Need(Minus(e)) <= 16 - |old(regs.Used())|)
    ensures a != null ==> IsCodeFor(a, Minus(e), old(regs.Used()), regs) && fresh(a) && fresh(a.list) && fresh(a.Blks())
    decreases Minus(e), 0
  {
    hide *;
    ghost var u := regs.Used();
    Needs(Add, e, e, B, Fixed(0, None));
    a := GenArith(e, regs);
    if a != null {
      OpenCode(a, e, u, regs);
      ghost var added := GenNeg(a);
      ShutCode(a, Minus(e), u, regs);
    }
  }

  // Join the code of both operands, the right one compiled while the register of the left one
  // was in use.
  method JoinOperands(op: AluOp, l: Arith, r: Arith, a: Arth, a1: Arth, ghost u: set<nat>, regs: Regs)
    returns (ghost added: seq<Slist>)
    requires regs.Valid() && a.Valid() && a.e == l && a.keep == u && a.regno !in u
    requires IsCodeFor(a1, r, u + {a.regno}, regs) && a != a1 && forall x :: x in a.list ==> x !in a1.list
    modifies a`list, a`e, a`regno, a1`list, a.list, a1.list, regs, regs.used
    ensures regs.Valid() && IsCodeFor(a, Bin(op, l, r), u, regs)
    ensures a.list == old(a.list) + (old(a1.list) + added) && fresh(added) && a.Blks() == old(a.Blks())
  {
    hide *;
    OpenCode(a1, r, u + {a.regno}, regs);
    added := GenArth(op, a, a1, regs);
    ShutCode(a, Bin(op, l, r), u, regs);
  }

  method GenBin(op: AluOp, l: Arith, r: Arith, regs: Regs) returns (a: Arth?)
    requires regs.Valid()
    modifies regs, regs.used
    ensures regs.Valid() && (a != null <==> Need(Bin(op, l, r)) <= 16 - |old(regs.Used())|)
    ensures a != null ==> IsCodeFor(a, Bin(op, l, r), old(regs.Used()), regs)
    ensures a != null ==> fresh(a) && fresh(a.list) && fresh(a.Blks())
    decreases Bin(op, l, r), 0
  {
    hide *;
    ghost var u := regs.Used();
    Needs(op, l, r, B, Fixed(0, None));
    a := GenArith(l, regs);
    if a == null { return; }
    OpenCode(a, l, u, regs);
    var a1 := GenArith(r, regs);
    if a1 == null { return null; }
    ghost var added := JoinOperands(op, l, r, a, a1, u, regs);
  }

  method GenAt(size: Size, hdr: Header, index: Arith, regs: Regs) returns (a: Arth?)
    requires regs.Valid()
    modifies regs, regs.used
    ensures regs.Valid() && (a != null <==> Need(At(size, hdr, index)) <= 16 - |old(regs.Used())|)
    ensures a != null ==> IsCodeFor(a, At(size, hdr, index), old(regs.Used()), regs) && fresh(a) && fresh(a.list) && fresh(a.Blks())
    decreases At(size, hdr, index), 0
  {
    hide *;
    ghost var u := regs.Used();
    Needs(Add, index, index, size, hdr);
    a := GenArith(index, regs);
    if a == null { return; }
    OpenCode(a, index, u, regs);
    var ok; ghost var added, older, newer;
    ok, added, older, newer := GenLoad(size, hdr, a, regs);
    if !ok { return null; }
    ShutCode(a, At(size, hdr, index), u, regs);
  }
}
