/** What the protocol-chain programs do: the walk over the headers of a packet, when it ends,
    and where it agrees with section 4 of RFC 2460 and section 2.2 of RFC 4302. */
module HeaderWalk {
  import opened Words
  import opened Finite
  import opened Bpf
  import opened Protochain

  // Where a walk stands: it has found the protocol, failed, or looks for the header `nh` at `x`.
  datatype Place = Found | Failed | At(nh: Byte, x: nat)

  predicate IsExtension(nh: int)
  {
    nh == IPPROTO_HOPOPTS || nh == IPPROTO_DSTOPTS || nh == IPPROTO_ROUTING || nh == IPPROTO_FRAGMENT
  }

  // Where the length of a header is read. For an authentication header the place is computed in
  // 32 bits.
  function LengthAt(head: nat, nh: Byte, x: nat): nat
  {
    head + if nh == IPPROTO_AH then Wrap(x + 1) else x + 1
  }

  // Whether the program steps over the header, and whether it finds the two bytes it needs.
  predicate Steps(v6: bool, nh: Byte) { nh == IPPROTO_AH || (v6 && IsExtension(nh)) }

  predicate Captured(p: Packet, head: nat, nh: Byte, x: nat)
  {
    head + x < |p.data| && LengthAt(head, nh, x) < |p.data|
  }

  // One turn. Behind an authentication header the walk goes on at a place that does not depend
  // on where that header was.
  function Turn(p: Packet, head: nat, v: Word, v6: bool, nh: Byte, x: nat): Place
  {
    if nh == v then Found
    else if !Steps(v6, nh) || !Captured(p, head, nh, x) then Failed
    else
      var len := p.data[LengthAt(head, nh, x)] as int;
      At(p.data[head + x], if nh == IPPROTO_AH then 4 * (len + 2) else Wrap(x + 8 * (len + 1)))
  }

  // After at most `n` turns.
  function Turns(p: Packet, head: nat, v: Word, v6: bool, nh: Byte, x: nat, n: nat): Place
    decreases n
  {
    if n == 0 then At(nh, x)
    else match Turn(p, head, v, v6, nh, x)
      case At(nh', x') => Turns(p, head, v, v6, nh', x', n - 1)
      case other => other
  }

  ghost predicate IsChain(s: seq<Stmt>, v: Word, v6: bool, head: nat, reg: Reg)
    requires head + 9 < WORDS
  {
    if v6 then IsChain6(s, v, head, reg) else IsChain4(s, v, head, reg)
  }

  // The verdict of the block: the program's end, and then the final comparison.
  ghost predicate Accepts(st: Status, v: Word) { st.Done? && st.m.a == v }

  // ---- steps ----

  lemma {:induction false} RunStep(code: seq<Stmt>, p: Packet, pc: nat, m: Machine, n: nat)
    requires pc < |code| && n > 0
    ensures RunFor(code, p, pc, m, n) == match Advance(code, p, pc, m)
      case Running(pc', m') => RunFor(code, p, pc', m', n - 1)
      case other => other
  {}

  lemma {:induction false} JumpStep(code: seq<Stmt>, p: Packet, pc: nat, m: Machine, n: nat)
    requires pc < |code| && n > 0 && code[pc].JumpEq?
    ensures RunFor(code, p, pc, m, n) == RunFor(code, p, if m.a == code[pc].k then code[pc].jt else code[pc].jf, m, n - 1)
  {}

  lemma {:induction false} DoStep(code: seq<Stmt>, p: Packet, pc: nat, m: Machine, n: nat, m': Machine)
    requires pc < |code| && n > 0 && code[pc].Do? && Step(code[pc].i, p, m) == Some(m')
    ensures RunFor(code, p, pc, m, n) == RunFor(code, p, pc + 1, m', n - 1)
  {}

  lemma {:induction false} FailStep(code: seq<Stmt>, p: Packet, pc: nat, m: Machine, n: nat)
    requires pc < |code| && n > 0 && code[pc].Do? && Step(code[pc].i, p, m) == None
    ensures RunFor(code, p, pc, m, n) == Rejected
  {}

  lemma {:induction false} Stopped(s: seq<Stmt>, p: Packet, m: Machine, n: nat)
    ensures RunFor(s, p, |s|, m, n) == Done(m)
  {}

  // A run that has stopped stays as it is.
  lemma {:induction false} StaysStopped(code: seq<Stmt>, p: Packet, pc: nat, m: Machine, n: nat, k: nat)
    requires n <= k && !RunFor(code, p, pc, m, n).Running?
    ensures RunFor(code, p, pc, m, k) == RunFor(code, p, pc, m, n)
    decreases n
  {
    hide Advance;
    if pc < |code| {
      match Advance(code, p, pc, m)
      case Running(pc', m') => StaysStopped(code, p, pc', m', n - 1, k - 1);
      case other =>
    }
  }

  // How many tests a header goes through, and where they lead.
  function Tests(v: Word, v6: bool, nh: Word): nat
  {
    if nh == v then 1
    else if nh == IPPROTO_NONE then 2
    else if !v6 then 4
    else if nh == IPPROTO_HOPOPTS then 3
    else if nh == IPPROTO_DSTOPTS then 4
    else if nh == IPPROTO_ROUTING then 5
    else if nh == IPPROTO_FRAGMENT then 6
    else 7
  }

  function Target(v: Word, v6: bool, nh: Word): nat
  {
    var end := if v6 then 31 else 19;
    if nh == v || nh == IPPROTO_NONE then end
    else if v6 && IsExtension(nh) then 9
    else if nh == IPPROTO_AH then (if v6 then 19 else 7)
    else end
  }

  lemma {:induction false} TestsRun(s: seq<Stmt>, p: Packet, v: Word, v6: bool, head: nat, reg: Reg, m: Machine, n: nat)
    requires head + 9 < WORDS && IsChain(s, v, v6, head, reg) && n >= Tests(v, v6, m.a)
    ensures RunFor(s, p, 3, m, n) == RunFor(s, p, Target(v, v6, m.a), m, n - Tests(v, v6, m.a))
  {
    hide RunFor, Advance, IsAhArm;
    JumpStep(s, p, 3, m, n);
    if m.a != v {
      JumpStep(s, p, 4, m, n - 1);
      if m.a != IPPROTO_NONE {
        if v6 {
          JumpStep(s, p, 5, m, n - 2);
          if m.a != IPPROTO_HOPOPTS { JumpStep(s, p, 6, m, n - 3); }
          if m.a !in {IPPROTO_HOPOPTS, IPPROTO_DSTOPTS} { JumpStep(s, p, 7, m, n - 4); }
          if m.a !in {IPPROTO_HOPOPTS, IPPROTO_DSTOPTS, IPPROTO_ROUTING} { JumpStep(s, p, 8, m, n - 5); }
          if !IsExtension(m.a) { JumpStep(s, p, 18, m, n - 6); }
        } else {
          NopStep(s, p, 5, m, n - 2);
          JumpStep(s, p, 6, m, n - 3);
        }
      }
    }
  }

  lemma {:induction false} NopStep(s: seq<Stmt>, p: Packet, pc: nat, m: Machine, n: nat)
    requires pc < |s| && n > 0 && s[pc] == Do(AluK(Add, 0))
    ensures RunFor(s, p, pc, m, n) == RunFor(s, p, pc + 1, m, n - 1)
  {
    DoStep(s, p, pc, m, n, m);
  }

  // The machine at the next header.
  ghost predicate Stands(m: Machine, nh: Byte, x: nat) { m.a == nh && m.x == x }

  // The length byte is in A: X moves behind the header, and A is the next header again.
  lemma {:induction false} StepOver(s: seq<Stmt>, p: Packet, v: Word, head: nat, reg: Reg, m: Machine, n: nat)
    requires head + 9 < WORDS && IsChain6(s, v, head, reg) && n >= 6 && m.a < 0x100
    ensures RunFor(s, p, 12, m, n) == RunFor(s, p, 3, Machine(m.mem[reg], Wrap(m.x + 8 * (m.a + 1)), m.mem), n - 6)
  {
    hide RunFor, IsAhArm;
    var m1 := m.(a := m.a as int + 1);
    DoStep(s, p, 12, m, n, m1);
    var m2 := m.(a := (m.a as int + 1) * 8);
    DoStep(s, p, 13, m1, n - 1, m2);
    var m3 := m.(a := Wrap((m.a as int + 1) * 8 + m.x));
    DoStep(s, p, 14, m2, n - 2, m3);
    RunStep(s, p, 15, m3, n - 3);
    var m4 := m3.(x := m3.a);
    DoStep(s, p, 16, m4, n - 4, m4.(a := m.mem[reg]));
    RunStep(s, p, 17, m4.(a := m.mem[reg]), n - 5);
  }

  // One extension header is stepped over, if both bytes read are in bounds.
  lemma {:induction false} ExtensionTurn(s: seq<Stmt>, p: Packet, v: Word, head: nat, reg: Reg, m: Machine,
      n: nat) returns (m': Machine)
    requires head + 9 < WORDS && IsChain6(s, v, head, reg) && n >= 9
    ensures head + m.x + 1 >= |p.data| ==> RunFor(s, p, 9, m, n) == Rejected
    ensures head + m.x + 1 < |p.data| ==> RunFor(s, p, 9, m, n) == RunFor(s, p, 3, m', n - 9)
    ensures head + m.x + 1 < |p.data| ==> Stands(m', p.data[head + m.x], Wrap(m.x + 8 * (p.data[head + m.x + 1] as int + 1)))
  {
    hide RunFor, IsAhArm;
    m' := m;
    if head + m.x >= |p.data| {
      FailStep(s, p, 9, m, n);
    } else {
      var nh := p.data[head + m.x];
      var m1 := m.(a := nh);
      DoStep(s, p, 9, m, n, m1);
      var m2 := m1.(mem := m.mem[reg := nh]);
      DoStep(s, p, 10, m1, n - 1, m2);
      if head + m.x + 1 >= |p.data| {
        FailStep(s, p, 11, m2, n - 2);
      } else {
        var m3 := m2.(a := p.data[head + m.x + 1]);
        DoStep(s, p, 11, m2, n - 2, m3);
        StepOver(s, p, v, head, reg, m3, n - 3);
        m' := Machine(nh, Wrap(m.x + 8 * (m3.a + 1)), m3.mem);
      }
    }
  }

  // The same for an authentication header, whose length gives the new place by itself.
  lemma {:induction false} AhTurn(s: seq<Stmt>, p: Packet, at: nat, head: nat, reg: Reg, m: Machine,
      n: nat) returns (m': Machine)
    requires head + 9 < WORDS && at + 12 < |s| && IsAhArm(s, at, head, reg) && n >= 12
    ensures !Captured(p, head, IPPROTO_AH, m.x) ==> RunFor(s, p, at, m, n) == Rejected
    ensures Captured(p, head, IPPROTO_AH, m.x) ==>
      && RunFor(s, p, at, m, n) == RunFor(s, p, 3, m', n - 12)
      && Stands(m', p.data[head + m.x], 4 * (p.data[LengthAt(head, IPPROTO_AH, m.x)] as int + 2))
  {
    hide RunFor;
    m' := m;
    var m0 := m.(a := m.x);
    RunStep(s, p, at, m, n);
    if head + m.x >= |p.data| {
      FailStep(s, p, at + 1, m0, n - 1);
    } else {
      var nh := p.data[head + m.x];
      var m1 := m.(a := nh);
      DoStep(s, p, at + 1, m0, n - 1, m1);
      var m2 := m1.(mem := m.mem[reg := nh]);
      DoStep(s, p, at + 2, m1, n - 2, m2);
      m' := AhLength(s, p, at, head, reg, m2, n - 3);
    }
  }

  // The second half of the turn.
  lemma {:induction false} AhLength(s: seq<Stmt>, p: Packet, at: nat, head: nat, reg: Reg, m: Machine,
      n: nat) returns (m': Machine)
    requires head + 9 < WORDS && at + 12 < |s| && IsAhArm(s, at, head, reg) && n >= 9
    requires head + m.x < |p.data|
    ensures !Captured(p, head, IPPROTO_AH, m.x) ==> RunFor(s, p, at + 3, m, n) == Rejected
    ensures Captured(p, head, IPPROTO_AH, m.x) ==>
      && RunFor(s, p, at + 3, m, n) == RunFor(s, p, 3, m', n - 9)
      && m'.a == m.mem[reg] && m'.x == 4 * (p.data[LengthAt(head, IPPROTO_AH, m.x)] as int + 2)
  {
    hide RunFor;
    m' := m;
    var m1 := m.(a := m.x);
    RunStep(s, p, at + 3, m, n);
    var y := Wrap(m.x + 1);
    var m2 := m1.(a := y);
    DoStep(s, p, at + 4, m1, n - 1, m2);
    var m3 := m2.(x := y);
    RunStep(s, p, at + 5, m2, n - 2);
    if head + y >= |p.data| {
      FailStep(s, p, at + 6, m3, n - 3);
    } else {
      var len := p.data[head + y] as int;
      var m4 := m3.(a := len);
      DoStep(s, p, at + 6, m3, n - 3, m4);
      var m5 := m3.(a := len + 2);
      DoStep(s, p, at + 7, m4, n - 4, m5);
      var m6 := m3.(a := (len + 2) * 4);
      DoStep(s, p, at + 8, m5, n - 5, m6);
      var m7 := m6.(x := m6.a);
      RunStep(s, p, at + 9, m6, n - 6);
      m' := m7.(a := m.mem[reg]);
      DoStep(s, p, at + 10, m7, n - 7, m');
      RunStep(s, p, at + 11, m', n - 8);
    }
  }

  // ---- turns ----

  // How many steps a turn takes that leads to another.
  function Cost(v: Word, v6: bool, nh: Word): nat
  {
    Tests(v, v6, nh) + if Target(v, v6, nh) == 9 then 9 else 12
  }

  lemma {:induction false} CostBound(v: Word, v6: bool, nh: Word)
    ensures 2 <= Cost(v, v6, nh) <= 19 && Tests(v, v6, nh) < Cost(v, v6, nh)
  {}

  // Which statements a header leads to, and what the turn is.
  lemma {:induction false} Arms(p: Packet, head: nat, v: Word, v6: bool, nh: Byte, x: nat)
    ensures var t, c, turn := Target(v, v6, nh), Cost(v, v6, nh) - Tests(v, v6, nh), Turn(p, head, v, v6, nh, x);
      if nh == v || !Steps(v6, nh) then
        t == (if v6 then 31 else 19) && !turn.At? && (turn.Found? <==> nh == v)
      else if nh == IPPROTO_AH then
        && t == (if v6 then 19 else 7) && c == 12
        && turn == if Captured(p, head, nh, x)
           then At(p.data[head + x], 4 * (p.data[LengthAt(head, nh, x)] as int + 2)) else Failed
      else
        && v6 && t == 9 && c == 9
        && turn == if head + x + 1 < |p.data|
           then At(p.data[head + x], Wrap(x + 8 * (p.data[head + x + 1] as int + 1))) else Failed
  {}

  lemma {:induction false} ArmsOf(s: seq<Stmt>, v: Word, v6: bool, head: nat, reg: Reg)
    requires head + 9 < WORDS && IsChain(s, v, v6, head, reg)
    ensures |s| == (if v6 then 32 else 20) && s[|s| - 1] == Do(AluK(Add, 0))
    ensures IsAhArm(s, if v6 then 19 else 7, head, reg) && (v6 ==> IsChain6(s, v, head, reg))
  {
    hide IsAhArm;
  }

  // A turn that ends the walk ends the run.
  lemma {:induction false} LastTurn(s: seq<Stmt>, p: Packet, v: Word, v6: bool, head: nat, reg: Reg, m: Machine, n: nat)
    requires head + 9 < WORDS && IsChain(s, v, v6, head, reg) && m.a < 0x100 && n >= 19
    requires !Turn(p, head, v, v6, m.a, m.x).At?
    ensures var st := RunFor(s, p, 3, m, n);
      !st.Running? && (Accepts(st, v) <==> Turn(p, head, v, v6, m.a, m.x).Found?)
  {
    hide *;
    CostBound(v, v6, m.a);
    TestsRun(s, p, v, v6, head, reg, m, n);
    Arms(p, head, v, v6, m.a, m.x);
    ArmsOf(s, v, v6, head, reg);
    var t, k := Target(v, v6, m.a), n - Tests(v, v6, m.a);
    if t == |s| - 1 {
      NopStep(s, p, t, m, k);
      Stopped(s, p, m, k - 1);
      AcceptsIs(m, v);
    } else if t == 9 {
      var m' := ExtensionTurn(s, p, v, head, reg, m, k);
      AcceptsIs(m, v);
    } else {
      var m' := AhTurn(s, p, t, head, reg, m, k);
      AcceptsIs(m, v);
    }
  }

  lemma {:induction false} AcceptsIs(m: Machine, v: Word)
    ensures (Accepts(Done(m), v) <==> m.a == v) && !Accepts(Rejected, v)
  {}

  // Any other turn leads to the start of the next.
  lemma {:induction false} NextTurn(s: seq<Stmt>, p: Packet, v: Word, v6: bool, head: nat, reg: Reg, m: Machine,
      n: nat) returns (m': Machine)
    requires head + 9 < WORDS && IsChain(s, v, v6, head, reg) && m.a < 0x100 && n >= Cost(v, v6, m.a)
    requires Turn(p, head, v, v6, m.a, m.x).At?
    ensures RunFor(s, p, 3, m, n) == RunFor(s, p, 3, m', n - Cost(v, v6, m.a)) && m'.a < 0x100
    ensures var t := Turn(p, head, v, v6, m.a, m.x); Stands(m', t.nh, t.x)
  {
    hide *;
    CostBound(v, v6, m.a);
    TestsRun(s, p, v, v6, head, reg, m, n);
    Arms(p, head, v, v6, m.a, m.x);
    ArmsOf(s, v, v6, head, reg);
    var t, k := Target(v, v6, m.a), n - Tests(v, v6, m.a);
    if t == 9 {
      m' := ExtensionTurn(s, p, v, head, reg, m, k);
    } else {
      m' := AhTurn(s, p, t, head, reg, m, k);
    }
    var turn := Turn(p, head, v, v6, m.a, m.x);
    StandsIs(m', turn.nh, turn.x);
  }

  lemma {:induction false} StandsIs(m: Machine, nh: Byte, x: nat)
    ensures Stands(m, nh, x) <==> m.a == nh && m.x == x
  {}

  // A walk that ends within `t` turns ends the run, with its verdict.
  lemma {:induction false} WalkEnds(s: seq<Stmt>, p: Packet, v: Word, v6: bool, head: nat, reg: Reg, m: Machine,
      t: nat, n: nat)
    requires head + 9 < WORDS && IsChain(s, v, v6, head, reg) && m.a < 0x100 && n >= 19 * t
    requires !Turns(p, head, v, v6, m.a, m.x, t).At?
    ensures var st := RunFor(s, p, 3, m, n);
      !st.Running? && (Accepts(st, v) <==> Turns(p, head, v, v6, m.a, m.x, t).Found?)
    decreases t
  {
    hide IsChain, RunFor, Turn;
    if Turn(p, head, v, v6, m.a, m.x).At? {
      CostBound(v, v6, m.a);
      var m' := NextTurn(s, p, v, v6, head, reg, m, n);
      WalkEnds(s, p, v, v6, head, reg, m', t - 1, n - Cost(v, v6, m.a));
    } else {
      LastTurn(s, p, v, v6, head, reg, m, n);
    }
  }

  // A run does not stop in fewer steps than the walk has turns.
  lemma {:induction false} WalkGoesOn(s: seq<Stmt>, p: Packet, v: Word, v6: bool, head: nat, reg: Reg, m: Machine,
      n: nat)
    requires head + 9 < WORDS && IsChain(s, v, v6, head, reg) && m.a < 0x100
    requires Turns(p, head, v, v6, m.a, m.x, n + 1).At?
    ensures RunFor(s, p, 3, m, n).Running?
    decreases n
  {
    hide IsChain, Turn;
    CostBound(v, v6, m.a);
    var c := Cost(v, v6, m.a);
    assert IsChain(s, v, v6, head, reg);
    assert |s| > 3 by { ChainLength(s, v, v6, head, reg); }
    if n >= c {
      var m' := NextTurn(s, p, v, v6, head, reg, m, n);
      TurnsPrefix(p, head, v, v6, m'.a, m'.x, n - c + 1, n);
      hide RunFor;
      WalkGoesOn(s, p, v, v6, head, reg, m', n - c);
    } else {
      var m' := NextTurn(s, p, v, v6, head, reg, m, c);
      assert RunFor(s, p, 3, m', 0) == Running(3, m');
      if !RunFor(s, p, 3, m, n).Running? { StaysStopped(s, p, 3, m, n, c); }
    }
  }

  lemma {:induction false} ChainLength(s: seq<Stmt>, v: Word, v6: bool, head: nat, reg: Reg)
    requires head + 9 < WORDS && IsChain(s, v, v6, head, reg)
    ensures |s| == if v6 then 32 else 20
  {}

  // A walk still under way after `b` turns was under way after fewer.
  lemma {:induction false} TurnsPrefix(p: Packet, head: nat, v: Word, v6: bool, nh: Byte, x: nat, a: nat, b: nat)
    requires a <= b && Turns(p, head, v, v6, nh, x, b).At?
    ensures Turns(p, head, v, v6, nh, x, a).At?
    decreases a
  {
    hide Turn;
    if a > 0 {
      var t := Turn(p, head, v, v6, nh, x);
      TurnsPrefix(p, head, v, v6, t.nh, t.x, a - 1, b - 1);
    }
  }

  // Where a walk that starts at the first header of a packet starts.
  function FirstAt(head: nat, v6: bool): nat { head + if v6 then 6 else 9 }

  function FirstX(p: Packet, head: nat, v6: bool): nat
    requires head < |p.data|
  {
    if v6 then 40 else 4 * (p.data[head] % 16)
  }

  // After at most `n` turns from the packet's own first header.
  ghost function Walk(p: Packet, head: nat, v: Word, v6: bool, n: nat): Place
  {
    if FirstAt(head, v6) >= |p.data| then Failed
    else Turns(p, head, v, v6, p.data[FirstAt(head, v6)], FirstX(p, head, v6), n)
  }

  lemma {:induction false} FirstSteps(s: seq<Stmt>, p: Packet, v: Word, v6: bool, head: nat, reg: Reg, m: Machine,
      n: nat) returns (m': Machine)
    requires head + 9 < WORDS && IsChain(s, v, v6, head, reg) && n >= 2
    ensures FirstAt(head, v6) >= |p.data| ==> RunFor(s, p, 1, m, n) == Rejected
    ensures FirstAt(head, v6) < |p.data| ==> RunFor(s, p, 1, m, n) == RunFor(s, p, 3, m', n - 2) && m'.a < 0x100
    ensures FirstAt(head, v6) < |p.data| ==> Stands(m', p.data[FirstAt(head, v6)], FirstX(p, head, v6))
  {
    hide RunFor, IsAhArm;
    m' := m;
    if FirstAt(head, v6) >= |p.data| {
      FailStep(s, p, 1, m, n);
    } else {
      var m1 := m.(a := p.data[FirstAt(head, v6)]);
      DoStep(s, p, 1, m, n, m1);
      m' := m1.(x := FirstX(p, head, v6));
      RunStep(s, p, 2, m1, n - 1);
    }
  }

  /** On every packet the program stops exactly when the walk over its headers ends, and then
      accepts exactly when the walk has found the protocol. */
  lemma {:induction false} ProgramWalks(s: seq<Stmt>, p: Packet, v: Word, v6: bool, head: nat, reg: Reg, m: Machine,
      t: nat, n: nat)
    requires head + 9 < WORDS && IsChain(s, v, v6, head, reg)
    ensures !Walk(p, head, v, v6, t).At? && n >= 19 * t + 2 ==>
      var st := RunFor(s, p, 1, m, n); !st.Running? && (Accepts(st, v) <==> Walk(p, head, v, v6, t).Found?)
    ensures Walk(p, head, v, v6, n).At? ==> RunFor(s, p, 1, m, n).Running?
  {
    hide IsChain, Turns, FirstX;
    if n >= 2 {
      var m' := FirstSteps(s, p, v, v6, head, reg, m, n);
      if FirstAt(head, v6) < |p.data| {
        if !Walk(p, head, v, v6, t).At? && n >= 19 * t + 2 { WalkEnds(s, p, v, v6, head, reg, m', t, n - 2); }
        if Walk(p, head, v, v6, n).At? {
          TurnsPrefix(p, head, v, v6, m'.a, m'.x, n - 1, n);
          WalkGoesOn(s, p, v, v6, head, reg, m', n - 2);
        }
      }
    } else if FirstAt(head, v6) < |p.data| {
      var m' := FirstSteps(s, p, v, v6, head, reg, m, 2);
      ChainLength(s, v, v6, head, reg);
      assert RunFor(s, p, 3, m', 0) == Running(3, m');
      if !RunFor(s, p, 1, m, n).Running? { StaysStopped(s, p, 1, m, n, 2); }
    }
  }

  // ---- when the walk ends ----

  lemma {:induction false} TurnsSplit(p: Packet, head: nat, v: Word, v6: bool, nh: Byte, x: nat, a: nat, b: nat)
    ensures Turns(p, head, v, v6, nh, x, a + b) ==
      match Turns(p, head, v, v6, nh, x, a)
      case At(nh', x') => Turns(p, head, v, v6, nh', x', b)
      case other => other
    decreases a
  {
    hide Turn;
    if a > 0 {
      match Turn(p, head, v, v6, nh, x)
      case At(nh', x') => TurnsSplit(p, head, v, v6, nh', x', a - 1, b);
      case other =>
    }
  }

  // A walk that has been twice in the same place never ends.
  lemma {:induction false} Cycle(p: Packet, head: nat, v: Word, v6: bool, nh: Byte, x: nat, i: nat, j: nat, t: nat)
    requires i < j && Turns(p, head, v, v6, nh, x, j).At? && Turns(p, head, v, v6, nh, x, i) == Turns(p, head, v, v6, nh, x, j)
    ensures Turns(p, head, v, v6, nh, x, t).At?
    decreases t
  {
    hide Turns;
    if t <= j {
      TurnsPrefix(p, head, v, v6, nh, x, t, j);
    } else {
      Cycle(p, head, v, v6, nh, x, i, j, i + (t - j));
      TurnsSplit(p, head, v, v6, nh, x, i, t - j);
      TurnsSplit(p, head, v, v6, nh, x, j, t - j);
      assert j + (t - j) == t;
    }
  }

  // A place as a number.
  function Code(t: Place): nat { if t.At? then 256 * t.x + t.nh else 0 }

  lemma {:induction false} CodeIs(t: Place, u: Place)
    requires t.At? && u.At? && Code(t) == Code(u)
    ensures t == u
  {}

  // A walk that goes on from a place reads two bytes there.
  lemma {:induction false} InPacket(p: Packet, head: nat, v: Word, v6: bool, nh: Byte, x: nat, i: nat)
    requires Turns(p, head, v, v6, nh, x, i + 1).At?
    ensures var t := Turns(p, head, v, v6, nh, x, i); t.At? && Code(t) < 256 * |p.data|
  {
    TurnsSplit(p, head, v, v6, nh, x, i, 1);
  }

  // A walk that is still under way after as many turns as there are places has been somewhere twice.
  lemma {:induction false} Repeats(p: Packet, head: nat, v: Word, v6: bool, nh: Byte, x: nat) returns (i: nat, j: nat)
    requires Turns(p, head, v, v6, nh, x, 256 * |p.data| + 1).At?
    ensures i < j && Turns(p, head, v, v6, nh, x, j).At? && Turns(p, head, v, v6, nh, x, i) == Turns(p, head, v, v6, nh, x, j)
  {
    hide Turns, Code;
    var n := 256 * |p.data| + 1;
    var codes := seq(n, k requires 0 <= k < n => Code(Turns(p, head, v, v6, nh, x, k)));
    forall k | 0 <= k < n ensures Turns(p, head, v, v6, nh, x, k).At? && codes[k] in Below(256 * |p.data|) {
      TurnsPrefix(p, head, v, v6, nh, x, k + 1, n);
      InPacket(p, head, v, v6, nh, x, k);
    }
    if NoDup(codes) { NoDupSize(codes, Below(256 * |p.data|)); }
    i, j :| 0 <= i < j < n && codes[i] == codes[j];
    CodeIs(Turns(p, head, v, v6, nh, x, i), Turns(p, head, v, v6, nh, x, j));
  }

  /** The program stops on a packet exactly when the walk over its headers ends within one turn
      more than 256 for each byte of the packet: a walk longer than that goes round for ever. */
  lemma {:induction false} StopsExactly(s: seq<Stmt>, p: Packet, v: Word, v6: bool, head: nat, reg: Reg, m: Machine)
    requires head + 9 < WORDS && IsChain(s, v, v6, head, reg)
    ensures (exists n: nat :: !RunFor(s, p, 1, m, n).Running?) <==> !Walk(p, head, v, v6, 256 * |p.data| + 1).At?
  {
    hide IsChain, RunFor, Turns, FirstX;
    var t := 256 * |p.data| + 1;
    if Walk(p, head, v, v6, t).At? {
      var nh, x := p.data[FirstAt(head, v6)], FirstX(p, head, v6);
      var i, j := Repeats(p, head, v, v6, nh, x);
      forall n: nat ensures RunFor(s, p, 1, m, n).Running? {
        Cycle(p, head, v, v6, nh, x, i, j, n);
        ProgramWalks(s, p, v, v6, head, reg, m, t, n);
      }
    } else {
      ProgramWalks(s, p, v, v6, head, reg, m, t, 19 * t + 2);
    }
  }

  // ---- the part of authentication headers ----

  // For packets a little short of 2^32 bytes, X grows at every turn but those.
  lemma {:induction false} TurnGrows(p: Packet, head: nat, v: Word, v6: bool, nh: Byte, x: nat)
    requires |p.data| + 2048 <= WORDS && nh != IPPROTO_AH && Turn(p, head, v, v6, nh, x).At?
    ensures Turn(p, head, v, v6, nh, x).x > x && x < |p.data|
  {}

  // None of the first `n` places of the walk is an authentication header to be stepped over.
  ghost predicate NoAhFor(p: Packet, head: nat, v: Word, v6: bool, nh: Byte, x: nat, n: nat)
    decreases n
  {
    n == 0 || ((nh == v || nh != IPPROTO_AH) &&
      match Turn(p, head, v, v6, nh, x)
      case At(nh', x') => NoAhFor(p, head, v, v6, nh', x', n - 1)
      case _ => true)
  }

  // Without authentication headers the walk is out of the packet in the end.
  lemma {:induction false} NoAhEnds(p: Packet, head: nat, v: Word, v6: bool, nh: Byte, x: nat, n: nat)
    requires |p.data| + 2048 <= WORDS && n > 0 && n + x > |p.data| && NoAhFor(p, head, v, v6, nh, x, n)
    ensures !Turns(p, head, v, v6, nh, x, n).At?
    decreases n
  {
    var t := Turn(p, head, v, v6, nh, x);
    if t.At? {
      assert nh != v && nh != IPPROTO_AH;
      TurnGrows(p, head, v, v6, nh, x);
      hide Turn;
      NoAhEnds(p, head, v, v6, t.nh, t.x, n - 1);
    }
  }

  ghost predicate AhFree(p: Packet, head: nat, v: Word, v6: bool)
  {
    FirstAt(head, v6) < |p.data| ==>
      NoAhFor(p, head, v, v6, p.data[FirstAt(head, v6)], FirstX(p, head, v6), |p.data| + 1)
  }

  /** On every packet whose headers, before the protocol is found, are no authentication headers,
      whatever their reserved octets, either program stops within a bound linear in the length of
      the packet, and accepts exactly when the walk has found the protocol. */
  lemma {:induction false} AhFreeStops(s: seq<Stmt>, p: Packet, v: Word, v6: bool, head: nat, reg: Reg, m: Machine,
      n: nat)
    requires head + 9 < WORDS && IsChain(s, v, v6, head, reg) && n >= 19 * (|p.data| + 1) + 2
    requires |p.data| + 2048 <= WORDS && AhFree(p, head, v, v6)
    ensures !RunFor(s, p, 1, m, n).Running?
    ensures Accepts(RunFor(s, p, 1, m, n), v) <==> Walk(p, head, v, v6, |p.data| + 1).Found?
  {
    hide IsChain, RunFor, Turns, NoAhFor, FirstX;
    var t := |p.data| + 1;
    if FirstAt(head, v6) < |p.data| {
      NoAhEnds(p, head, v, v6, p.data[FirstAt(head, v6)], FirstX(p, head, v6), t);
    }
    ProgramWalks(s, p, v, v6, head, reg, m, t, n);
  }

  // The walk stands at an authentication header after `k` turns.
  ghost predicate AhAt(p: Packet, head: nat, v: Word, v6: bool, nh: Byte, x: nat, k: nat)
  {
    var t := Turns(p, head, v, v6, nh, x, k);
    t.At? && t.nh == IPPROTO_AH
  }

  lemma {:induction false} TurnsNext(p: Packet, head: nat, v: Word, v6: bool, nh: Byte, x: nat, k: nat)
    requires Turns(p, head, v, v6, nh, x, k + 1).At?
    ensures var t := Turns(p, head, v, v6, nh, x, k);
      t.At? && Turns(p, head, v, v6, nh, x, k + 1) == Turn(p, head, v, v6, t.nh, t.x)
  {
    TurnsSplit(p, head, v, v6, nh, x, k, 1);
    var t := Turns(p, head, v, v6, nh, x, k);
    if t.At? { OneTurn(p, head, v, v6, t.nh, t.x); }
  }

  lemma {:induction false} GrowsBetween(p: Packet, head: nat, v: Word, v6: bool, nh: Byte, x: nat, i: nat, j: nat)
    requires |p.data| + 2048 <= WORDS && i < j && Turns(p, head, v, v6, nh, x, j).At?
    requires forall k: nat :: i <= k < j ==> !AhAt(p, head, v, v6, nh, x, k)
    ensures Turns(p, head, v, v6, nh, x, i).At?
    ensures Turns(p, head, v, v6, nh, x, j).x > Turns(p, head, v, v6, nh, x, i).x
    decreases j
  {
    hide Turns, Turn;
    var k := j - 1;
    TurnsNext(p, head, v, v6, nh, x, k);
    var t := Turns(p, head, v, v6, nh, x, k);
    assert !AhAt(p, head, v, v6, nh, x, k);
    TurnGrows(p, head, v, v6, t.nh, t.x);
    if i < k { GrowsBetween(p, head, v, v6, nh, x, i, k); }
  }

  // A walk that comes back to a place has met an authentication header on the way, and meets it again.
  lemma {:induction false} AhBetween(p: Packet, head: nat, v: Word, v6: bool, nh: Byte, x: nat, i: nat, j: nat)
      returns (k: nat)
    requires |p.data| + 2048 <= WORDS && i < j && Turns(p, head, v, v6, nh, x, j).At?
    requires Turns(p, head, v, v6, nh, x, i) == Turns(p, head, v, v6, nh, x, j)
    ensures i <= k < j && AhAt(p, head, v, v6, nh, x, k)
    ensures Turns(p, head, v, v6, nh, x, k) == Turns(p, head, v, v6, nh, x, k + (j - i))
  {
    hide Turns, AhAt;
    if forall k: nat :: i <= k < j ==> !AhAt(p, head, v, v6, nh, x, k) {
      GrowsBetween(p, head, v, v6, nh, x, i, j);
      assert false;
    }
    k :| i <= k < j && AhAt(p, head, v, v6, nh, x, k);
    TurnsSplit(p, head, v, v6, nh, x, i, k - i);
    TurnsSplit(p, head, v, v6, nh, x, j, k - i);
    assert i + (k - i) == k && j + (k - i) == k + (j - i);
  }

  // The walk from the packet's own first header meets an authentication header at the same place
  // again, `d` turns later.
  ghost predicate AhAgain(p: Packet, head: nat, v: Word, v6: bool, k: nat, d: nat)
  {
    && d > 0 && Walk(p, head, v, v6, k).At? && Walk(p, head, v, v6, k).nh == IPPROTO_AH
    && Walk(p, head, v, v6, k + d) == Walk(p, head, v, v6, k)
  }

  ghost predicate RunsForever(s: seq<Stmt>, p: Packet, m: Machine)
  {
    forall n: nat :: RunFor(s, p, 1, m, n).Running?
  }

  ghost predicate MeetsAhTwice(p: Packet, head: nat, v: Word, v6: bool)
  {
    exists k: nat, d: nat :: AhAgain(p, head, v, v6, k, d)
  }

  lemma {:induction false} ForeverMeets(s: seq<Stmt>, p: Packet, v: Word, v6: bool, head: nat, reg: Reg, m: Machine)
    requires head + 9 < WORDS && IsChain(s, v, v6, head, reg) && |p.data| + 2048 <= WORDS && RunsForever(s, p, m)
    ensures MeetsAhTwice(p, head, v, v6)
  {
    hide IsChain, Turns, FirstX;
    StopsExactly(s, p, v, v6, head, reg, m);
    var nh, x := p.data[FirstAt(head, v6)], FirstX(p, head, v6);
    var i, j := Repeats(p, head, v, v6, nh, x);
    var k := AhBetween(p, head, v, v6, nh, x, i, j);
    assert AhAgain(p, head, v, v6, k, j - i);
  }

  lemma {:induction false} MeetsForever(s: seq<Stmt>, p: Packet, v: Word, v6: bool, head: nat, reg: Reg, m: Machine)
    requires head + 9 < WORDS && IsChain(s, v, v6, head, reg) && MeetsAhTwice(p, head, v, v6)
    ensures RunsForever(s, p, m)
  {
    var k: nat, d: nat :| AhAgain(p, head, v, v6, k, d);
    hide IsChain, Turns, FirstX;
    forall n: nat ensures RunFor(s, p, 1, m, n).Running? {
      Cycle(p, head, v, v6, p.data[FirstAt(head, v6)], FirstX(p, head, v6), k, k + d, n);
      ProgramWalks(s, p, v, v6, head, reg, m, n, n);
    }
  }

  /** A run goes on for ever if and only if its walk meets an authentication header at the same
      place twice. */
  lemma {:induction false} ForeverIsAhTwice(s: seq<Stmt>, p: Packet, v: Word, v6: bool, head: nat, reg: Reg, m: Machine)
    requires head + 9 < WORDS && IsChain(s, v, v6, head, reg) && |p.data| + 2048 <= WORDS
    ensures RunsForever(s, p, m) <==> MeetsAhTwice(p, head, v, v6)
  {
    hide *;
    if RunsForever(s, p, m) { ForeverMeets(s, p, v, v6, head, reg, m); }
    if MeetsAhTwice(p, head, v, v6) { MeetsForever(s, p, v, v6, head, reg, m); }
  }

  /** It happens: an authentication header that leads back to itself. */
  lemma {:induction false} NeverStops(s: seq<Stmt>, v: Word, reg: Reg, m: Machine) returns (p: Packet)
    requires IsChain6(s, v, 0, reg) && v != IPPROTO_AH
    ensures RunsForever(s, p, m)
  {
    p := Packet(seq(42, i => if i == 6 || i == 40 then 51 else if i == 41 then 8 else 0), 42);
    assert p.data[6] == 51 && p.data[40] == 51 && p.data[41] == 8;
    assert Turn(p, 0, v, true, 51, 40) == At(51, 40);
    forall n: nat ensures RunFor(s, p, 1, m, n).Running? {
      SamePlace(p, v, n);
      assert Walk(p, 0, v, true, n).At?;
      ProgramWalks(s, p, v, true, 0, reg, m, n, n);
    }
  }

  lemma {:induction false} SamePlace(p: Packet, v: Word, n: nat)
    requires Turn(p, 0, v, true, 51, 40) == At(51, 40)
    ensures Turns(p, 0, v, true, 51, 40, n) == At(51, 40)
  {
    hide Turn;
    if n > 0 { SamePlace(p, v, n - 1); }
  }

  // ---- the standard ----

  // Where the header behind `nh` starts: a fragment header is always 8 octets long, its second
  // octet is reserved, and all other lengths count from the header itself.
  function RfcNext(p: Packet, head: nat, nh: Byte, x: nat): nat
    requires head + x + 1 < |p.data|
  {
    var len := p.data[head + x + 1] as int;
    x + if nh == IPPROTO_FRAGMENT then 8 else if nh == IPPROTO_AH then 4 * (len + 2) else 8 * (len + 1)
  }

  function RfcTurn(p: Packet, head: nat, v: Word, v6: bool, nh: Byte, x: nat): Place
  {
    if nh == v then Found
    else if !Steps(v6, nh) || head + x + 1 >= |p.data| then Failed
    else At(p.data[head + x], RfcNext(p, head, nh, x))
  }

  function RfcTurns(p: Packet, head: nat, v: Word, v6: bool, nh: Byte, x: nat, n: nat): Place
    decreases n
  {
    if n == 0 then At(nh, x)
    else match RfcTurn(p, head, v, v6, nh, x)
      case At(nh', x') => RfcTurns(p, head, v, v6, nh', x', n - 1)
      case other => other
  }

  // The chain of headers as the standards define it holds `v`, all headers before it captured.
  ghost predicate InRfcChain(p: Packet, head: nat, v: Word, v6: bool)
  {
    FirstAt(head, v6) < |p.data| &&
    exists n: nat :: RfcTurns(p, head, v, v6, p.data[FirstAt(head, v6)], FirstX(p, head, v6), n) == Found
  }

  // The program steps over the header as the standards do: the reserved octet of a fragment
  // header is 0, an authentication header is at place 0, which is where the program counts from,
  // and no sum wraps.
  predicate Plain(p: Packet, head: nat, v: Word, v6: bool, nh: Byte, x: nat)
  {
    nh != v && Steps(v6, nh) ==>
      if head + x + 1 < |p.data| then
        && (nh == IPPROTO_FRAGMENT ==> p.data[head + x + 1] == 0)
        && (nh == IPPROTO_AH ==> x == 0)
        && RfcNext(p, head, nh, x) < WORDS
      else !Captured(p, head, nh, x)
  }

  lemma {:induction false} TurnAgrees(p: Packet, head: nat, v: Word, v6: bool, nh: Byte, x: nat)
    requires x < WORDS
    ensures Turn(p, head, v, v6, nh, x) == RfcTurn(p, head, v, v6, nh, x) <==> Plain(p, head, v, v6, nh, x)
  {}

  // The first `n` places of the walk are plain.
  ghost predicate PlainFor(p: Packet, head: nat, v: Word, v6: bool, nh: Byte, x: nat, n: nat)
    decreases n
  {
    n == 0 || (Plain(p, head, v, v6, nh, x) &&
      match Turn(p, head, v, v6, nh, x)
      case At(nh', x') => PlainFor(p, head, v, v6, nh', x', n - 1)
      case _ => true)
  }

  ghost predicate SameFor(p: Packet, head: nat, v: Word, v6: bool, nh: Byte, x: nat, n: nat)
  {
    forall k: nat :: k <= n ==> Turns(p, head, v, v6, nh, x, k) == RfcTurns(p, head, v, v6, nh, x, k)
  }

  /** The program reads a length out of fragment headers, and counts behind authentication headers
      from the start. It looks at exactly the headers that the standards put there, for any
      number of turns, if and only if all it steps over are plain. */
  lemma {:induction false} PlacesAgree(p: Packet, head: nat, v: Word, v6: bool, nh: Byte, x: nat, n: nat)
    requires x < WORDS
    ensures SameFor(p, head, v, v6, nh, x, n) <==> PlainFor(p, head, v, v6, nh, x, n)
    decreases n
  {
    if n > 0 {
      TurnAgrees(p, head, v, v6, nh, x);
      OneTurn(p, head, v, v6, nh, x);
      var t := Turn(p, head, v, v6, nh, x);
      hide Turn, RfcTurn, Plain;
      if t == RfcTurn(p, head, v, v6, nh, x) {
        if t.At? {
          TurnWraps(p, head, v, v6, nh, x);
          PlacesAgree(p, head, v, v6, t.nh, t.x, n - 1);
        }
        SameLater(p, head, v, v6, nh, x, n);
      } else {
        assert Turns(p, head, v, v6, nh, x, 1) != RfcTurns(p, head, v, v6, nh, x, 1);
      }
    } else {
      assert Turns(p, head, v, v6, nh, x, 0) == RfcTurns(p, head, v, v6, nh, x, 0);
    }
  }

  lemma {:induction false} OneTurn(p: Packet, head: nat, v: Word, v6: bool, nh: Byte, x: nat)
    ensures Turns(p, head, v, v6, nh, x, 1) == Turn(p, head, v, v6, nh, x)
    ensures RfcTurns(p, head, v, v6, nh, x, 1) == RfcTurn(p, head, v, v6, nh, x)
  {}

  lemma {:induction false} TurnWraps(p: Packet, head: nat, v: Word, v6: bool, nh: Byte, x: nat)
    requires Turn(p, head, v, v6, nh, x).At?
    ensures Turn(p, head, v, v6, nh, x).x < WORDS
  {}

  // After a first turn in common, the walks agree when they do from there on.
  lemma {:induction false} SameLater(p: Packet, head: nat, v: Word, v6: bool, nh: Byte, x: nat, n: nat)
    requires n > 0 && Turn(p, head, v, v6, nh, x) == RfcTurn(p, head, v, v6, nh, x)
    ensures var t := Turn(p, head, v, v6, nh, x);
      SameFor(p, head, v, v6, nh, x, n) <==> (t.At? ==> SameFor(p, head, v, v6, t.nh, t.x, n - 1))
  {
    hide Turn, RfcTurn;
    var t := Turn(p, head, v, v6, nh, x);
    if t.At? {
      if SameFor(p, head, v, v6, nh, x, n) {
        forall k: nat | k <= n - 1
          ensures Turns(p, head, v, v6, t.nh, t.x, k) == RfcTurns(p, head, v, v6, t.nh, t.x, k)
        {
          assert Turns(p, head, v, v6, nh, x, k + 1) == RfcTurns(p, head, v, v6, nh, x, k + 1);
        }
      }
      if SameFor(p, head, v, v6, t.nh, t.x, n - 1) {
        forall k: nat | k <= n ensures Turns(p, head, v, v6, nh, x, k) == RfcTurns(p, head, v, v6, nh, x, k) {
          if k > 0 { assert Turns(p, head, v, v6, t.nh, t.x, k - 1) == RfcTurns(p, head, v, v6, t.nh, t.x, k - 1); }
        }
      }
    }
  }

  // The chain of the standards always ends: every header starts behind the one before.
  lemma {:induction false} RfcEnds(p: Packet, head: nat, v: Word, v6: bool, nh: Byte, x: nat, n: nat)
    requires n > 0 && n + x > |p.data|
    ensures !RfcTurns(p, head, v, v6, nh, x, n).At?
    decreases n
  {
    var t := RfcTurn(p, head, v, v6, nh, x);
    if t.At? {
      assert t.x > x && x < |p.data|;
      RfcEnds(p, head, v, v6, t.nh, t.x, n - 1);
    }
  }

  // A chain that has ended has ended.
  lemma {:induction false} RfcStays(p: Packet, head: nat, v: Word, v6: bool, nh: Byte, x: nat, a: nat, b: nat)
    requires a <= b && !RfcTurns(p, head, v, v6, nh, x, a).At?
    ensures RfcTurns(p, head, v, v6, nh, x, b) == RfcTurns(p, head, v, v6, nh, x, a)
    decreases a
  {
    hide RfcTurn;
    match RfcTurn(p, head, v, v6, nh, x)
    case At(nh', x') => RfcStays(p, head, v, v6, nh', x', a - 1, b - 1);
    case other =>
  }

  lemma {:induction false} RfcFound(p: Packet, head: nat, v: Word, v6: bool, t: nat)
    requires FirstAt(head, v6) < |p.data|
    requires !RfcTurns(p, head, v, v6, p.data[FirstAt(head, v6)], FirstX(p, head, v6), t).At?
    ensures InRfcChain(p, head, v, v6) <==> RfcTurns(p, head, v, v6, p.data[FirstAt(head, v6)], FirstX(p, head, v6), t) == Found
  {
    hide RfcTurns, FirstX;
    var nh, x := p.data[FirstAt(head, v6)], FirstX(p, head, v6);
    if n: nat :| RfcTurns(p, head, v, v6, nh, x, n) == Found {
      if n <= t { RfcStays(p, head, v, v6, nh, x, n, t); } else { RfcStays(p, head, v, v6, nh, x, t, n); }
    }
  }

  // All headers that the program steps over on its way through the packet are plain.
  ghost predicate PlainPacket(p: Packet, head: nat, v: Word, v6: bool)
  {
    FirstAt(head, v6) < |p.data| ==>
      PlainFor(p, head, v, v6, p.data[FirstAt(head, v6)], FirstX(p, head, v6), |p.data| + 1)
  }

  /** On every such packet either program stops within a bound linear in the length of the packet,
      and it accepts exactly when the chain of headers that the standards define holds `v`. */
  lemma {:induction false} FollowsStandard(s: seq<Stmt>, p: Packet, v: Word, v6: bool, head: nat, reg: Reg, m: Machine,
      n: nat)
    requires head + 9 < WORDS && IsChain(s, v, v6, head, reg) && n >= 19 * (|p.data| + 1) + 2
    requires PlainPacket(p, head, v, v6)
    ensures !RunFor(s, p, 1, m, n).Running?
    ensures Accepts(RunFor(s, p, 1, m, n), v) <==> InRfcChain(p, head, v, v6)
  {
    hide IsChain, RunFor, Turns, RfcTurns, PlainFor;
    var t := |p.data| + 1;
    if FirstAt(head, v6) < |p.data| {
      var nh, x := p.data[FirstAt(head, v6)], FirstX(p, head, v6);
      PlacesAgree(p, head, v, v6, nh, x, t);
      assert Turns(p, head, v, v6, nh, x, t) == RfcTurns(p, head, v, v6, nh, x, t);
      RfcEnds(p, head, v, v6, nh, x, t);
      RfcFound(p, head, v, v6, t);
    }
    ProgramWalks(s, p, v, v6, head, reg, m, t, n);
  }

  // ---- packets put together ----

  // An extension header: its type, and its bytes, the first of which names the next header.
  datatype Header = Header(kind: Byte, bytes: seq<Byte>)

  ghost function KindOf(hs: seq<Header>, last: Byte): Byte { if hs == [] then last else hs[0].kind }

  ghost function BytesOf(hs: seq<Header>): seq<Byte>
  {
    if hs == [] then [] else hs[0].bytes + BytesOf(hs[1..])
  }

  // A header of this size: hop-by-hop, routing, and destination options count their length in units of
  // 8 octets without the first, authentication headers in units of 4 without the first two, and
  // fragment headers have 8 octets.
  ghost predicate WellSized(h: Header)
  {
    && h.kind in {0, 43, 44, 51, 60} && |h.bytes| >= 2
    && |h.bytes| == if h.kind == 44 then 8
      else if h.kind == 51 then 4 * (h.bytes[1] as int + 2)
      else 8 * (h.bytes[1] as int + 1)
  }

  // Headers that name each other in turn, the last of them `last`.
  ghost predicate Chained(hs: seq<Header>, last: Byte)
  {
    hs != [] ==> WellSized(hs[0]) && hs[0].bytes[0] == KindOf(hs[1..], last) && Chained(hs[1..], last)
  }

  // The IPv6 packet, its header `head` octets into the data: 40 octets, the seventh of which names the
  // first of the extension headers, and any payload.
  ghost predicate BuiltPacket(p: Packet, head: nat, hs: seq<Header>, last: Byte)
  {
    exists front, ip, payload :: |front| == head && IsBuilt(p, front, ip, hs, payload, last)
  }

  ghost predicate IsBuilt(p: Packet, front: seq<Byte>, ip: seq<Byte>, hs: seq<Header>, payload: seq<Byte>, last: Byte)
  {
    p.data == front + (ip + (BytesOf(hs) + payload)) && |ip| == 40 && ip[6] == KindOf(hs, last) && Chained(hs, last)
  }

  ghost predicate Names(hs: seq<Header>, last: Byte, v: Word)
  {
    v == last || exists h :: h in hs && h.kind == v
  }

  // What is left of the packet at place `x`.
  ghost predicate Rest(p: Packet, head: nat, x: nat, hs: seq<Header>, payload: seq<Byte>)
  {
    head + x <= |p.data| && p.data[head + x..] == BytesOf(hs) + payload
  }

  lemma {:induction false} RestNext(p: Packet, head: nat, x: nat, hs: seq<Header>, payload: seq<Byte>)
    requires Rest(p, head, x, hs, payload) && hs != [] && |hs[0].bytes| >= 2
    ensures head + x + 1 < |p.data| && p.data[head + x] == hs[0].bytes[0] && p.data[head + x + 1] == hs[0].bytes[1]
    ensures Rest(p, head, x + |hs[0].bytes|, hs[1..], payload)
  {
    var d, b := p.data[head + x..], hs[0].bytes;
    assert d == b + (BytesOf(hs[1..]) + payload);
    assert d[0] == b[0] && d[1] == b[1] && d[|b|..] == BytesOf(hs[1..]) + payload;
    assert p.data[head + x..][|b|..] == p.data[head + (x + |b|)..];
  }

  lemma {:induction false} ChainedNext(hs: seq<Header>, last: Byte)
    requires Chained(hs, last) && hs != []
    ensures WellSized(hs[0]) && hs[0].bytes[0] == KindOf(hs[1..], last) && Chained(hs[1..], last)
  {}

  lemma {:induction false} NamesNext(hs: seq<Header>, last: Byte, v: Word)
    requires hs != []
    ensures Names(hs, last, v) <==> hs[0].kind == v || Names(hs[1..], last, v)
  {
    assert hs == [hs[0]] + hs[1..];
  }

  // One header, as the standards step over it.
  lemma {:induction false} RfcOver(p: Packet, head: nat, v: Word, x: nat, h: Header)
    requires WellSized(h) && head + x + 1 < |p.data| && p.data[head + x] == h.bytes[0]
    requires p.data[head + x + 1] == h.bytes[1]
    ensures RfcTurn(p, head, v, true, h.kind, x) == if h.kind == v then Found else At(h.bytes[0], x + |h.bytes|)
    ensures h.kind != 51 && (h.kind == 44 ==> h.bytes[1] == 0) && x + |h.bytes| < WORDS ==>
      Plain(p, head, v, true, h.kind, x)
  {}

  lemma {:induction false} RfcLast(p: Packet, head: nat, v: Word, last: Byte, x: nat)
    requires last !in {0, 43, 44, 51, 60}
    ensures RfcTurn(p, head, v, true, last, x) == if last == v then Found else Failed
    ensures Plain(p, head, v, true, last, x)
  {}

  lemma {:induction false} RfcUnroll(p: Packet, head: nat, v: Word, nh: Byte, x: nat, n: nat)
    ensures RfcTurns(p, head, v, true, nh, x, n + 1) ==
      match RfcTurn(p, head, v, true, nh, x) case At(nh', x') => RfcTurns(p, head, v, true, nh', x', n) case other => other
  {}

  lemma {:induction false} RfcOnBuilt(p: Packet, head: nat, v: Word, x: nat, hs: seq<Header>, payload: seq<Byte>,
      last: Byte)
    requires Rest(p, head, x, hs, payload) && Chained(hs, last) && last !in {0, 43, 44, 51, 60}
    ensures RfcTurns(p, head, v, true, KindOf(hs, last), x, |hs| + 1) == if Names(hs, last, v) then Found else Failed
    decreases |hs|
  {
    hide RfcTurns, RfcTurn, Rest, Chained, WellSized, Names;
    RfcUnroll(p, head, v, KindOf(hs, last), x, |hs|);
    if hs == [] {
      RfcLast(p, head, v, last, x);
      NamesNone(last, v);
    } else {
      ChainedNext(hs, last);
      OpenSized(hs[0]);
      RestNext(p, head, x, hs, payload);
      RfcOver(p, head, v, x, hs[0]);
      NamesNext(hs, last, v);
      if hs[0].kind != v { RfcOnBuilt(p, head, v, x + |hs[0].bytes|, hs[1..], payload, last); }
    }
  }

  lemma {:induction false} OpenSized(h: Header)
    requires WellSized(h)
    ensures |h.bytes| >= 2
  {}

  lemma {:induction false} NamesNone(last: Byte, v: Word)
    ensures Names([], last, v) <==> v == last
  {}

  lemma {:induction false} OpenBuilt(p: Packet, front: seq<Byte>, ip: seq<Byte>, hs: seq<Header>, payload: seq<Byte>,
      last: Byte)
    requires IsBuilt(p, front, ip, hs, payload, last)
    ensures Rest(p, |front|, 40, hs, payload) && Chained(hs, last)
    ensures FirstAt(|front|, true) < |p.data| && FirstX(p, |front|, true) == 40
    ensures p.data[FirstAt(|front|, true)] == KindOf(hs, last)
  {
    var t := BytesOf(hs) + payload;
    assert p.data[|front|..] == ip + t && (ip + t)[40..] == t;
    assert p.data[|front|..][40..] == p.data[|front| + 40..];
    assert p.data[|front| + 6] == (ip + t)[6] == ip[6];
  }

  /** In a packet put together that way the chain the standards define holds exactly the types of its
      headers and the protocol behind them. */
  lemma {:induction false} ChainOfBuilt(p: Packet, head: nat, hs: seq<Header>, last: Byte, v: Word)
    requires BuiltPacket(p, head, hs, last) && last !in {0, 43, 44, 51, 60}
    ensures InRfcChain(p, head, v, true) <==> Names(hs, last, v)
  {
    var front, ip, payload :| |front| == head && IsBuilt(p, front, ip, hs, payload, last);
    hide IsBuilt, Rest, Chained, Names, RfcTurns;
    OpenBuilt(p, front, ip, hs, payload, last);
    RfcOnBuilt(p, head, v, 40, hs, payload, last);
    RfcFound(p, head, v, true, |hs| + 1);
  }

  // Headers that the program steps over as the standards do: no authentication header, and nothing in the
  // reserved octet of a fragment header.
  ghost predicate PlainHeaders(hs: seq<Header>)
  {
    forall h :: h in hs ==> h.kind != 51 && (h.kind == 44 && |h.bytes| >= 2 ==> h.bytes[1] == 0)
  }

  lemma {:induction false} PlainUnroll(p: Packet, head: nat, v: Word, nh: Byte, x: nat, n: nat)
    requires x < WORDS && Plain(p, head, v, true, nh, x)
    requires n > 1 && RfcTurn(p, head, v, true, nh, x).At? ==>
      var t := RfcTurn(p, head, v, true, nh, x); PlainFor(p, head, v, true, t.nh, t.x, n - 1)
    ensures PlainFor(p, head, v, true, nh, x, n)
  {
    TurnAgrees(p, head, v, true, nh, x);
    hide Turn, RfcTurn, Plain;
  }

  lemma {:induction false} PlainOnBuilt(p: Packet, head: nat, v: Word, x: nat, hs: seq<Header>, payload: seq<Byte>,
      last: Byte, n: nat)
    requires Rest(p, head, x, hs, payload) && Chained(hs, last) && last !in {0, 43, 44, 51, 60}
    requires PlainHeaders(hs) && |p.data| < WORDS
    ensures PlainFor(p, head, v, true, KindOf(hs, last), x, n)
    decreases |hs|
  {
    hide *;
    RestBound(p, head, x, hs, payload);
    if hs == [] {
      KindNone(last);
      RfcLast(p, head, v, last, x);
    } else {
      KindFirst(hs, last);
      PlainFirst(hs);
      ChainedNext(hs, last);
      OpenSized(hs[0]);
      RestNext(p, head, x, hs, payload);
      RestBound(p, head, x + |hs[0].bytes|, hs[1..], payload);
      RfcOver(p, head, v, x, hs[0]);
      if n > 1 && hs[0].kind != v {
        PlainOnBuilt(p, head, v, x + |hs[0].bytes|, hs[1..], payload, last, n - 1);
      }
    }
    PlainUnroll(p, head, v, KindOf(hs, last), x, n);
  }

  lemma {:induction false} KindFirst(hs: seq<Header>, last: Byte)
    requires hs != []
    ensures KindOf(hs, last) == hs[0].kind
  {}

  lemma {:induction false} KindNone(last: Byte)
    ensures KindOf([], last) == last
  {}

  lemma {:induction false} PlainFirst(hs: seq<Header>)
    requires PlainHeaders(hs) && hs != []
    ensures hs[0].kind != 51 && (hs[0].kind == 44 && |hs[0].bytes| >= 2 ==> hs[0].bytes[1] == 0) && PlainHeaders(hs[1..])
  {
    assert hs[0] in hs;
  }

  lemma {:induction false} RestBound(p: Packet, head: nat, x: nat, hs: seq<Header>, payload: seq<Byte>)
    requires Rest(p, head, x, hs, payload)
    ensures head + x <= |p.data|
  {}

  /** On a packet put together of plain headers the program accepts exactly the types of its headers
      and the protocol behind them. */
  lemma {:induction false} AcceptsBuilt(s: seq<Stmt>, p: Packet, v: Word, head: nat, reg: Reg, m: Machine, n: nat,
      hs: seq<Header>, last: Byte)
    requires head + 9 < WORDS && IsChain6(s, v, head, reg) && n >= 19 * (|p.data| + 1) + 2 && |p.data| < WORDS
    requires BuiltPacket(p, head, hs, last) && last !in {0, 43, 44, 51, 60} && PlainHeaders(hs)
    ensures !RunFor(s, p, 1, m, n).Running?
    ensures Accepts(RunFor(s, p, 1, m, n), v) <==> Names(hs, last, v)
  {
    hide IsChain6, RunFor, Accepts, Names, Chained, PlainHeaders, PlainFor, Rest, IsBuilt;
    ChainOfBuilt(p, head, hs, last, v);
    var front, ip, payload :| |front| == head && IsBuilt(p, front, ip, hs, payload, last);
    OpenBuilt(p, front, ip, hs, payload, last);
    PlainOnBuilt(p, head, v, 40, hs, payload, last, |p.data| + 1);
    FollowsStandard(s, p, v, true, head, reg, m, n);
  }

  /** An IPv4 packet that names no authentication header is accepted exactly when the protocol it names,
      ten octets into its header, is the one looked for. */
  lemma {:induction false} AcceptsIpv4(s: seq<Stmt>, p: Packet, v: Word, head: nat, reg: Reg, m: Machine, n: nat)
    requires head + 9 < WORDS && IsChain4(s, v, head, reg) && n >= 21
    requires head + 9 < |p.data| ==> p.data[head + 9] != 51 || v == 51
    ensures !RunFor(s, p, 1, m, n).Running?
    ensures Accepts(RunFor(s, p, 1, m, n), v) <==> head + 9 < |p.data| && p.data[head + 9] == v
  {
    if head + 9 < |p.data| {
      var nh, x := p.data[head + 9], FirstX(p, head, false);
      assert Turn(p, head, v, false, nh, x) == if nh == v then Found else Failed;
      OneTurn(p, head, v, false, nh, x);
    }
    hide IsChain4, RunFor, Accepts, Turns, Turn;
    ProgramWalks(s, p, v, false, head, reg, m, 1, n);
  }

  // The program rejects a packet whose chain holds the protocol it looks for.
  ghost predicate Misses(s: seq<Stmt>, p: Packet, v: Word, m: Machine)
  {
    InRfcChain(p, 0, v, true) && forall n: nat :: n >= 1000 ==>
      !RunFor(s, p, 1, m, n).Running? && !Accepts(RunFor(s, p, 1, m, n), v)
  }

  lemma {:induction false} MissesWhen(s: seq<Stmt>, p: Packet, v: Word, reg: Reg, m: Machine, t: nat, k: nat)
    requires IsChain6(s, v, 0, reg) && |p.data| > 6 && t <= 50
    requires Turns(p, 0, v, true, p.data[6], 40, t) == Failed
    requires RfcTurns(p, 0, v, true, p.data[6], 40, k) == Found
    ensures Misses(s, p, v, m)
  {
    hide IsChain6, RunFor, Turns, RfcTurns;
    assert FirstAt(0, true) == 6 && FirstX(p, 0, true) == 40;
    assert RfcTurns(p, 0, v, true, p.data[FirstAt(0, true)], FirstX(p, 0, true), k) == Found;
    assert Walk(p, 0, v, true, t) == Failed;
    forall n: nat | n >= 1000 ensures !RunFor(s, p, 1, m, n).Running? && !Accepts(RunFor(s, p, 1, m, n), v) {
      ProgramWalks(s, p, v, true, 0, reg, m, t, n);
    }
  }

  /** Otherwise the program may reject a packet whose chain holds the protocol: here a fragment
      header with 1 in its reserved octet, then a header with options, then TCP. */
  lemma {:induction false} ReservedMatters(s: seq<Stmt>, reg: Reg, m: Machine) returns (p: Packet)
    requires IsChain6(s, 6, 0, reg)
    ensures |p.data| > 6 && p.data[6] == IPPROTO_FRAGMENT && Misses(s, p, 6, m)
  {
    p := Packet(seq(50, i => if i == 6 then 44 else if i == 40 then 60 else if i == 41 then 1 else if i == 48 then 6 else 0), 50);
    assert p.data[6] == 44 && p.data[40] == 60 && p.data[41] == 1 && p.data[48] == 6 && p.data[49] == 0;
    assert Turn(p, 0, 6, true, 44, 40) == At(60, 56) && Turn(p, 0, 6, true, 60, 56) == Failed;
    assert RfcTurn(p, 0, 6, true, 44, 40) == At(60, 48) && RfcTurn(p, 0, 6, true, 60, 48) == At(6, 56);
    assert RfcTurn(p, 0, 6, true, 6, 56) == Found;
    hide IsChain6, Turn, RfcTurn;
    TwoTurns(p, 6, 44, 40, 60, 56);
    ThreeTurns(p, 6, 44, 40, 60, 48, 6, 56);
    MissesWhen(s, p, 6, reg, m, 2, 3);
  }

  /** The same with an authentication header, then a header with options, then TCP. */
  lemma {:induction false} AhMatters(s: seq<Stmt>, reg: Reg, m: Machine) returns (p: Packet)
    requires IsChain6(s, 6, 0, reg)
    ensures |p.data| > 6 && p.data[6] == IPPROTO_AH && Misses(s, p, 6, m)
  {
    p := Packet(seq(66, i => if i == 6 then 51 else if i == 24 then 59 else if i == 40 then 60 else if i == 41 then 4
      else if i == 64 then 6 else 0), 66);
    assert p.data[6] == 51 && p.data[40] == 60 && p.data[41] == 4 && p.data[24] == 59 && p.data[25] == 0;
    assert p.data[64] == 6 && p.data[65] == 0;
    assert Turn(p, 0, 6, true, 51, 40) == At(60, 24) && Turn(p, 0, 6, true, 60, 24) == At(59, 32);
    assert Turn(p, 0, 6, true, 59, 32) == Failed;
    assert RfcTurn(p, 0, 6, true, 51, 40) == At(60, 64) && RfcTurn(p, 0, 6, true, 60, 64) == At(6, 72);
    assert RfcTurn(p, 0, 6, true, 6, 72) == Found;
    hide IsChain6, Turn, RfcTurn;
    TwoTurns(p, 6, 51, 40, 60, 24);
    TwoTurns(p, 6, 60, 24, 59, 32);
    ThreeTurns(p, 6, 51, 40, 60, 64, 6, 72);
    MissesWhen(s, p, 6, reg, m, 3, 3);
  }

  lemma {:induction false} TwoTurns(p: Packet, v: Word, nh: Byte, x: nat, nh1: Byte, x1: nat)
    requires Turn(p, 0, v, true, nh, x) == At(nh1, x1)
    ensures Turns(p, 0, v, true, nh, x, 2) == Turn(p, 0, v, true, nh1, x1)
    ensures Turns(p, 0, v, true, nh, x, 3) == Turns(p, 0, v, true, nh1, x1, 2)
  {
    hide Turn;
  }

  lemma {:induction false} ThreeTurns(p: Packet, v: Word, nh: Byte, x: nat, nh1: Byte, x1: nat, nh2: Byte, x2: nat)
    requires RfcTurn(p, 0, v, true, nh, x) == At(nh1, x1) && RfcTurn(p, 0, v, true, nh1, x1) == At(nh2, x2)
    ensures RfcTurns(p, 0, v, true, nh, x, 3) == RfcTurn(p, 0, v, true, nh2, x2)
  {
    hide RfcTurn;
  }
}
