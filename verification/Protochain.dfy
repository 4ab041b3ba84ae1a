/** The protocol-chain test: a little program with backward jumps that walks the headers of a
    packet, and the machine that runs it. */
module Protochain {
  import opened Words
  import opened Bpf

  const IPPROTO_HOPOPTS: Word := 0
  const IPPROTO_ROUTING: Word := 43
  const IPPROTO_FRAGMENT: Word := 44
  const IPPROTO_AH: Word := 51
  const IPPROTO_NONE: Word := 59
  const IPPROTO_DSTOPTS: Word := 60

  // A statement; the targets of `JumpEq` are places in the array, 0 when not set yet.
  datatype Stmt =
    | Do(i: Instr)
    | JumpEq(k: Word, jt: nat, jf: nat)
    | JumpAlways(offset: int)

  datatype Status = Running(pc: nat, m: Machine) | Rejected | Done(m: Machine)

  function Advance(code: seq<Stmt>, p: Packet, pc: nat, m: Machine): Status
    requires pc < |code|
  {
    match code[pc]
    case Do(i) => (match Step(i, p, m) case None => Rejected case Some(m') => Running(pc + 1, m'))
    case JumpEq(k, jt, jf) => Running(if m.a == k then jt else jf, m)
    case JumpAlways(k) => if pc + 1 + k >= 0 then Running(pc + 1 + k, m) else Rejected
  }

  // At most `n` steps from `pc`; the program ends behind its last statement.
  function RunFor(code: seq<Stmt>, p: Packet, pc: nat, m: Machine, n: nat): Status
    decreases n
  {
    if pc == |code| then Done(m)
    else if pc > |code| then Rejected
    else if n == 0 then Running(pc, m)
    else match Advance(code, p, pc, m)
      case Running(pc', m') => RunFor(code, p, pc', m', n - 1)
      case other => other
  }

  // The statements from place `at` on step over an authentication header.
  ghost predicate IsAhArm(s: seq<Stmt>, at: nat, head: nat, reg: Reg)
    requires head + 9 < WORDS && at + 12 <= |s|
  {
    && s[at] == Do(Txa) && s[at + 1] == Do(LdInd(B, head)) && s[at + 2] == Do(St(reg)) && s[at + 3] == Do(Txa)
    && s[at + 4] == Do(AluK(Add, 1)) && s[at + 5] == Do(Tax) && s[at + 6] == Do(LdInd(B, head))
    && s[at + 7] == Do(AluK(Add, 2)) && s[at + 8] == Do(AluK(Mul, 4)) && s[at + 9] == Do(Tax)
    && s[at + 10] == Do(LdMem(reg)) && s[at + 11] == JumpAlways(3 - (at + 11) - 1)
  }

  // The program of the IPv6 arm.
  ghost predicate IsChain6(s: seq<Stmt>, v: Word, head: nat, reg: Reg)
    requires head + 9 < WORDS
  {
    && |s| == 32
    && s[1] == Do(LdAbs(B, head + 6)) && s[2] == Do(LdxImm(40))
    && s[3] == JumpEq(v, 31, 4) && s[4] == JumpEq(IPPROTO_NONE, 31, 5)
    && s[5] == JumpEq(IPPROTO_HOPOPTS, 9, 6) && s[6] == JumpEq(IPPROTO_DSTOPTS, 9, 7)
    && s[7] == JumpEq(IPPROTO_ROUTING, 9, 8) && s[8] == JumpEq(IPPROTO_FRAGMENT, 9, 18)
    && s[9] == Do(LdInd(B, head)) && s[10] == Do(St(reg)) && s[11] == Do(LdInd(B, head + 1))
    && s[12] == Do(AluK(Add, 1)) && s[13] == Do(AluK(Mul, 8)) && s[14] == Do(AluX(Add)) && s[15] == Do(Tax)
    && s[16] == Do(LdMem(reg)) && s[17] == JumpAlways(-15)
    && s[18] == JumpEq(IPPROTO_AH, 19, 31) && IsAhArm(s, 19, head, reg) && s[31] == Do(AluK(Add, 0))
  }

  // The program of the IPv4 arm.
  ghost predicate IsChain4(s: seq<Stmt>, v: Word, head: nat, reg: Reg)
    requires head + 9 < WORDS
  {
    && |s| == 20
    && s[1] == Do(LdAbs(B, head + 9)) && s[2] == Do(LdxMsh(head))
    && s[3] == JumpEq(v, 19, 4) && s[4] == JumpEq(IPPROTO_NONE, 19, 5)
    && s[5] == Do(AluK(Add, 0)) && s[6] == JumpEq(IPPROTO_AH, 7, 19) && IsAhArm(s, 7, head, reg)
    && s[19] == Do(AluK(Add, 0))
  }

  // The arm that steps over an authentication header.
  function AhArm(head: Word, reg: Reg, again: nat, i: nat): (r: seq<Stmt>)
    ensures |r| == 12
  {
    [Do(Txa), Do(LdInd(B, head)), Do(St(reg)), Do(Txa), Do(AluK(Add, 1)), Do(Tax), Do(LdInd(B, head)), Do(AluK(Add, 2)), Do(AluK(Mul, 4)), Do(Tax),
     Do(LdMem(reg)), JumpAlways(again as int - (i + 11) - 1)]
  }

  // Reads the next header and steps over the current one.
  function ExtensionArm(head: Word, reg: Reg, again: nat, i: nat): seq<Stmt>
    requires head + 1 < WORDS
  {
    [Do(LdInd(B, head)), Do(St(reg)), Do(LdInd(B, head + 1)), Do(AluK(Add, 1)), Do(AluK(Mul, 8)), Do(AluX(Add)), Do(Tax),
     Do(LdMem(reg)), JumpAlways(again as int - (i + 8) - 1)]
  }

  // The tests for the four extension headers, all of which go to the code behind them.
  method GenExtensions(before: seq<Stmt>, head: Word, reg: Reg, again: nat) returns (s: seq<Stmt>, fix3: nat)
    requires head + 1 < WORDS
    ensures fix3 == |before| + 3
    ensures var n := |before|;
      s == before + [JumpEq(IPPROTO_HOPOPTS, n + 4, n + 1), JumpEq(IPPROTO_DSTOPTS, n + 4, n + 2), JumpEq(IPPROTO_ROUTING, n + 4, n + 3),
        JumpEq(IPPROTO_FRAGMENT, n + 4, 0)] + ExtensionArm(head, reg, again, n + 4)
  {
    hide *;
    s := before;
    var v6start := |s|;
    s := s + [JumpEq(IPPROTO_HOPOPTS, 0, |s| + 1)];
    s := s + [JumpEq(IPPROTO_DSTOPTS, 0, |s| + 1)];
    s := s + [JumpEq(IPPROTO_ROUTING, 0, |s| + 1)];
    fix3 := |s|;
    var v6end := |s|;
    s := s + [JumpEq(IPPROTO_FRAGMENT, 0, 0)];
    var v6advance := |s|;
    s := s + ExtensionArm(head, reg, again, v6advance);
    ghost var was := s;
    for j := v6start to v6end + 1
      invariant |s| == |was| && forall k :: 0 <= k < |s| ==>
        s[k] == if v6start <= k < j then JumpEq(was[k].k, v6advance, was[k].jf) else was[k]
    {
      s := s[j := s[j].(jt := v6advance)];
    }
  }

  // What the check for an authentication header, the end, and closing the jumps at the places
  // `fix2`, `fix5` and, unless it is 0, `fix3` make of the statements `before`.
  ghost predicate Ended(before: seq<Stmt>, s: seq<Stmt>, head: Word, reg: Reg, again: nat, fix2: nat, fix3: nat,
      fix5: nat)
    requires fix2 < |before| && fix3 < |before| && fix5 < |before|
    requires before[fix2].JumpEq? && before[fix5].JumpEq? && (fix3 != 0 ==> before[fix3].JumpEq?)
  {
    var ahcheck, end := |before|, |before| + 13;
    && |s| == end + 1 && s[ahcheck] == JumpEq(IPPROTO_AH, ahcheck + 1, end) && s[end] == Do(AluK(Add, 0))
    && s[ahcheck + 1..end] == AhArm(head, reg, again, ahcheck + 1)
    && s[fix2] == JumpEq(before[fix2].k, end, before[fix2].jf) && s[fix5] == JumpEq(before[fix5].k, end, before[fix5].jf)
    && (fix3 != 0 ==> s[fix3] == JumpEq(before[fix3].k, before[fix3].jt, ahcheck))
    && forall i :: 0 <= i < |before| && i != fix2 && i != fix5 && (fix3 == 0 || i != fix3) ==> s[i] == before[i]
  }

  // The check for an authentication header, the end, and the jumps that were left open.
  method GenEnd(before: seq<Stmt>, head: Word, reg: Reg, again: nat, fix2: nat, fix3: nat,
      fix5: nat) returns (s: seq<Stmt>)
    requires 0 < fix5 < fix2 < |before| && fix3 < |before| && (fix3 != 0 ==> fix2 < fix3)
    requires before[fix2].JumpEq? && before[fix5].JumpEq? && (fix3 != 0 ==> before[fix3].JumpEq?)
    ensures Ended(before, s, head, reg, again, fix2, fix3, fix5)
  {
    hide AhArm;
    s := before;
    var ahcheck := |s|;
    if fix3 != 0 {
      s := s[fix3 := s[fix3].(jf := ahcheck)];
    }
    var fix4 := |s|;
    s := s + [JumpEq(IPPROTO_AH, |s| + 1, 0)];
    s := s + AhArm(head, reg, again, |s|);
    var end := |s|;
    s := s + [Do(AluK(Add, 0))];
    s := s[fix2 := s[fix2].(jt := end)];
    s := s[fix4 := s[fix4].(jf := end)];
    s := s[fix5 := s[fix5].(jt := end)];
  }

  lemma {:induction false} ArmIs(s: seq<Stmt>, at: nat, head: Word, reg: Reg)
    requires head + 9 < WORDS && at + 12 <= |s| && s[at..at + 12] == AhArm(head, reg, 3, at)
    ensures IsAhArm(s, at, head, reg)
  {
    var arm := s[at..at + 12];
    assert forall k :: 0 <= k < 12 ==> s[at + k] == arm[k];
  }

  // The statements up to the check for no next header.
  function Front(v: Word, v6: bool, head: Word): seq<Stmt>
    requires head + 9 < WORDS
  {
    [Do(LdImm(0))] + (if v6 then [Do(LdAbs(B, head + 6)), Do(LdxImm(40))] else [Do(LdAbs(B, head + 9)), Do(LdxMsh(head))]) +
      [JumpEq(v, 0, 4)] + [JumpEq(IPPROTO_NONE, 0, 5)]
  }

  lemma {:induction false} FrontIs(v: Word, v6: bool, head: Word)
    requires head + 9 < WORDS
    ensures var f := Front(v, v6, head); |f| == 5 && f[3] == JumpEq(v, 0, 4) && f[4] == JumpEq(IPPROTO_NONE, 0, 5)
    ensures var f := Front(v, v6, head);
      if v6 then f[1] == Do(LdAbs(B, head + 6)) && f[2] == Do(LdxImm(40)) else f[1] == Do(LdAbs(B, head + 9)) && f[2] == Do(LdxMsh(head))
  {}

  lemma {:induction false} Chain6Is(before: seq<Stmt>, s: seq<Stmt>, v: Word, head: Word, reg: Reg)
    requires head + 9 < WORDS
    requires before == Front(v, true, head) + [JumpEq(IPPROTO_HOPOPTS, 9, 6), JumpEq(IPPROTO_DSTOPTS, 9, 7),
      JumpEq(IPPROTO_ROUTING, 9, 8), JumpEq(IPPROTO_FRAGMENT, 9, 0)] + ExtensionArm(head, reg, 3, 9)
    requires |before| >= 9 && before[3].JumpEq? && before[4].JumpEq? && before[8].JumpEq?
    requires Ended(before, s, head, reg, 3, 4, 8, 3)
    ensures IsChain6(s, v, head, reg)
  {
    FrontIs(v, true, head);
    var arm := ExtensionArm(head, reg, 3, 9);
    assert arm[0] == Do(LdInd(B, head)) && arm[1] == Do(St(reg)) && arm[2] == Do(LdInd(B, head + 1));
    assert arm[3] == Do(AluK(Add, 1)) && arm[4] == Do(AluK(Mul, 8)) && arm[5] == Do(AluX(Add)) && arm[6] == Do(Tax);
    assert arm[7] == Do(LdMem(reg)) && arm[8] == JumpAlways(-15) && |arm| == 9;
    hide Front, IsAhArm, AhArm, ExtensionArm;
    assert before[5] == JumpEq(IPPROTO_HOPOPTS, 9, 6) && before[6] == JumpEq(IPPROTO_DSTOPTS, 9, 7);
    assert before[7] == JumpEq(IPPROTO_ROUTING, 9, 8) && before[8] == JumpEq(IPPROTO_FRAGMENT, 9, 0);
    assert |before| == 18 && before[9..] == arm;
    assert forall k :: 0 <= k < 9 ==> s[9 + k] == arm[k];
    ArmIs(s, 19, head, reg);
  }

  lemma {:induction false} Chain4Is(before: seq<Stmt>, s: seq<Stmt>, v: Word, head: Word, reg: Reg)
    requires head + 9 < WORDS && before == Front(v, false, head) + [Do(AluK(Add, 0))]
    requires |before| >= 5 && before[3].JumpEq? && before[4].JumpEq? && Ended(before, s, head, reg, 3, 4, 0, 3)
    ensures IsChain4(s, v, head, reg)
  {
    FrontIs(v, false, head);
    hide Front, IsAhArm, AhArm;
    ArmIs(s, 7, head, reg);
  }

  /** The program for either protocol, its jumps resolved. */
  method GenProtochain(v: Word, v6: bool, head: Word, reg: Reg) returns (s: seq<Stmt>)
    requires head + 9 < WORDS
    ensures if v6 then IsChain6(s, v, head, reg) else IsChain4(s, v, head, reg)
  {
    s := [Do(LdImm(0))];
    if v6 {
      s := s + [Do(LdAbs(B, head + 6)), Do(LdxImm(40))];
    } else {
      s := s + [Do(LdAbs(B, head + 9)), Do(LdxMsh(head))];
    }
    var again := |s|;
    var fix2, fix3, fix5 := |s| + 1, 0, |s|;
    s := s + [JumpEq(v, 0, fix2)];
    s := s + [JumpEq(IPPROTO_NONE, 0, fix2 + 1)];
    assert s == Front(v, v6, head);
    FrontIs(v, v6, head);
    hide *;
    if v6 {
      s, fix3 := GenExtensions(s, head, reg, again);
    } else {
      s := s + [Do(AluK(Add, 0))];
    }
    ghost var before := s;
    assert before[3] == JumpEq(v, 0, 4) && before[4] == JumpEq(IPPROTO_NONE, 0, 5);
    assert v6 ==> before[8] == JumpEq(IPPROTO_FRAGMENT, 9, 0);
    s := GenEnd(s, head, reg, again, fix2, fix3, fix5);
    if v6 { Chain6Is(before, s, v, head, reg); } else { Chain4Is(before, s, v, head, reg); }
  }
}
