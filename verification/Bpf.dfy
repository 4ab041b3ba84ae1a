/** The packet-filter machine that generated code runs on, over one captured packet. */
module Bpf {
  import opened Words
  import opened Bits

  type Reg = r: int | 0 <= r < 16
  type Memory = m: seq<Word> | |m| == 16 witness [0, 0, 0, 0, 0, 0, 0, 0, 0, 0, 0, 0, 0, 0, 0, 0]

  // `data` holds the captured bytes, `wireLen` the length the packet had on the wire.
  datatype Packet = Packet(data: seq<Byte>, wireLen: Word)

  // Accumulator A, index X and sixteen scratch words, all unsigned and 32 bits wide. A load outside
  // the captured bytes, or a division by zero, ends the run and rejects the packet.
  datatype Machine = Machine(a: Word, x: Word, mem: Memory)

  datatype Size = B | H | W {
    function Bytes(): nat {
      match this case B => 1 case H => 2 case W => 4
    }
  }

  datatype AluOp = Add | Sub | Mul | Div | Mod | BitAnd | BitOr | BitXor | Lsh | Rsh

  datatype Instr =
    | LdImm(k: Word) | LdLen | LdMem(r: Reg) | LdAbs(size: Size, off: Word) | LdInd(size: Size, off: Word)
    | LdxImm(k: Word) | LdxMem(r: Reg) | LdxMsh(off: Word) | Tax | Txa
    | St(r: Reg) | AluX(op: AluOp) | AluK(op: AluOp, k: Word) | Neg

  datatype Jump = Jeq | Jgt | Jge | Jset
  datatype Cond = CmpK(jump: Jump, k: Word) | CmpX(jump: Jump)

  function WordOr(a: Word, b: Word): Word
  {
    WordBits();
    OrBelow(a, b, 32);
    OrBits(a, b)
  }

  function WordXor(a: Word, b: Word): Word
  {
    WordBits();
    OrBelow(a, b, 32);
    XorBits(a, b)
  }

  // C leaves shifts by 32 or more undefined; here they shift every bit out.
  function Alu(op: AluOp, a: Word, x: Word): Option<Word>
  {
    match op
    case Add => Some(Wrap(a + x))
    case Sub => Some(Wrap(a - x))
    case Mul => Some(Wrap(a * x))
    case Div => if x == 0 then None else Some(Quotient(a, x))
    case Mod => if x == 0 then None else Some(a % x)
    case BitAnd => Some(AndBits(a, x))
    case BitOr => Some(WordOr(a, x))
    case BitXor => Some(WordXor(a, x))
    case Lsh => Some(Wrap(a * Pow2(x)))
    case Rsh => Some(Quotient(a, Pow2(x)))
  }

  // `r` is `n` up to multiples of 2^32.
  predicate Congruent(r: Word, n: int) { (n - r) % 0x1_0000_0000 == 0 }

  /** What the operations on numbers compute: sums, differences and products up to multiples of
      2^32, quotient and remainder, none of which there is for a divisor of 0. */
  lemma {:induction false} AluNumbers(a: Word, x: Word)
    ensures Alu(Add, a, x).Some? && Congruent(Alu(Add, a, x).value, a + x)
    ensures Alu(Sub, a, x).Some? && Congruent(Alu(Sub, a, x).value, a - x)
    ensures Alu(Mul, a, x).Some? && Congruent(Alu(Mul, a, x).value, a * x)
    ensures (Alu(Div, a, x).None? <==> x == 0) && (Alu(Mod, a, x).None? <==> x == 0)
    ensures x > 0 ==>
      var q, r := Alu(Div, a, x).value, Alu(Mod, a, x).value;
      a == q * x + r && r < x
  {
    WrapCongruent(a + x);
    WrapCongruent(a - x);
    WrapCongruent(a * x);
    hide Congruent, Wrap;
    if x > 0 { assert a == a / x * x + a % x; }
  }

  lemma {:induction false} WrapCongruent(n: int)
    ensures Congruent(Wrap(n), n)
  {}

  /** What the operations on bits do to each bit. */
  lemma {:induction false} AluBits(a: Word, x: Word, i: nat)
    ensures Alu(BitAnd, a, x).Some? && (BitAt(Alu(BitAnd, a, x).value, i) <==> BitAt(a, i) && BitAt(x, i))
    ensures Alu(BitOr, a, x).Some? && (BitAt(Alu(BitOr, a, x).value, i) <==> BitAt(a, i) || BitAt(x, i))
    ensures Alu(BitXor, a, x).Some? && (BitAt(Alu(BitXor, a, x).value, i) <==> BitAt(a, i) != BitAt(x, i))
    ensures Alu(Lsh, a, x).Some? && (BitAt(Alu(Lsh, a, x).value, i) <==> x <= i < 32 && BitAt(a, i - x))
    ensures Alu(Rsh, a, x).Some? && (BitAt(Alu(Rsh, a, x).value, i) <==> BitAt(a, i + x))
  {
    hide BitAt, AndBits, OrBits, XorBits, Pow2;
    AndBit(a, x, i);
    OrBit(a, x, i);
    XorBit(a, x, i);
    RightBit(a, x, i);
    LeftBit(a, x, i);
    ModBit(a * Pow2(x), 32, i);
    WordBits();
  }

  // Big-endian load of one, two or four captured bytes.
  function Load(p: Packet, size: Size, at: nat): Option<Word>
  {
    if at + size.Bytes() > |p.data| then None
    else match size
      case B => Some(p.data[at])
      case H => Some(p.data[at] as int * 0x100 + p.data[at + 1])
      case W => Some(p.data[at] as int * 0x100_0000 + p.data[at + 1] as int * 0x1_0000 + p.data[at + 2] as int * 0x100 + p.data[at + 3])
  }

  // The length of the IPv4 header at `off`: four times the low half of its first byte.
  function HeaderLen(p: Packet, off: nat): Option<Word>
  {
    if off < |p.data| then Some(4 * (p.data[off] % 16)) else None
  }

  function LoadA(m: Machine, v: Option<Word>): Option<Machine>
  {
    match v case None => None case Some(w) => Some(m.(a := w))
  }

  function Step(i: Instr, p: Packet, m: Machine): Option<Machine>
  {
    match i
    case LdImm(k) => Some(m.(a := k))
    case LdLen => Some(m.(a := p.wireLen))
    case LdMem(r) => Some(m.(a := m.mem[r]))
    case LdAbs(size, off) => LoadA(m, Load(p, size, off))
    case LdInd(size, off) => LoadA(m, Load(p, size, m.x + off))
    case LdxImm(k) => Some(m.(x := k))
    case LdxMem(r) => Some(m.(x := m.mem[r]))
    case LdxMsh(off) => (match HeaderLen(p, off) case None => None case Some(n) => Some(m.(x := n)))
    case Tax => Some(m.(x := m.a))
    case Txa => Some(m.(a := m.x))
    case St(r) => Some(m.(mem := m.mem[r := m.a]))
    case AluX(op) => LoadA(m, Alu(op, m.a, m.x))
    case AluK(op, k) => LoadA(m, Alu(op, m.a, k))
    case Neg => Some(m.(a := Wrap(0 - m.a as int)))
  }

  // A statement list; None when it rejects the packet.
  function Exec(code: seq<Instr>, p: Packet, m: Machine): Option<Machine>
  {
    if code == [] then Some(m)
    else match Step(code[0], p, m)
      case None => None
      case Some(m') => Exec(code[1..], p, m')
  }

  lemma {:induction false} ExecConcat(c: seq<Instr>, d: seq<Instr>, p: Packet, m: Machine)
    ensures Exec(c + d, p, m) == match Exec(c, p, m) case None => None case Some(m') => Exec(d, p, m')
  {
    if c == [] {
      assert c + d == d;
    } else {
      assert (c + d)[1..] == c[1..] + d;
      match Step(c[0], p, m)
      case None =>
      case Some(m') => ExecConcat(c[1..], d, p, m');
    }
  }

  predicate Compare(j: Jump, a: Word, b: Word)
  {
    match j
    case Jeq => a == b
    case Jgt => a > b
    case Jge => a >= b
    case Jset => AndBits(a, b) != 0
  }

  predicate Holds(c: Cond, m: Machine)
  {
    match c
    case CmpK(j, k) => Compare(j, m.a, k)
    case CmpX(j) => Compare(j, m.a, m.x)
  }

  /** What the comparisons mean: the order of the numbers, or a bit that is on in both. */
  lemma {:induction false} Comparisons(a: Word, b: Word)
    ensures (Compare(Jeq, a, b) <==> a == b) && (Compare(Jgt, a, b) <==> a > b) && (Compare(Jge, a, b) <==> !(a < b))
    ensures Compare(Jset, a, b) <==> exists i: nat :: BitAt(a, i) && BitAt(b, i)
  {
    hide AndBits, BitAt;
    if AndBits(a, b) != 0 {
      var i := SomeBit(AndBits(a, b));
      AndBit(a, b, i);
    }
    if i: nat :| BitAt(a, i) && BitAt(b, i) {
      AndBit(a, b, i);
      NoBit(i);
    }
  }

  // The number that bytes make, the first of them the highest.
  function Number(bytes: seq<Byte>): nat
  {
    if bytes == [] then 0 else 256 * Number(bytes[..|bytes| - 1]) + bytes[|bytes| - 1]
  }

  // `v` is the number of the `n` bytes of `d` at `at`, and nothing when they are not all there.
  ghost predicate IsRead(v: Option<Word>, d: seq<Byte>, at: nat, n: nat)
  {
    if at + n <= |d| then v.Some? && v.value == Number(d[at..at + n]) else v == None
  }

  function Width(size: Size): nat { match size case B => 1 case H => 2 case W => 4 }

  lemma {:induction false} FourBytes(a: Byte, b: Byte, c: Byte, d: Byte)
    ensures Number([a]) == a && Number([a, b]) == 256 * a + b
    ensures Number([a, b, c, d]) == 256 * (256 * (256 * a + b) + c) + d
  {
    assert [a, b, c, d][..3] == [a, b, c] && [a, b, c][..2] == [a, b] && [a, b][..1] == [a] && [a][..0] == [];
    assert Number([a, b, c]) == 256 * Number([a, b]) + c;
  }

  /** A load reads the number of one, two or four bytes. */
  lemma {:induction false} LoadReads(p: Packet, size: Size, at: nat)
    ensures IsRead(Load(p, size, at), p.data, at, Width(size))
  {
    var d, n := p.data, Width(size);
    if at + n <= |d| {
      var s := d[at..at + n];
      match size
      case B =>
        assert s == [d[at]];
        FourBytes(d[at], 0, 0, 0);
      case H =>
        assert s == [d[at], d[at + 1]];
        FourBytes(d[at], d[at + 1], 0, 0);
      case W =>
        assert s == [d[at], d[at + 1], d[at + 2], d[at + 3]];
        FourBytes(d[at], d[at + 1], d[at + 2], d[at + 3]);
    }
  }
}
