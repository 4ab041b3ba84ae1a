/** Filters that test bytes at fixed places behind a link-layer header that starts at a
    constant offset: masked comparisons, byte strings of any length, and 802.11 addresses. */
module FieldTests {
  import opened Words
  import opened Bits
  import opened Bpf
  import opened Filter
  import opened Blocks

  // What a filter says of a packet: None when it rejects it outright.
  type Reply = Option<bool>

  function AndThen(a: Reply, b: Reply): Reply { if a == Some(true) then b else a }

  function OrElse(a: Reply, b: Reply): Reply { if a == Some(false) then b else a }

  function NotSo(a: Reply): Reply { match a case None => None case Some(v) => Some(!v) }

  ghost predicate Replies(e: Expr, p: Packet, m: Machine, a: Reply)
  {
    match Eval(e, p, m)
    case Rejected => a == None
    case Answer(v, _) => a == Some(v)
  }

  // Whatever the machine holds when `e` is reached, it replies `a` to the packet.
  ghost predicate Means(e: Expr, p: Packet, a: Reply)
  {
    forall m :: Replies(e, p, m, a)
  }

  lemma {:induction false} MeansAnd(l: Expr, r: Expr, p: Packet, a: Reply, b: Reply)
    requires Means(l, p, a) && Means(r, p, b)
    ensures Means(And(l, r), p, AndThen(a, b))
  {
    hide RunTest;
    forall m ensures Replies(And(l, r), p, m, AndThen(a, b)) {
      assert Replies(l, p, m, a);
      match Eval(l, p, m)
      case Rejected =>
      case Answer(v, m') => assert Replies(r, p, m', b);
    }
  }

  lemma {:induction false} MeansOr(l: Expr, r: Expr, p: Packet, a: Reply, b: Reply)
    requires Means(l, p, a) && Means(r, p, b)
    ensures Means(Or(l, r), p, OrElse(a, b))
  {
    hide RunTest;
    forall m ensures Replies(Or(l, r), p, m, OrElse(a, b)) {
      assert Replies(l, p, m, a);
      match Eval(l, p, m)
      case Rejected =>
      case Answer(v, m') => assert Replies(r, p, m', b);
    }
  }

  lemma {:induction false} MeansNot(e: Expr, p: Packet, a: Reply)
    requires Means(e, p, a)
    ensures Means(Not(e), p, NotSo(a))
  {
    hide RunTest;
    forall m ensures Replies(Not(e), p, m, NotSo(a)) {
      assert Replies(e, p, m, a);
    }
  }

  // ---- single comparisons ----

  const NO_MASK: Word := 0xffff_ffff

  function LoadStmts(hdr: Word, offset: Word, size: Size, mask: Word): seq<Instr>
  {
    [LdAbs(size, Wrap(hdr + offset))] + if mask != NO_MASK then [AluK(BitAnd, mask)] else []
  }

  function MaskedCompare(w: Word, mask: Word, jump: Jump, v: Word): bool
  {
    Compare(jump, if mask != NO_MASK then AndBits(w, mask) else w, v)
  }

  // The reply of one comparison of a masked field. Only the two order tests can be reversed:
  // for an equality or a bit test the request is ignored.
  function CompareReply(p: Packet, at: nat, size: Size, mask: Word, jump: Jump, reverse: bool, v: Word): Reply
  {
    match Load(p, size, at)
    case None => None
    case Some(w) => Some(MaskedCompare(w, mask, jump, v) != (reverse && jump in {Jgt, Jge}))
  }

  // The bits of `t` are those of `w` that are on in `mask`.
  ghost predicate Masked(t: Word, w: Word, mask: Word)
  {
    forall i: nat :: BitAt(t, i) <==> BitAt(w, i) && BitAt(mask, i)
  }

  lemma {:induction false} WordBit(w: Word, i: nat)
    ensures BitAt(w, i) ==> i < 32
  {
    WordBits();
    ModBit(w, 32, i);
  }

  lemma {:induction false} NoMaskAll(w: Word)
    ensures Masked(w, w, NO_MASK)
  {
    hide BitAt, Pow2;
    WordBits();
    forall i: nat ensures BitAt(w, i) <==> BitAt(w, i) && BitAt(NO_MASK, i) {
      WordBit(w, i);
      if i < 32 { AllOnes(32, i); }
    }
  }

  lemma {:induction false} ShutMasked(t: Word, w: Word, mask: Word)
    requires forall i: nat :: BitAt(t, i) <==> BitAt(w, i) && BitAt(mask, i)
    ensures Masked(t, w, mask)
  {}

  lemma {:induction false} AndMasked(w: Word, mask: Word)
    ensures Masked(AndBits(w, mask), w, mask)
  {
    hide *;
    forall i: nat ensures BitAt(AndBits(w, mask), i) <==> BitAt(w, i) && BitAt(mask, i) {
      AndBit(w, mask, i);
    }
    ShutMasked(AndBits(w, mask), w, mask);
  }

  /** What a comparison replies: nothing when the bytes are not all captured; otherwise `t`, the
      masked number of the bytes, is compared with the value, and only the order tests are reversed
      when that is asked for. */
  lemma {:induction false} ComparesNumber(p: Packet, at: nat, size: Size, mask: Word, reverse: bool,
      v: Word) returns (t: Word)
    ensures forall j :: CompareReply(p, at, size, mask, j, reverse, v).None? <==> at + Width(size) > |p.data|
    ensures at + Width(size) <= |p.data| ==>
      var w := Number(p.data[at..at + Width(size)]);
      && w < WORDS && Masked(t, w, mask)
      && CompareReply(p, at, size, mask, Jeq, reverse, v) == Some(t == v)
      && CompareReply(p, at, size, mask, Jgt, reverse, v) == Some(if reverse then t <= v else t > v)
      && CompareReply(p, at, size, mask, Jge, reverse, v) == Some(if reverse then t < v else t >= v)
      && CompareReply(p, at, size, mask, Jset, reverse, v) == Some(exists i: nat :: BitAt(t, i) && BitAt(v, i))
  {
    LoadReads(p, size, at);
    t := 0;
    if at + Width(size) <= |p.data| {
      var w := Load(p, size, at).value;
      t := if mask == NO_MASK then w else AndBits(w, mask);
      NoMaskAll(w);
      AndMasked(w, mask);
      Comparisons(t, v);
      hide Load, Number, Masked, Compare, BitAt;
    }
  }

  lemma {:induction false} CompareMeans(hdr: Word, offset: Word, size: Size, mask: Word, jump: Jump, v: Word, p: Packet)
    ensures Means(Leaf(Test(LoadStmts(hdr, offset, size, mask), CmpK(jump, v))), p,
                  CompareReply(p, Wrap(hdr + offset), size, mask, jump, false, v))
  {
    var code, a := LoadStmts(hdr, offset, size, mask), CompareReply(p, Wrap(hdr + offset), size, mask, jump, false, v);
    var e := Leaf(Test(code, CmpK(jump, v)));
    forall m ensures Replies(e, p, m, a) {
      LoadStmtsRun(hdr, offset, size, mask, p, m);
    }
  }

  lemma {:induction false} LoadStmtsRun(hdr: Word, offset: Word, size: Size, mask: Word, p: Packet, m: Machine)
    ensures Exec(LoadStmts(hdr, offset, size, mask), p, m) ==
      match Load(p, size, Wrap(hdr + offset))
      case None => None
      case Some(w) => Some(m.(a := if mask != NO_MASK then AndBits(w, mask) else w))
  {
    var code := LoadStmts(hdr, offset, size, mask);
    var rest := if mask != NO_MASK then [AluK(BitAnd, mask)] else [];
    assert code[0] == LdAbs(size, Wrap(hdr + offset)) && code[1..] == rest;
    match Step(code[0], p, m)
    case None =>
    case Some(m1) =>
      if mask != NO_MASK {
        assert rest[1..] == [];
        assert Exec(rest, p, m1) == Exec([], p, m1.(a := AndBits(m1.a, mask)));
      }
  }

  ghost predicate Compares(e: Expr, at: nat, size: Size, mask: Word, jump: Jump, reverse: bool, v: Word)
  {
    forall p :: Means(e, p, CompareReply(p, at, size, mask, jump, reverse, v))
  }

  lemma {:induction false} LoadCompares(hdr: Word, offset: Word, size: Size, mask: Word, jump: Jump, v: Word)
    ensures Compares(Leaf(Test(LoadStmts(hdr, offset, size, mask), CmpK(jump, v))), Wrap(hdr + offset), size, mask, jump, false, v)
    ensures jump !in {Jgt, Jge} ==>
      Compares(Leaf(Test(LoadStmts(hdr, offset, size, mask), CmpK(jump, v))), Wrap(hdr + offset), size, mask, jump, true, v)
  {
    var e, at := Leaf(Test(LoadStmts(hdr, offset, size, mask), CmpK(jump, v))), Wrap(hdr + offset);
    forall p
      ensures Means(e, p, CompareReply(p, at, size, mask, jump, false, v))
      ensures jump !in {Jgt, Jge} ==> Means(e, p, CompareReply(p, at, size, mask, jump, true, v))
    {
      CompareMeans(hdr, offset, size, mask, jump, v, p);
    }
  }

  lemma {:induction false} NotCompares(e: Expr, at: nat, size: Size, mask: Word, jump: Jump, v: Word)
    requires Compares(e, at, size, mask, jump, false, v)
    ensures jump in {Jgt, Jge} ==> Compares(Not(e), at, size, mask, jump, true, v)
  {
    forall p ensures jump in {Jgt, Jge} ==> Means(Not(e), p, CompareReply(p, at, size, mask, jump, true, v)) {
      MeansNot(e, p, CompareReply(p, at, size, mask, jump, false, v));
    }
  }

  method GenNcmp(hdr: Word, offset: Word, size: Size, mask: Word, jump: Jump, reverse: bool, v: Word) returns (b: Block)
    ensures b.Valid() && fresh(b) && b.blocks == [b]
    ensures Compares(b.expr, Wrap(hdr + offset), size, mask, jump, reverse, v)
  {
    b := new Block(Branch(Test(LoadStmts(hdr, offset, size, mask), CmpK(jump, v))));
    ghost var e := b.expr;
    LoadCompares(hdr, offset, size, mask, jump, v);
    NotCompares(e, Wrap(hdr + offset), size, mask, jump, v);
    hide *;
    if reverse && (jump == Jgt || jump == Jge) {
      GenNot(b);
    }
  }

  // ---- byte strings ----

  // Whether the bytes at `at` are `v`; a field that is not all captured rejects the packet.
  function FieldIs(p: Packet, at: nat, v: seq<Byte>): Reply
  {
    if at + |v| > |p.data| then None else Some(p.data[at..at + |v|] == v)
  }

  ghost predicate TestsField(e: Expr, at: nat, v: seq<Byte>)
  {
    forall p :: Means(e, p, FieldIs(p, at, v))
  }

  // The big-endian value of one, two or four bytes.
  function BigEndian(v: seq<Byte>): Word
    requires |v| in {1, 2, 4}
  {
    if |v| == 1 then v[0]
    else if |v| == 2 then v[0] as int * 0x100 + v[1]
    else v[0] as int * 0x100_0000 + v[1] as int * 0x1_0000 + v[2] as int * 0x100 + v[3]
  }

  lemma {:induction false} TwoDigits(base: nat, a: nat, b: nat, c: nat, d: nat)
    requires base in {0x100, 0x1_0000} && b < base && d < base
    ensures a * base + b == c * base + d <==> a == c && b == d
  {}

  lemma {:induction false} BigEndianInjective(u: seq<Byte>, v: seq<Byte>)
    requires |u| == |v| && |v| in {1, 2, 4}
    ensures BigEndian(u) == BigEndian(v) <==> u == v
  {
    if |v| == 2 {
      TwoDigits(0x100, u[0], u[1], v[0], v[1]);
    } else if |v| == 4 {
      TwoDigits(0x1_0000, u[0] as int * 0x100 + u[1], u[2] as int * 0x100 + u[3], v[0] as int * 0x100 + v[1],
        v[2] as int * 0x100 + v[3]);
      TwoDigits(0x100, u[0], u[1], v[0], v[1]);
      TwoDigits(0x100, u[2], u[3], v[2], v[3]);
    }
    assert u == v <==> forall i :: 0 <= i < |u| ==> u[i] == v[i];
  }

  lemma {:induction false} ChunkReply(p: Packet, at: nat, size: Size, v: seq<Byte>)
    requires |v| == size.Bytes()
    ensures CompareReply(p, at, size, NO_MASK, Jeq, false, BigEndian(v)) == FieldIs(p, at, v)
  {
    if at + |v| <= |p.data| {
      var u := p.data[at..at + |v|];
      BigEndianInjective(u, v);
      assert Load(p, size, at) == Some(BigEndian(u));
    }
  }

  /** In a packet with `u` between two parts of any length, the string at the end of the first is
      `u`; a string that reaches past the end is not there. */
  lemma {:induction false} FieldBetween(p: Packet, front: seq<Byte>, u: seq<Byte>, back: seq<Byte>, v: seq<Byte>)
    requires p.data == front + u + back
    ensures |u| == |v| ==> FieldIs(p, |front|, v) == Some(u == v)
    ensures |p.data| < |front| + |v| ==> FieldIs(p, |front|, v) == None
  {
    if |u| == |v| { assert p.data[|front|..|front| + |v|] == u; }
  }

  lemma {:induction false} FieldJoin(p: Packet, at: nat, u: seq<Byte>, v: seq<Byte>)
    ensures FieldIs(p, at, u + v) == AndThen(FieldIs(p, at + |u|, v), FieldIs(p, at, u))
  {
    var n := |u| + |v|;
    if at + n <= |p.data| {
      SliceJoin(p.data, at, u, v);
    }
  }

  lemma {:induction false} SliceJoin(d: seq<Byte>, at: nat, u: seq<Byte>, v: seq<Byte>)
    requires at + |u| + |v| <= |d|
    ensures d[at..at + |u + v|] == u + v <==> d[at..at + |u|] == u && d[at + |u|..at + |u| + |v|] == v
  {
    var s, t, w := d[at..at + |u|], d[at + |u|..at + |u| + |v|], d[at..at + |u + v|];
    assert w == s + t;
    assert w[..|u|] == s && w[|u|..] == t;
    if w == u + v {
      assert (u + v)[..|u|] == u && (u + v)[|u|..] == v;
    }
  }

  lemma {:induction false} TestsJoined(later: Expr, chunk: Expr, at: nat, u: seq<Byte>, v: seq<Byte>)
    requires TestsField(chunk, at, u) && TestsField(later, at + |u|, v)
    ensures TestsField(And(later, chunk), at, u + v)
  {
    forall p ensures Means(And(later, chunk), p, FieldIs(p, at, u + v)) {
      assert Means(later, p, FieldIs(p, at + |u|, v));
      MeansAnd(later, chunk, p, FieldIs(p, at + |u|, v), FieldIs(p, at, u));
      FieldJoin(p, at, u, v);
    }
  }

  // One step of the comparison: test `size` bytes that come before those `b` tests.
  method AddChunk(b: Block?, hdr: Word, offset: Word, size: Size, u: seq<Byte>, ghost v: seq<Byte>) returns (tmp: Block)
    requires |u| == size.Bytes() && hdr + offset < WORDS
    requires b == null ==> v == []
    requires b != null ==> b.Valid() && TestsField(b.expr, hdr + offset + |u|, v)
    modifies if b != null then b.blocks else []
    ensures tmp.Valid() && fresh(tmp) && tmp.blocks == old(if b != null then b.blocks else []) + [tmp]
    ensures TestsField(tmp.expr, hdr + offset, u + v)
  {
    tmp := GenNcmp(hdr, offset, size, NO_MASK, Jeq, false, BigEndian(u));
    ChunkTests(tmp.expr, hdr + offset, size, u);
    ghost var e := tmp.expr;
    hide *;
    if b != null {
      TestsJoined(b.expr, e, hdr + offset, u, v);
      GenAnd(b, tmp);
    } else {
      assert u + v == u;
    }
  }

  lemma {:induction false} ChunkTests(e: Expr, at: Word, size: Size, u: seq<Byte>)
    requires |u| == size.Bytes() && Compares(e, at, size, NO_MASK, Jeq, false, BigEndian(u))
    ensures TestsField(e, at, u)
  {
    forall p ensures Means(e, p, FieldIs(p, at, u)) {
      ChunkReply(p, at, size, u);
    }
  }

  lemma {:induction false} SizeBytes()
    ensures WORDS == 0x1_0000_0000 && B.Bytes() == 1 && H.Bytes() == 2 && W.Bytes() == 4
  {}

  // The filter tests the bytes from place `at` on, and there is none when no bytes are left.
  ghost predicate TestsTail(b: Block?, hdr: Word, offset: Word, v: seq<Byte>, at: nat)
    reads if b == null then {} else {b}, if b == null then [] else b.blocks
  {
    && at <= |v| && (b == null <==> at == |v|)
    && (b != null ==> b.Valid() && TestsField(b.expr, hdr + offset + at, v[at..]))
  }

  lemma {:induction false} NoTail(hdr: Word, offset: Word, v: seq<Byte>)
    ensures TestsTail(null, hdr, offset, v, |v|)
  {}

  lemma {:induction false} WholeTail(b: Block?, hdr: Word, offset: Word, v: seq<Byte>)
    requires TestsTail(b, hdr, offset, v, 0)
    ensures b == null <==> v == []
    ensures b != null ==> b.Valid() && TestsField(b.expr, hdr + offset, v)
  {
    assert v[0..] == v;
  }

  lemma {:induction false} OpenTail(b: Block?, hdr: Word, offset: Word, v: seq<Byte>, at: nat)
    requires TestsTail(b, hdr, offset, v, at)
    ensures at <= |v| && (b == null ==> v[at..] == [])
    ensures b != null ==> b.Valid() && TestsField(b.expr, hdr + offset + at, v[at..])
  {}

  lemma {:induction false} ShutTail(b: Block, hdr: Word, offset: Word, v: seq<Byte>, at: nat, n: nat)
    requires 0 < n <= at <= |v| && b.Valid() && TestsField(b.expr, hdr + (offset + (at - n)), v[at - n..at] + v[at..])
    ensures TestsTail(b, hdr, offset, v, at - n)
  {
    assert v[at - n..at] + v[at..] == v[at - n..];
    assert hdr + offset + (at - n) == hdr + (offset + (at - n));
  }

  // Test `size` bytes more.
  method Extend(b: Block?, hdr: Word, offset: Word, size: Size, v: seq<Byte>, at: nat) returns (tmp: Block)
    requires hdr + offset + |v| <= WORDS && size.Bytes() <= at && TestsTail(b, hdr, offset, v, at)
    modifies if b != null then b.blocks else []
    ensures TestsTail(tmp, hdr, offset, v, at - size.Bytes())
    ensures fresh(tmp) && tmp.blocks == old(if b != null then b.blocks else []) + [tmp]
  {
    hide *;
    SizeBytes();
    OpenTail(b, hdr, offset, v, at);
    var n := size.Bytes();
    SizeIs(size);
    var u := v[at - n..at];
    ghost var rest := v[at..];
    tmp := AddChunk(b, hdr, offset + (at - n), size, u, rest);
    ShutTail(tmp, hdr, offset, v, at, n);
  }

  lemma {:induction false} SizeIs(size: Size)
    ensures size.Bytes() > 0
  {}

  /** Compare a byte string in words, then halves, then a byte, from its end: the filter
      holds exactly of the packets whose captured bytes at that place are the string. */
  method GenBcmp(hdr: Word, offset: Word, v: seq<Byte>) returns (b: Block?)
    requires hdr + offset + |v| <= WORDS
    ensures b == null <==> v == []
    ensures b != null ==> b.Valid() && fresh(b.blocks) && TestsField(b.expr, hdr + offset, v)
  {
    hide *;
    b := null;
    var size := |v|;
    NoTail(hdr, offset, v);
    SizeBytes();
    while size >= 4
      invariant size >= 0 && TestsTail(b, hdr, offset, v, size) && (b != null ==> fresh(b.blocks))
    {
      b := Extend(b, hdr, offset, W, v, size);
      size := size - 4;
    }
    while size >= 2
      invariant size >= 0 && TestsTail(b, hdr, offset, v, size) && (b != null ==> fresh(b.blocks))
    {
      b := Extend(b, hdr, offset, H, v, size);
      size := size - 2;
    }
    if size > 0 {
      b := Extend(b, hdr, offset, B, v, size);
    }
    WholeTail(b, hdr, offset, v);
  }
}
