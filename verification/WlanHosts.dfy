/** The filter for an 802.11 host address. Where the addresses are depends on the frame type and on the
    To DS and From DS bits, as table 8-19 in section 8.3.2.1 of IEEE Std 802.11-2012 lays down. */
module WlanHosts {
  import opened Words
  import opened Bits
  import opened Bpf
  import opened Filter
  import opened Blocks
  import opened FieldTests

  const TO_DS: Word := 0x01
  const FROM_DS: Word := 0x02
  const TYPE_LOW: Word := 0x04   // set in control frames and reserved types
  const TYPE_DATA: Word := 0x08  // set in data frames, clear in management frames

  const FC0_TYPE_MASK: Word := 0x0c
  const FC0_TYPE_MGT: Word := 0x00
  const FC0_TYPE_CTL: Word := 0x04
  const FC0_SUBTYPE_MASK: Word := 0xf0
  const FC0_SUBTYPE_CTS: Word := 0xc0
  const FC0_SUBTYPE_ACK: Word := 0xd0
  const FC1_DIR_MASK: Word := 0x03
  const FC1_DIR_DSTODS: Word := 0x03

  // By direction, or by one of the address fields.
  datatype Dir = Src | Dst | SrcAndDst | SrcOrDst | Ra | Ta | Addr1 | Addr2 | Addr3 | Addr4

  predicate Bit(b: Byte, k: Word) { AndBits(b, k) != 0 }

  // Whether the bits `k` of the byte at `at` are on, or off, as asked.
  function BitReply(p: Packet, at: nat, k: Word, on: bool): Reply
  {
    if at >= |p.data| then None else Some(Bit(p.data[at], k) == on)
  }

  predicate Masked(b: Byte, mask: Word, v: Word) { AndBits(b, mask) == v }

  // Whether the masked byte at `at` is, or is not, `v`, as asked.
  function MaskReply(p: Packet, at: nat, mask: Word, v: Word, on: bool): Reply
  {
    if at >= |p.data| then None else Some(Masked(p.data[at], mask, v) == on)
  }

  // All frames but CTS and ACK control frames have a second address.
  predicate HasAddr2(fc0: Byte)
  {
    Masked(fc0, FC0_TYPE_MASK, FC0_TYPE_CTL) ==>
      !Masked(fc0, FC0_SUBTYPE_MASK, FC0_SUBTYPE_CTS) && !Masked(fc0, FC0_SUBTYPE_MASK, FC0_SUBTYPE_ACK)
  }

  function Addr2Reply(p: Packet, hdr: nat): Reply
  {
    if hdr >= |p.data| then None else Some(HasAddr2(p.data[hdr]))
  }

  // Whether the frame is taken to have the address field.
  function Presence(p: Packet, hdr: nat, dir: Dir): Reply
  {
    match dir
    case Ra => BitReply(p, hdr, TYPE_DATA, true)
    case Ta => AndThen(BitReply(p, hdr, TYPE_DATA, true), Addr2Reply(p, hdr))
    case Addr2 => Addr2Reply(p, hdr)
    case Addr3 => MaskReply(p, hdr, FC0_TYPE_MASK, FC0_TYPE_CTL, false)
    case Addr4 => MaskReply(p, hdr + 1, FC1_DIR_MASK, FC1_DIR_DSTODS, true)
    case _ => Some(true)
  }

  function Place(dir: Dir): Word
  {
    match dir case Ta => 10 case Addr2 => 10 case Addr3 => 16 case Addr4 => 24 case _ => 4
  }

  // Where the standard puts the address of a data frame, by its second frame-control byte.
  function DataAddress(fc1: Byte, src: bool): nat
  {
    if src then (if !Bit(fc1, FROM_DS) then 10 else if !Bit(fc1, TO_DS) then 16 else 24)
    else if Bit(fc1, TO_DS) then 16 else 4
  }

  function DataReply(p: Packet, hdr: nat, eaddr: seq<Byte>, src: bool): Reply
  {
    if hdr + 1 >= |p.data| then None else FieldIs(p, hdr + DataAddress(p.data[hdr + 1], src), eaddr)
  }

  /** What the standard says of a frame whose header starts at `hdr`: control frames and
      reserved types have no such address, management frames have it at a fixed place, data
      frames where their DS bits say. A frame that is not captured that far is rejected. */
  function HostReply(p: Packet, hdr: nat, eaddr: seq<Byte>, src: bool): Reply
  {
    if hdr >= |p.data| then None
    else if Bit(p.data[hdr], TYPE_LOW) then Some(false)
    else if !Bit(p.data[hdr], TYPE_DATA) then FieldIs(p, hdr + (if src then 10 else 4), eaddr)
    else DataReply(p, hdr, eaddr, src)
  }

  function DirReply(p: Packet, hdr: nat, eaddr: seq<Byte>, dir: Dir): Reply
  {
    match dir
    case Src => HostReply(p, hdr, eaddr, true)
    case Dst => HostReply(p, hdr, eaddr, false)
    case SrcAndDst => AndThen(HostReply(p, hdr, eaddr, true), HostReply(p, hdr, eaddr, false))
    case SrcOrDst => OrElse(HostReply(p, hdr, eaddr, true), HostReply(p, hdr, eaddr, false))
    case _ => AndThen(Presence(p, hdr, dir), FieldIs(p, hdr + Place(dir), eaddr))
  }

  ghost predicate TestsBit(e: Expr, at: nat, k: Word, on: bool)
  {
    forall p :: Means(e, p, BitReply(p, at, k, on))
  }

  lemma {:induction false} ComparesBit(e: Expr, at: nat, k: Word)
    requires Compares(e, at, B, NO_MASK, Jset, false, k)
    ensures TestsBit(e, at, k, true) && TestsBit(Not(e), at, k, false)
  {
    forall p ensures Means(e, p, BitReply(p, at, k, true)) && Means(Not(e), p, BitReply(p, at, k, false)) {
      var a := CompareReply(p, at, B, NO_MASK, Jset, false, k);
      assert a == BitReply(p, at, k, true) && NotSo(a) == BitReply(p, at, k, false);
      assert Means(e, p, a);
      MeansNot(e, p, a);
    }
  }

  // Load the byte, test the bits, and negate the test when they are to be off.
  method GenBit(hdr: Word, offset: Word, k: Word, on: bool) returns (b: Block)
    requires hdr + offset < WORDS
    ensures b.Valid() && fresh(b) && b.blocks == [b] && TestsBit(b.expr, hdr + offset, k, on)
  {
    b := GenNcmp(hdr, offset, B, NO_MASK, Jset, false, k);
    ComparesBit(b.expr, hdr + offset, k);
    hide *;
    if !on { GenNot(b); }
  }

  // Guard `b0` with a test of bits.
  method GenGuard(hdr: Word, offset: Word, k: Word, on: bool, b0: Block) returns (ghost bit: Expr)
    requires hdr + offset < WORDS && b0.Valid()
    modifies b0.blocks
    ensures b0.Valid() && |b0.blocks| > 0 && fresh(b0.blocks[0]) && b0.blocks == [b0.blocks[0]] + old(b0.blocks)
    ensures TestsBit(bit, hdr + offset, k, on) && b0.expr == And(bit, old(b0.expr))
  {
    var b1 := GenBit(hdr, offset, k, on);
    assert Apart(b1, b0);
    hide *;
    bit := b1.expr;
    GenAnd(b1, b0);
  }

  // Add to `b0` the case where bits are off, with the address at `place` in that case.
  method GenCase(hdr: Word, offset: Word, k: Word, place: Word, eaddr: seq<Byte>, b0: Block)
    returns (ghost bit: Expr, ghost field: Expr)
    requires hdr + offset < WORDS && hdr + place + |eaddr| <= WORDS && eaddr != [] && b0.Valid()
    modifies b0.blocks
    ensures b0.Valid() && |b0.blocks| > |old(b0.blocks)|
    ensures var n := |b0.blocks| - |old(b0.blocks)|; fresh(b0.blocks[..n]) && b0.blocks == b0.blocks[..n] + old(b0.blocks)
    ensures TestsBit(bit, hdr + offset, k, false) && TestsField(field, hdr + place, eaddr)
    ensures b0.expr == Or(And(bit, field), old(b0.expr))
  {
    var b1 := GenBcmp(hdr, place, eaddr);
    field := b1.expr;
    bit := GenGuard(hdr, offset, k, false, b1);
    assert fresh(b1.blocks);
    assert Apart(b1, b0);
    hide *;
    GenOr(b1, b0);
  }

  lemma {:induction false} MeansCase(bit: Expr, field: Expr, bit1: Expr, e: Expr, p: Packet, at: nat, k: Word,
      fieldAt: nat, eaddr: seq<Byte>, a: Reply)
    requires TestsBit(bit, at, k, false) && TestsField(field, fieldAt, eaddr)
    requires TestsBit(bit1, at, k, true) && Means(e, p, a)
    ensures Means(Or(And(bit, field), And(bit1, e)), p,
      if at >= |p.data| then None else if Bit(p.data[at], k) then a else FieldIs(p, fieldAt, eaddr))
  {
    var off, f, on := BitReply(p, at, k, false), FieldIs(p, fieldAt, eaddr), BitReply(p, at, k, true);
    assert Means(bit, p, off) && Means(field, p, f) && Means(bit1, p, on);
    hide Means;
    MeansAnd(bit, field, p, off, f);
    MeansAnd(bit1, e, p, on, a);
    MeansOr(And(bit, field), And(bit1, e), p, AndThen(off, f), AndThen(on, a));
  }

  // The filter replies to a data frame as the standard says.
  ghost predicate IsDataFilter(e: Expr, hdr: nat, eaddr: seq<Byte>, src: bool)
  {
    forall p :: Means(e, p, DataReply(p, hdr, eaddr, src))
  }

  // The filter replies to every frame as the standard says.
  ghost predicate IsHostFilter(e: Expr, hdr: nat, eaddr: seq<Byte>, dir: Dir)
  {
    forall p :: Means(e, p, DirReply(p, hdr, eaddr, dir))
  }

  lemma {:induction false} AllFrames(ctl: Expr, nmgt: Expr, mgtAddr: Expr, data: Expr, e: Expr, hdr: nat,
      eaddr: seq<Byte>, src: bool)
    requires TestsBit(ctl, hdr, TYPE_LOW, false) && TestsBit(nmgt, hdr, TYPE_DATA, false)
    requires TestsBit(data, hdr, TYPE_DATA, true)
    requires TestsField(mgtAddr, hdr + if src then 10 else 4, eaddr) && IsDataFilter(e, hdr, eaddr, src)
    ensures IsHostFilter(And(ctl, Or(And(nmgt, mgtAddr), And(data, e))), hdr, eaddr, if src then Src else Dst)
  {
    var place, dir := hdr + (if src then 10 else 4), if src then Src else Dst;
    forall p ensures Means(And(ctl, Or(And(nmgt, mgtAddr), And(data, e))), p, DirReply(p, hdr, eaddr, dir)) {
      var a := DataReply(p, hdr, eaddr, src);
      MeansCase(nmgt, mgtAddr, data, e, p, hdr, TYPE_DATA, place, eaddr, a);
      var r := if hdr >= |p.data| then None else if Bit(p.data[hdr], TYPE_DATA) then a else FieldIs(p, place, eaddr);
      MeansAnd(ctl, Or(And(nmgt, mgtAddr), And(data, e)), p, BitReply(p, hdr, TYPE_LOW, false), r);
    }
  }

  lemma {:induction false} SrcData(to: Expr, at24: Expr, nto: Expr, at16: Expr, from: Expr, nfrom: Expr, at10: Expr,
      hdr: nat, eaddr: seq<Byte>)
    requires TestsBit(to, hdr + 1, TO_DS, true) && TestsField(at24, hdr + 24, eaddr)
    requires TestsBit(nto, hdr + 1, TO_DS, false) && TestsField(at16, hdr + 16, eaddr)
    requires TestsBit(from, hdr + 1, FROM_DS, true)
    requires TestsBit(nfrom, hdr + 1, FROM_DS, false) && TestsField(at10, hdr + 10, eaddr)
    ensures IsDataFilter(Or(And(nfrom, at10), And(from, Or(And(nto, at16), And(to, at24)))), hdr, eaddr, true)
  {
    var inner := Or(And(nto, at16), And(to, at24));
    forall p ensures Means(Or(And(nfrom, at10), And(from, inner)), p, DataReply(p, hdr, eaddr, true)) {
      assert Means(at24, p, FieldIs(p, hdr + 24, eaddr));
      MeansCase(nto, at16, to, at24, p, hdr + 1, TO_DS, hdr + 16, eaddr, FieldIs(p, hdr + 24, eaddr));
      var a := if hdr + 1 >= |p.data| then None
        else if Bit(p.data[hdr + 1], TO_DS) then FieldIs(p, hdr + 24, eaddr) else FieldIs(p, hdr + 16, eaddr);
      MeansCase(nfrom, at10, from, inner, p, hdr + 1, FROM_DS, hdr + 10, eaddr, a);
    }
  }

  lemma {:induction false} DstData(to: Expr, at16: Expr, nto: Expr, at4: Expr, hdr: nat, eaddr: seq<Byte>)
    requires TestsBit(to, hdr + 1, TO_DS, true) && TestsField(at16, hdr + 16, eaddr)
    requires TestsBit(nto, hdr + 1, TO_DS, false) && TestsField(at4, hdr + 4, eaddr)
    ensures IsDataFilter(Or(And(nto, at4), And(to, at16)), hdr, eaddr, false)
  {
    forall p ensures Means(Or(And(nto, at4), And(to, at16)), p, DataReply(p, hdr, eaddr, false)) {
      assert Means(at16, p, FieldIs(p, hdr + 16, eaddr));
      MeansCase(nto, at4, to, at16, p, hdr + 1, TO_DS, hdr + 4, eaddr, FieldIs(p, hdr + 16, eaddr));
    }
  }

  lemma {:induction false} BothFilters(e0: Expr, e1: Expr, hdr: nat, eaddr: seq<Byte>)
    requires IsHostFilter(e0, hdr, eaddr, Src) && IsHostFilter(e1, hdr, eaddr, Dst)
    ensures IsHostFilter(And(e0, e1), hdr, eaddr, SrcAndDst) && IsHostFilter(Or(e0, e1), hdr, eaddr, SrcOrDst)
  {
    forall p
      ensures Means(And(e0, e1), p, DirReply(p, hdr, eaddr, SrcAndDst))
      ensures Means(Or(e0, e1), p, DirReply(p, hdr, eaddr, SrcOrDst))
    {
      assert Means(e0, p, DirReply(p, hdr, eaddr, Src)) && Means(e1, p, DirReply(p, hdr, eaddr, Dst));
      MeansAnd(e0, e1, p, DirReply(p, hdr, eaddr, Src), DirReply(p, hdr, eaddr, Dst));
      MeansOr(e0, e1, p, DirReply(p, hdr, eaddr, Src), DirReply(p, hdr, eaddr, Dst));
    }
  }

  method GenSrcData(hdr: Word, eaddr: seq<Byte>) returns (b0: Block)
    requires |eaddr| == 6 && hdr + 30 <= WORDS
    ensures b0.Valid() && fresh(b0.blocks) && IsDataFilter(b0.expr, hdr, eaddr, true)
  {
    hide *;
    var b := GenBcmp(hdr, 24, eaddr);
    b0 := b;
    ghost var at24 := b0.expr;
    ghost var to := GenGuard(hdr, 1, TO_DS, true, b0);
    assert fresh(b0.blocks);
    ghost var nto, at16 := GenCase(hdr, 1, TO_DS, 16, eaddr, b0);
    assert fresh(b0.blocks);
    ghost var from := GenGuard(hdr, 1, FROM_DS, true, b0);
    assert fresh(b0.blocks);
    ghost var nfrom, at10 := GenCase(hdr, 1, FROM_DS, 10, eaddr, b0);
    assert fresh(b0.blocks);
    SrcData(to, at24, nto, at16, from, nfrom, at10, hdr, eaddr);
  }

  method GenDstData(hdr: Word, eaddr: seq<Byte>) returns (b0: Block)
    requires |eaddr| == 6 && hdr + 30 <= WORDS
    ensures b0.Valid() && fresh(b0.blocks) && IsDataFilter(b0.expr, hdr, eaddr, false)
  {
    hide *;
    var b := GenBcmp(hdr, 16, eaddr);
    b0 := b;
    ghost var at16 := b0.expr;
    ghost var to := GenGuard(hdr, 1, TO_DS, true, b0);
    assert fresh(b0.blocks);
    ghost var nto, at4 := GenCase(hdr, 1, TO_DS, 4, eaddr, b0);
    assert fresh(b0.blocks);
    DstData(to, at16, nto, at4, hdr, eaddr);
  }

  // The filter for one direction: the checks for data frames, then those for management
  // frames, all guarded by the test that excludes the other frames.
  method GenOneWay(hdr: Word, eaddr: seq<Byte>, src: bool) returns (b0: Block)
    requires |eaddr| == 6 && hdr + 30 <= WORDS
    ensures b0.Valid() && fresh(b0.blocks) && IsHostFilter(b0.expr, hdr, eaddr, if src then Src else Dst)
  {
    hide *;
    if src { b0 := GenSrcData(hdr, eaddr); } else { b0 := GenDstData(hdr, eaddr); }
    ghost var e := b0.expr;
    ghost var data := GenGuard(hdr, 0, TYPE_DATA, true, b0);
    assert fresh(b0.blocks);
    ghost var nmgt, mgtAddr := GenCase(hdr, 0, TYPE_DATA, if src then 10 else 4, eaddr, b0);
    assert fresh(b0.blocks);
    ghost var ctl := GenGuard(hdr, 0, TYPE_LOW, false, b0);
    AllFrames(ctl, nmgt, mgtAddr, data, e, hdr, eaddr, src);
  }

  ghost predicate TestsMask(e: Expr, at: nat, mask: Word, v: Word, on: bool)
  {
    forall p :: Means(e, p, MaskReply(p, at, mask, v, on))
  }

  lemma {:induction false} ComparesMask(e: Expr, at: nat, mask: Word, v: Word)
    requires Compares(e, at, B, mask, Jeq, false, v) && mask != NO_MASK
    ensures TestsMask(e, at, mask, v, true) && TestsMask(Not(e), at, mask, v, false)
  {
    forall p ensures Means(e, p, MaskReply(p, at, mask, v, true)) && Means(Not(e), p, MaskReply(p, at, mask, v, false)) {
      var a := CompareReply(p, at, B, mask, Jeq, false, v);
      assert a == MaskReply(p, at, mask, v, true) && NotSo(a) == MaskReply(p, at, mask, v, false);
      assert Means(e, p, a);
      MeansNot(e, p, a);
    }
  }

  // The test that a masked byte of the link-layer header has a value, or has not.
  method GenMask(hdr: Word, offset: Word, mask: Word, v: Word, on: bool) returns (b: Block)
    requires hdr + offset < WORDS && mask != NO_MASK
    ensures b.Valid() && fresh(b) && b.blocks == [b] && TestsMask(b.expr, hdr + offset, mask, v, on)
  {
    b := GenNcmp(hdr, offset, B, mask, Jeq, false, v);
    ComparesMask(b.expr, hdr + offset, mask, v);
    hide *;
    if !on { GenNot(b); }
  }

  ghost predicate TestsPresence(e: Expr, hdr: nat, dir: Dir)
  {
    forall p :: Means(e, p, Presence(p, hdr, dir))
  }

  lemma {:induction false} Addr2Means(c0: Expr, c1: Expr, c2: Expr, hdr: nat)
    requires TestsMask(c0, hdr, FC0_TYPE_MASK, FC0_TYPE_CTL, false)
    requires TestsMask(c1, hdr, FC0_SUBTYPE_MASK, FC0_SUBTYPE_CTS, false)
    requires TestsMask(c2, hdr, FC0_SUBTYPE_MASK, FC0_SUBTYPE_ACK, false)
    ensures TestsPresence(Or(c0, And(c1, c2)), hdr, Addr2)
  {
    forall p ensures Means(Or(c0, And(c1, c2)), p, Presence(p, hdr, Addr2)) {
      var a0 := MaskReply(p, hdr, FC0_TYPE_MASK, FC0_TYPE_CTL, false);
      var a1 := MaskReply(p, hdr, FC0_SUBTYPE_MASK, FC0_SUBTYPE_CTS, false);
      var a2 := MaskReply(p, hdr, FC0_SUBTYPE_MASK, FC0_SUBTYPE_ACK, false);
      assert Means(c0, p, a0) && Means(c1, p, a1) && Means(c2, p, a2);
      hide Means, Masked;
      MeansAnd(c1, c2, p, a1, a2);
      MeansOr(c0, And(c1, c2), p, a0, AndThen(a1, a2));
    }
  }

  lemma {:induction false} MasksAre()
    ensures FC0_TYPE_MASK != NO_MASK && FC0_SUBTYPE_MASK != NO_MASK && FC1_DIR_MASK != NO_MASK
  {}

  // The test that the frame has a second address.
  method GenAddr2(hdr: Word) returns (b2: Block)
    requires hdr < WORDS
    ensures b2.Valid() && fresh(b2.blocks) && TestsPresence(b2.expr, hdr, Addr2)
  {
    hide *;
    MasksAre();
    var b0 := GenMask(hdr, 0, FC0_TYPE_MASK, FC0_TYPE_CTL, false);
    var b1 := GenMask(hdr, 0, FC0_SUBTYPE_MASK, FC0_SUBTYPE_CTS, false);
    b2 := GenMask(hdr, 0, FC0_SUBTYPE_MASK, FC0_SUBTYPE_ACK, false);
    Addr2Means(b0.expr, b1.expr, b2.expr, hdr);
    ShutApart(b1, b2);
    GenAnd(b1, b2);
    ShutApart(b0, b2);
    GenOr(b0, b2);
  }

  lemma {:induction false} ShutApart(b0: Block, b1: Block)
    requires forall x :: x in b0.blocks ==> x !in b1.blocks
    ensures Apart(b0, b1)
  {}

  lemma {:induction false} TaMeans(bit: Expr, e: Expr, hdr: nat)
    requires TestsBit(bit, hdr, TYPE_DATA, true) && TestsPresence(e, hdr, Addr2)
    ensures TestsPresence(bit, hdr, Ra) && TestsPresence(And(bit, e), hdr, Ta)
  {
    forall p ensures Means(bit, p, Presence(p, hdr, Ra)) && Means(And(bit, e), p, Presence(p, hdr, Ta)) {
      assert Means(bit, p, BitReply(p, hdr, TYPE_DATA, true)) && Means(e, p, Presence(p, hdr, Addr2));
      hide Means;
      MeansAnd(bit, e, p, BitReply(p, hdr, TYPE_DATA, true), Addr2Reply(p, hdr));
    }
  }

  lemma {:induction false} MaskPresence(e: Expr, hdr: nat)
    ensures TestsMask(e, hdr, FC0_TYPE_MASK, FC0_TYPE_CTL, false) ==> TestsPresence(e, hdr, Addr3)
    ensures TestsMask(e, hdr + 1, FC1_DIR_MASK, FC1_DIR_DSTODS, true) ==> TestsPresence(e, hdr, Addr4)
    ensures TestsBit(e, hdr, TYPE_DATA, true) ==> TestsPresence(e, hdr, Ra)
  {}

  // The tests that the frame has the address field.
  method GenPresence(hdr: Word, dir: Dir) returns (b: Block)
    requires hdr + 1 < WORDS && dir in {Ra, Ta, Addr2, Addr3, Addr4}
    ensures b.Valid() && fresh(b.blocks) && TestsPresence(b.expr, hdr, dir)
  {
    hide *;
    MasksAre();
    if dir == Ra {
      b := GenBit(hdr, 0, TYPE_DATA, true);
      MaskPresence(b.expr, hdr);
    } else if dir == Ta {
      b := GenAddr2(hdr);
      var b1 := GenBit(hdr, 0, TYPE_DATA, true);
      TaMeans(b1.expr, b.expr, hdr);
      ShutApart(b1, b);
      GenAnd(b1, b);
    } else if dir == Addr2 {
      b := GenAddr2(hdr);
    } else if dir == Addr3 {
      b := GenMask(hdr, 0, FC0_TYPE_MASK, FC0_TYPE_CTL, false);
      MaskPresence(b.expr, hdr);
    } else {
      b := GenMask(hdr, 1, FC1_DIR_MASK, FC1_DIR_DSTODS, true);
      MaskPresence(b.expr, hdr);
    }
  }

  predicate NamesField(dir: Dir) { dir in {Ra, Ta, Addr1, Addr2, Addr3, Addr4} }

  lemma {:induction false} FieldFilter(e: Expr, f: Expr, hdr: nat, eaddr: seq<Byte>, dir: Dir)
    requires NamesField(dir) && TestsField(f, hdr + Place(dir), eaddr)
    ensures dir == Addr1 ==> IsHostFilter(f, hdr, eaddr, dir)
    ensures TestsPresence(e, hdr, dir) ==> IsHostFilter(And(e, f), hdr, eaddr, dir)
  {
    forall p
      ensures dir == Addr1 ==> Means(f, p, DirReply(p, hdr, eaddr, dir))
      ensures TestsPresence(e, hdr, dir) ==> Means(And(e, f), p, DirReply(p, hdr, eaddr, dir))
    {
      assert Means(f, p, FieldIs(p, hdr + Place(dir), eaddr));
      if TestsPresence(e, hdr, dir) {
        MeansAnd(e, f, p, Presence(p, hdr, dir), FieldIs(p, hdr + Place(dir), eaddr));
      }
    }
  }

  // The filter for one address field, where the frame has it.
  method GenField(hdr: Word, eaddr: seq<Byte>, dir: Dir) returns (b: Block)
    requires |eaddr| == 6 && hdr + 30 <= WORDS && NamesField(dir)
    ensures b.Valid() && fresh(b.blocks) && IsHostFilter(b.expr, hdr, eaddr, dir)
  {
    FieldPlace(dir);
    hide *;
    var f := GenBcmp(hdr, Place(dir), eaddr);
    b := f;
    ghost var field := b.expr;
    if dir == Addr1 {
      FieldFilter(field, field, hdr, eaddr, dir);
    } else {
      var b1 := GenPresence(hdr, dir);
      FieldFilter(b1.expr, field, hdr, eaddr, dir);
      ShutApart(b1, b);
      GenAnd(b1, b);
    }
  }

  lemma {:induction false} FieldPlace(dir: Dir)
    ensures Place(dir) <= 24 && (NamesField(dir) && dir != Addr1 ==> dir in {Ra, Ta, Addr2, Addr3, Addr4})
  {}

  /** Generate the filter for the host address `eaddr` in the given direction or address field:
      its reply to every packet, of whatever length, is the one `DirReply` gives. */
  method GenWlanHostop(hdr: Word, eaddr: seq<Byte>, dir: Dir) returns (b: Block)
    requires |eaddr| == 6 && hdr + 30 <= WORDS
    ensures b.Valid() && fresh(b.blocks) && IsHostFilter(b.expr, hdr, eaddr, dir)
  {
    match dir
    case Src => b := GenOneWay(hdr, eaddr, true);
    case Dst => b := GenOneWay(hdr, eaddr, false);
    case SrcAndDst =>
      var b0 := GenOneWay(hdr, eaddr, true);
      b := GenOneWay(hdr, eaddr, false);
      BothFilters(b0.expr, b.expr, hdr, eaddr);
      GenAnd(b0, b);
    case SrcOrDst =>
      var b0 := GenOneWay(hdr, eaddr, true);
      b := GenOneWay(hdr, eaddr, false);
      BothFilters(b0.expr, b.expr, hdr, eaddr);
      GenOr(b0, b);
    case _ => b := GenField(hdr, eaddr, dir);
  }

  // What the manual says of `wlan ra`, and of `wlan ta`: the receiver address is used in all
  // frames but management frames, the transmitter address in those that have a second address.
  function ManualReply(p: Packet, hdr: nat, eaddr: seq<Byte>, dir: Dir): Reply
  {
    if hdr >= |p.data| then None
    else if Masked(p.data[hdr], FC0_TYPE_MASK, FC0_TYPE_MGT) || (dir == Ta && !HasAddr2(p.data[hdr])) then Some(false)
    else FieldIs(p, hdr + Place(dir), eaddr)
  }

  predicate IsControl(p: Packet, hdr: nat)
  {
    hdr < |p.data| && Masked(p.data[hdr], FC0_TYPE_MASK, FC0_TYPE_CTL)
  }

  // The address is all captured, and is not `eaddr`.
  predicate OtherAddress(p: Packet, at: nat, eaddr: seq<Byte>)
  {
    at + |eaddr| <= |p.data| && p.data[at..at + |eaddr|] != eaddr
  }

  /** The filters for these two addresses refuse every control frame, which the manual does
      not: they reply to a packet as it says if and only if that is no control frame, or one
      without such an address, or one with another address. */
  lemma {:induction false} ControlMissed(p: Packet, hdr: nat, eaddr: seq<Byte>, dir: Dir)
    requires dir == Ra || dir == Ta
    ensures DirReply(p, hdr, eaddr, dir) == ManualReply(p, hdr, eaddr, dir) <==>
      || !IsControl(p, hdr)
      || (dir == Ta && !HasAddr2(p.data[hdr]))
      || OtherAddress(p, hdr + Place(dir), eaddr)
  {
    if hdr < |p.data| { TypeBits(p.data[hdr]); }
  }

  /** So a clear-to-send frame for `eaddr` passes for one that is not. */
  lemma {:induction false} MissedCts(eaddr: seq<Byte>) returns (p: Packet)
    requires |eaddr| == 6
    ensures ManualReply(p, 0, eaddr, Ra) == Some(true) && DirReply(p, 0, eaddr, Ra) == Some(false)
  {
    p := Packet([0xc4, 0x00, 0x00, 0x00] + eaddr, 10);
    assert p.data[0] == 0xc4 && |p.data| == 10 && p.data[4..10] == eaddr;
    assert AndBits(0xc4, 0xc) == 4 && AndBits(0xc4, 8) == 0;
  }

  // The two bits of the frame type, together and one by one.
  lemma {:induction false} TypeBits(b: Byte)
    ensures Masked(b, FC0_TYPE_MASK, FC0_TYPE_CTL) <==> Bit(b, TYPE_LOW) && !Bit(b, TYPE_DATA)
    ensures Masked(b, FC0_TYPE_MASK, FC0_TYPE_MGT) <==> !Bit(b, TYPE_LOW) && !Bit(b, TYPE_DATA)
  {
    hide AndBits;
    AndFour(b);
    AndEight(b);
    AndTwelve(b);
    TwoBits(b);
  }

  lemma {:induction false} TwoBits(b: nat)
    ensures b / 4 % 4 == b / 4 % 2 + 2 * (b / 8 % 2)
  {
    Eighth(b);
  }

  /** The undirected filter accepts the frames that either directed filter accepts, except
      those cut off before the source address ends: these it rejects, whatever their
      destination, because the source is tested first. */
  lemma {:induction false} EitherDirection(p: Packet, hdr: nat, eaddr: seq<Byte>)
    ensures DirReply(p, hdr, eaddr, SrcOrDst) == Some(true) <==>
      && HostReply(p, hdr, eaddr, true) != None
      && (HostReply(p, hdr, eaddr, true) == Some(true) || HostReply(p, hdr, eaddr, false) == Some(true))
    ensures HostReply(p, hdr, eaddr, true) == None <==>
      || hdr >= |p.data|
      || (!Bit(p.data[hdr], TYPE_LOW) && !Bit(p.data[hdr], TYPE_DATA) && hdr + 10 + |eaddr| > |p.data|)
      || (!Bit(p.data[hdr], TYPE_LOW) && Bit(p.data[hdr], TYPE_DATA) &&
          (hdr + 1 >= |p.data| || hdr + DataAddress(p.data[hdr + 1], true) + |eaddr| > |p.data|))
  {}

  /** Such a frame exists: a data frame of the four-address kind, captured up to the end of its
      destination address, is accepted by the destination filter and rejected by the undirected
      one. */
  lemma {:induction false} CutOffFrame(eaddr: seq<Byte>) returns (p: Packet)
    requires |eaddr| == 6
    ensures HostReply(p, 0, eaddr, false) == Some(true) && DirReply(p, 0, eaddr, SrcOrDst) == None
  {
    p := Packet([0x08, 0x03] + seq(14, _ => 0) + eaddr, 22);
    assert p.data[0] == 0x08 && p.data[1] == 0x03 && |p.data| == 22;
    assert p.data[16..22] == eaddr;
    DataBits();
  }

  lemma {:induction false} DataBits()
    ensures !Bit(0x08, TYPE_LOW) && Bit(0x08, TYPE_DATA) && Bit(0x03, TO_DS) && Bit(0x03, FROM_DS)
  {
    assert AndBits(8, 4) == 0 && AndBits(8, 8) == 8;
    assert AndBits(3, 1) == 1 && AndBits(3, 2) == 2;
  }

  // ---- frames ----

  // A frame with all its addresses: two bytes of frame control, the duration, three addresses,
  // the sequence control and the fourth address.
  datatype Frame = Frame(fc0: Byte, fc1: Byte, duration: seq<Byte>, a1: seq<Byte>, a2: seq<Byte>, a3: seq<Byte>,
    sequence: seq<Byte>, a4: seq<Byte>)

  predicate Sized(f: Frame)
  {
    |f.duration| == |f.sequence| == 2 && |f.a1| == |f.a2| == |f.a3| == |f.a4| == 6
  }

  function Bytes(f: Frame): seq<Byte>
  {
    [f.fc0, f.fc1] + f.duration + f.a1 + f.a2 + f.a3 + f.sequence + f.a4
  }

  // The first `k` bytes of the frame are captured, from `hdr` on.
  ghost predicate Carries(p: Packet, hdr: nat, f: Frame, k: nat)
  {
    Sized(f) && 2 <= k <= 30 && hdr + k <= |p.data| && p.data[hdr..hdr + k] == Bytes(f)[..k]
  }

  lemma {:induction false} FieldAt(p: Packet, hdr: nat, n: nat, field: seq<Byte>, eaddr: seq<Byte>)
    requires hdr + n + 6 <= |p.data| && p.data[hdr + n..hdr + n + 6] == field && |eaddr| == 6
    ensures FieldIs(p, hdr + n, eaddr) == Some(field == eaddr)
  {}

  lemma {:induction false} FrameFields(p: Packet, hdr: nat, f: Frame, k: nat, eaddr: seq<Byte>)
    requires Carries(p, hdr, f, k) && |eaddr| == 6
    ensures p.data[hdr] == f.fc0 && p.data[hdr + 1] == f.fc1
    ensures k >= 10 ==> FieldIs(p, hdr + 4, eaddr) == Some(f.a1 == eaddr)
    ensures k >= 16 ==> FieldIs(p, hdr + 10, eaddr) == Some(f.a2 == eaddr)
    ensures k >= 22 ==> FieldIs(p, hdr + 16, eaddr) == Some(f.a3 == eaddr)
    ensures k >= 30 ==> FieldIs(p, hdr + 24, eaddr) == Some(f.a4 == eaddr)
  {
    var b := Bytes(f);
    FrameSlices(f);
    Captured(p, hdr, b, k, 0);
    Captured(p, hdr, b, k, 1);
    hide Bytes, FieldIs;
    if k >= 10 { CapturedField(p, hdr, b, k, 4); FieldAt(p, hdr, 4, f.a1, eaddr); }
    if k >= 16 { CapturedField(p, hdr, b, k, 10); FieldAt(p, hdr, 10, f.a2, eaddr); }
    if k >= 22 { CapturedField(p, hdr, b, k, 16); FieldAt(p, hdr, 16, f.a3, eaddr); }
    if k >= 30 { CapturedField(p, hdr, b, k, 24); FieldAt(p, hdr, 24, f.a4, eaddr); }
  }

  lemma {:induction false} Captured(p: Packet, hdr: nat, b: seq<Byte>, k: nat, i: nat)
    requires i < k <= |b| && hdr + k <= |p.data| && p.data[hdr..hdr + k] == b[..k]
    ensures p.data[hdr + i] == b[i]
  {
    assert p.data[hdr..hdr + k][i] == b[..k][i];
  }

  lemma {:induction false} CapturedField(p: Packet, hdr: nat, b: seq<Byte>, k: nat, i: nat)
    requires i + 6 <= k <= |b| && hdr + k <= |p.data| && p.data[hdr..hdr + k] == b[..k]
    ensures p.data[hdr + i..hdr + i + 6] == b[i..i + 6]
  {
    var s, t := p.data[hdr..hdr + k], b[..k];
    assert s[i..i + 6] == p.data[hdr + i..hdr + i + 6] && t[i..i + 6] == b[i..i + 6];
  }

  lemma {:induction false} FrameSlices(f: Frame)
    requires Sized(f)
    ensures var b := Bytes(f);
      && |b| == 30 && b[0] == f.fc0 && b[1] == f.fc1
      && b[4..10] == f.a1 && b[10..16] == f.a2 && b[16..22] == f.a3 && b[24..30] == f.a4
  {}

  lemma {:induction false} FrameBits(b: Byte)
    ensures (Bit(b, TYPE_LOW) <==> b / 4 % 2 == 1) && (Bit(b, TYPE_DATA) <==> b / 8 % 2 == 1)
    ensures (Bit(b, TO_DS) <==> b % 2 == 1) && (Bit(b, FROM_DS) <==> b / 2 % 2 == 1)
    ensures Masked(b, FC0_TYPE_MASK, FC0_TYPE_CTL) <==> b / 4 % 4 == 1
    ensures Masked(b, FC0_SUBTYPE_MASK, FC0_SUBTYPE_CTS) <==> b / 16 == 12
    ensures Masked(b, FC0_SUBTYPE_MASK, FC0_SUBTYPE_ACK) <==> b / 16 == 13
    ensures Masked(b, FC1_DIR_MASK, FC1_DIR_DSTODS) <==> b % 4 == 3
  {
    hide AndBits;
    AndOne(b);
    AndTwo(b);
    AndThree(b);
    AndFour(b);
    AndEight(b);
    AndTwelve(b);
    AndUpper(b);
  }

  /** What the filter for each address field says of a frame captured up to the end of the field.
      The first address is always there; control frames have no third one, and clear-to-send and
      acknowledgement frames no second one; the fourth is there when both DS bits are on. The
      filters for receiver and transmitter ask besides that bit 3 is on. */
  lemma {:induction false} FrameFieldReplies(p: Packet, hdr: nat, f: Frame, k: nat, eaddr: seq<Byte>)
    requires Carries(p, hdr, f, k) && |eaddr| == 6
    ensures var control, data := f.fc0 / 4 % 4 == 1, f.fc0 / 8 % 2 == 1;
      var second := !(control && (f.fc0 / 16 == 12 || f.fc0 / 16 == 13));
      && (k >= 10 ==> DirReply(p, hdr, eaddr, Addr1) == Some(f.a1 == eaddr))
      && (k >= 16 ==> DirReply(p, hdr, eaddr, Addr2) == Some(second && f.a2 == eaddr))
      && (k >= 22 ==> DirReply(p, hdr, eaddr, Addr3) == Some(!control && f.a3 == eaddr))
      && (k >= 30 ==> DirReply(p, hdr, eaddr, Addr4) == Some(f.fc1 % 4 == 3 && f.a4 == eaddr))
      && (k >= 10 ==> DirReply(p, hdr, eaddr, Ra) == Some(data && f.a1 == eaddr))
      && (k >= 16 ==> DirReply(p, hdr, eaddr, Ta) == Some(data && second && f.a2 == eaddr))
  {
    FrameFields(p, hdr, f, k, eaddr);
    FrameBits(f.fc0);
    FrameBits(f.fc1);
    hide FieldIs, Bit, Masked, Bytes;
  }

  /** What the filters by direction say of it. Frames whose bit 2 is on have no such address;
      in management frames the destination is the first address and the source the second; in data
      frames the DS bits tell. */
  lemma {:induction false} FrameHostReplies(p: Packet, hdr: nat, f: Frame, k: nat, eaddr: seq<Byte>)
    requires Carries(p, hdr, f, k) && |eaddr| == 6 && k >= if f.fc1 % 4 == 3 then 30 else 22
    ensures var has, data := f.fc0 / 4 % 2 == 0, f.fc0 / 8 % 2 == 1;
      var to, from := f.fc1 % 2 == 1, f.fc1 / 2 % 2 == 1;
      var sa := if !data || !from then f.a2 else if !to then f.a3 else f.a4;
      var da := if !data || !to then f.a1 else f.a3;
      && DirReply(p, hdr, eaddr, Src) == Some(has && sa == eaddr)
      && DirReply(p, hdr, eaddr, Dst) == Some(has && da == eaddr)
      && DirReply(p, hdr, eaddr, SrcAndDst) == Some(has && sa == eaddr && da == eaddr)
      && DirReply(p, hdr, eaddr, SrcOrDst) == Some(has && (sa == eaddr || da == eaddr))
  {
    FrameFields(p, hdr, f, k, eaddr);
    FrameBits(f.fc0);
    FrameBits(f.fc1);
    hide FieldIs, Bit, Masked, Bytes;
  }
}
