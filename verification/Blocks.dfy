/** The branch graph on the heap. A fragment is known by its last block. */
module Blocks {
  import opened Words
  import opened Bpf
  import opened Filter

  datatype Body = Branch(test: Test) | Ret(k: Word)

  // The mutable fields of a block, apart from its head. While a fragment is being built, its
  // unresolved exits are threaded through the very fields that will later hold the branch targets,
  // and `sense` says which of the two is such a link.
  datatype View = View(jt: Block?, jf: Block?, sense: bool) {
    ghost function To(side: bool): Block? { if side then jt else jf }

    // The field that holds an open exit; a fragment's last block holds one of each kind.
    ghost function Side(isTail: bool, exit: bool): bool { if isTail then exit != sense else !sense }

    ghost function Set(side: bool, target: Block?): View
    {
      if side then this.(jt := target) else this.(jf := target)
    }
  }

  ghost predicate HasOpen(n: Node, exit: bool)
  {
    n.t == Open(exit) || n.f == Open(exit)
  }

  // The last of the first `n` blocks with an open exit `exit`, or -1.
  ghost function LastOpen(g: seq<Node>, exit: bool, n: nat): (j: int)
    requires n <= |g|
    ensures -1 <= j < n
    ensures j >= 0 ==> HasOpen(g[j], exit)
    ensures forall i :: j < i < n ==> !HasOpen(g[i], exit)
  {
    if n == 0 then -1 else if HasOpen(g[n - 1], exit) then n - 1 else LastOpen(g, exit, n - 1)
  }

  ghost function At(blocks: seq<Block>, j: int): Block?
    requires -1 <= j < |blocks|
  {
    if j < 0 then null else blocks[j]
  }

  // Edge `s` of block `i`: a resolved edge is the pointer it says; an open one sits in the
  // field `sense` names and links back to the previous block with that exit open.
  ghost predicate EdgeHeld(blocks: seq<Block>, v: seq<View>, g: seq<Node>, i: nat, s: bool)
    requires i < |blocks| == |v| == |g|
  {
    match g[i].E(s)
    case Skip(d) => i + d < |g| && v[i].To(s) == blocks[i + d]
    case Open(exit) => s == v[i].Side(i == |g| - 1, exit) && v[i].To(s) == At(blocks, LastOpen(g, exit, i))
  }

  ghost predicate NodeHeld(blocks: seq<Block>, v: seq<View>, g: seq<Node>, i: nat)
    requires i < |blocks| == |v| == |g|
  {
    blocks[i].body == Branch(g[i].test) && EdgeHeld(blocks, v, g, i, true) && EdgeHeld(blocks, v, g, i, false)
  }

  // The blocks hold the graph `g`, both of whose chains start at the last block.
  ghost predicate Held(blocks: seq<Block>, v: seq<View>, g: seq<Node>)
  {
    && |blocks| == |v| == |g| > 0
    && (forall i :: 0 <= i < |g| ==> NodeHeld(blocks, v, g, i))
    && g[|g| - 1].E(true).Open? && g[|g| - 1].E(false).Open?
  }

  ghost predicate Distinct(c: seq<Block>)
  {
    forall i, j :: 0 <= i < j < |c| ==> c[i] != c[j]
  }

  ghost function FlipLast(v: seq<View>): seq<View>
    requires |v| > 0
  {
    v[|v| - 1 := v[|v| - 1].(sense := !v[|v| - 1].sense)]
  }

  lemma {:induction false} LastOpenFlipped(g: seq<Node>, exit: bool, n: nat)
    requires n <= |g|
    ensures LastOpen(Flip(g), exit, n) == LastOpen(g, !exit, n)
  {
    if n > 0 { LastOpenFlipped(g, exit, n - 1); }
  }

  lemma {:induction false} FlipHeld(blocks: seq<Block>, v: seq<View>, g: seq<Node>)
    requires Held(blocks, v, g)
    ensures Held(blocks, FlipLast(v), Flip(g))
  {
    forall i | 0 <= i < |g| ensures NodeHeld(blocks, FlipLast(v), Flip(g), i) {
      assert NodeHeld(blocks, v, g, i);
      LastOpenFlipped(g, true, i);
      LastOpenFlipped(g, false, i);
    }
    assert NodeHeld(blocks, v, g, |g| - 1);
  }

  class Block {
    const body: Body
    var jt: Block?
    var jf: Block?
    var sense: bool
    var head: Block
    // The fragment this block is the last of: the expression it decides and its blocks in order.
    ghost var expr: Expr
    ghost var blocks: seq<Block>

    ghost function Now(): View
      reads this
    {
      View(jt, jf, sense)
    }

    ghost predicate Valid()
      reads this, blocks
    {
      && |blocks| > 0 && blocks[|blocks| - 1] == this && head == blocks[0] && Distinct(blocks)
      && Held(blocks, Views(blocks), Compile(expr))
    }

    constructor (body: Body)
      ensures this.body == body && jt == null && jf == null && !sense && head == this
      ensures blocks == [this]
      ensures body.Branch? ==> Valid() && expr == Leaf(body.test)
    {
      this.body := body;
      jt, jf, sense, head := null, null, false, this;
      expr := if body.Branch? then Leaf(body.test) else Leaf(Test([], CmpK(Jeq, 0)));
      blocks := [this];
      new;
      assert body.Branch? ==> NodeHeld(blocks, Views(blocks), Compile(expr), 0);
    }
  }

  ghost function Views(blocks: seq<Block>): (v: seq<View>)
    reads blocks
    ensures |v| == |blocks|
  {
    seq(|blocks|, i requires 0 <= i < |blocks| reads blocks => blocks[i].Now())
  }

  // Exchange the roles of the two fields of a block.
  method FlipSense(b: Block, ghost blocks: seq<Block>)
    requires |blocks| > 0 && blocks[|blocks| - 1] == b && Distinct(blocks)
    modifies b`sense
    ensures Views(blocks) == FlipLast(old(Views(blocks)))
  {
    b.sense := !b.sense;
  }

  method GenNot(b: Block)
    requires b.Valid()
    modifies b
    ensures b.Valid() && b.expr == Not(old(b.expr)) && b.blocks == old(b.blocks)
  {
    ghost var v := Views(b.blocks);
    FlipSense(b, b.blocks);
    b.expr := Not(b.expr);
    FlipHeld(b.blocks, v, Compile(b.expr.e));
    assert Views(b.blocks) == FlipLast(v);
  }

  // Each block with an open exit `exit` holds it in the field that its own `sense` names.
  ghost predicate Walkable(blocks: seq<Block>, v: seq<View>, g: seq<Node>, exit: bool)
    requires |blocks| == |v| == |g|
  {
    forall i :: 0 <= i < |g| && HasOpen(g[i], exit) ==> v[i].To(!v[i].sense) == At(blocks, LastOpen(g, exit, i))
  }

  // A chain can be walked from a fragment's last block once that block's `sense` names the chain.
  lemma {:induction false} HeldWalkable(blocks: seq<Block>, v: seq<View>, g: seq<Node>, exit: bool)
    requires Held(blocks, v, g)
    ensures LastOpen(g, exit, |g|) == |g| - 1
    ensures Walkable(blocks, if exit then v else FlipLast(v), g, exit)
    ensures forall i :: 0 <= i < |g| && HasOpen(g[i], exit) ==> g[i].E(v[i].Side(i == |g| - 1, exit)) == Open(exit)
  {
    var w := if exit then v else FlipLast(v);
    assert NodeHeld(blocks, v, g, |g| - 1);
    forall i | 0 <= i < |g| && HasOpen(g[i], exit)
      ensures w[i].To(!w[i].sense) == At(blocks, LastOpen(g, exit, i))
      ensures g[i].E(v[i].Side(i == |g| - 1, exit)) == Open(exit)
    {
      assert NodeHeld(blocks, v, g, i);
    }
  }

  ghost function Patched(v: seq<View>, g: seq<Node>, exit: bool, target: Block?): (w: seq<View>)
    requires |v| == |g|
    ensures |w| == |v|
  {
    seq(|v|, i requires 0 <= i < |v| => if HasOpen(g[i], exit) then v[i].Set(!v[i].sense, target) else v[i])
  }

  // The views below `k` as they are in `v`, the others as in `w`.
  ghost function Mixed(v: seq<View>, w: seq<View>, k: nat): seq<View>
    requires k <= |v| == |w|
  {
    v[..k] + w[k..]
  }

  // The next block a walk of the chain comes to, with the blocks below `k` not yet patched.
  lemma {:induction false} NextOnChain(blocks: seq<Block>, v: seq<View>, g: seq<Node>, exit: bool, target: Block?,
      k: nat)
    requires |blocks| == |v| == |g| && Walkable(blocks, v, g, exit) && k <= |g|
    requires LastOpen(g, exit, k) != -1
    ensures var j, w := LastOpen(g, exit, k), Patched(v, g, exit, target);
      && 0 <= j < k && Mixed(v, w, k)[j] == v[j]
      && v[j].To(!v[j].sense) == At(blocks, LastOpen(g, exit, j))
      && Mixed(v, w, j) == Mixed(v, w, k)[j := v[j].Set(!v[j].sense, target)]
  {}

  // Nothing is patched at first, and everything once the chain is at its end.
  lemma {:induction false} MixedEnds(v: seq<View>, g: seq<Node>, exit: bool, target: Block?, k: nat)
    requires |v| == |g| && k <= |g|
    ensures var w := Patched(v, g, exit, target);
      Mixed(v, w, |g|) == v && (LastOpen(g, exit, k) == -1 ==> Mixed(v, w, k) == w)
  {}

  // Resolve every exit on the chain that starts at `list`.
  method Backpatch(list: Block?, target: Block, ghost blocks: seq<Block>, ghost g: seq<Node>, ghost exit: bool)
    requires |blocks| == |g| && Distinct(blocks) && Walkable(blocks, Views(blocks), g, exit)
    requires list == At(blocks, LastOpen(g, exit, |g|))
    modifies blocks`jt, blocks`jf
    ensures Views(blocks) == Patched(old(Views(blocks)), g, exit, target)
  {
    hide Patched, Walkable, LastOpen, Mixed;
    var list := list;
    ghost var k := |g|;
    ghost var v, w := Views(blocks), Patched(Views(blocks), g, exit, target);
    MixedEnds(v, g, exit, target, k);
    while list != null
      invariant 0 <= k <= |g| && list == At(blocks, LastOpen(g, exit, k))
      invariant Views(blocks) == Mixed(v, w, k)
      invariant list == null ==> Mixed(v, w, k) == w
      decreases k
    {
      NextOnChain(blocks, v, g, exit, target, k);
      k := LastOpen(g, exit, k);
      assert list.Now() == Views(blocks)[k];
      var next;
      if !list.sense {
        next := list.jt;
        list.jt := target;
      } else {
        next := list.jf;
        list.jf := target;
      }
      assert list.Now() == Mixed(v, w, k)[k];
      list := next;
      MixedEnds(v, g, exit, target, k);
    }
  }

  // Append the chain that starts at `b1` to the one that starts at `b0`.
  method Merge(b0: Block?, b1: Block?, ghost blocks: seq<Block>, ghost g: seq<Node>, ghost exit: bool)
    returns (ghost z: int)
    requires |blocks| == |g| && Distinct(blocks) && Walkable(blocks, Views(blocks), g, exit)
    requires b0 == At(blocks, LastOpen(g, exit, |g|))
    modifies blocks`jt, blocks`jf
    ensures -1 <= z < |g|
    ensures if z == -1 then LastOpen(g, exit, |g|) == -1 else HasOpen(g[z], exit) && LastOpen(g, exit, z) == -1
    ensures Views(blocks) ==
      if z == -1 then old(Views(blocks))
      else old(Views(blocks)[z := Views(blocks)[z].Set(!Views(blocks)[z].sense, b1)])
  {
    hide LastOpen;
    if b0 == null { return -1; }
    var p := b0;
    z := LastOpen(g, exit, |g|);
    while (if !p.sense then p.jt else p.jf) != null
      invariant 0 <= z < |g| && p == blocks[z] && HasOpen(g[z], exit)
      decreases z
    {
      p := if !p.sense then p.jt else p.jf;
      z := LastOpen(g, exit, z);
    }
    if !p.sense {
      p.jt := b1;
    } else {
      p.jf := b1;
    }
  }

  // The blocks of the left fragment after gen_and (exit == true) or gen_or (exit == false).
  ghost function SpliceLeft(v: seq<View>, g: seq<Node>, exit: bool, target: Block): (w: seq<View>)
    requires |v| == |g|
    ensures |w| == |v|
  {
    seq(|v|, i requires 0 <= i < |v| =>
      var isTail := i == |v| - 1;
      var u := if HasOpen(g[i], exit) then v[i].Set(v[i].Side(isTail, exit), target) else v[i];
      if isTail && exit then u.(sense := !u.sense) else u)
  }

  // The blocks of the right fragment: the lowest link `z` of its other chain now goes on to `left`.
  ghost function SpliceRight(v: seq<View>, z: nat, exit: bool, left: Block): (w: seq<View>)
    requires z < |v|
    ensures |w| == |v|
  {
    v[z := v[z].Set(v[z].Side(z == |v| - 1, !exit), left)]
  }

  lemma {:induction false} LastOpenPatched(g0: seq<Node>, exit: bool, g1: seq<Node>, e: bool, n: nat)
    requires n <= |g0|
    ensures LastOpen(Patch(g0, exit) + g1, e, n) == if e == exit then -1 else LastOpen(g0, e, n)
  {
    if n > 0 { LastOpenPatched(g0, exit, g1, e, n - 1); }
  }

  lemma {:induction false} LastOpenAfter(g0: seq<Node>, exit: bool, g1: seq<Node>, e: bool, n: nat)
    requires n <= |g1|
    ensures LastOpen(Patch(g0, exit) + g1, e, |g0| + n) ==
            if LastOpen(g1, e, n) >= 0 then |g0| + LastOpen(g1, e, n)
            else if e == exit then -1 else LastOpen(g0, e, |g0|)
  {
    if n > 0 {
      LastOpenAfter(g0, exit, g1, e, n - 1);
      assert (Patch(g0, exit) + g1)[|g0| + n - 1] == g1[n - 1];
    } else {
      LastOpenPatched(g0, exit, g1, e, |g0|);
    }
  }

  lemma {:induction false} SpliceHeldLeft(B0: seq<Block>, v0: seq<View>, g0: seq<Node>, B1: seq<Block>,
      w1: seq<View>, g1: seq<Node>, exit: bool, i: nat)
    requires Held(B0, v0, g0) && |B1| == |w1| == |g1| > 0 && i < |g0|
    ensures NodeHeld(B0 + B1, SpliceLeft(v0, g0, exit, B1[0]) + w1, Patch(g0, exit) + g1, i)
  {
    assert NodeHeld(B0, v0, g0, i);
    PatchEdges(g0, exit);
    LastOpenPatched(g0, exit, g1, true, i);
    LastOpenPatched(g0, exit, g1, false, i);
  }

  lemma {:induction false} SpliceEdgeRight(B0: seq<Block>, w0: seq<View>, g0: seq<Node>, B1: seq<Block>,
      v1: seq<View>, g1: seq<Node>, exit: bool, z: nat, i: nat, s: bool)
    requires |B0| == |w0| == |g0| > 0 && |B1| == |v1| == |g1| && i < |g1|
    requires HasOpen(g0[|g0| - 1], !exit) && EdgeHeld(B1, v1, g1, i, s)
    requires z < |g1| && HasOpen(g1[z], !exit) && LastOpen(g1, !exit, z) == -1
    requires HasOpen(g1[z], !exit) ==> g1[z].E(v1[z].Side(z == |g1| - 1, !exit)) == Open(!exit)
    ensures EdgeHeld(B0 + B1, w0 + SpliceRight(v1, z, exit, B0[|B0| - 1]), Patch(g0, exit) + g1, |g0| + i, s)
  {
    var w1 := SpliceRight(v1, z, exit, B0[|B0| - 1]);
    assert (Patch(g0, exit) + g1)[|g0| + i] == g1[i];
    assert (w0 + w1)[|g0| + i] == w1[i];
    assert w1[i].sense == v1[i].sense;
    if i != z { assert w1[i] == v1[i]; }
    match g1[i].E(s)
    case Skip(d) =>
    case Open(e) =>
      LastOpenAfter(g0, exit, g1, e, i);
      assert LastOpen(g0, !exit, |g0|) == |g0| - 1;
  }

  lemma {:induction false} SpliceHeldRight(B0: seq<Block>, w0: seq<View>, g0: seq<Node>, B1: seq<Block>,
      v1: seq<View>, g1: seq<Node>, exit: bool, z: nat, i: nat)
    requires |B0| == |w0| == |g0| > 0 && Held(B1, v1, g1) && i < |g1|
    requires HasOpen(g0[|g0| - 1], !exit)
    requires z < |g1| && HasOpen(g1[z], !exit) && LastOpen(g1, !exit, z) == -1
    ensures NodeHeld(B0 + B1, w0 + SpliceRight(v1, z, exit, B0[|B0| - 1]), Patch(g0, exit) + g1, |g0| + i)
  {
    assert NodeHeld(B1, v1, g1, i) && NodeHeld(B1, v1, g1, z);
    SpliceEdgeRight(B0, w0, g0, B1, v1, g1, exit, z, i, true);
    SpliceEdgeRight(B0, w0, g0, B1, v1, g1, exit, z, i, false);
  }

  lemma {:induction false} SpliceHeld(B0: seq<Block>, v0: seq<View>, g0: seq<Node>, B1: seq<Block>, v1: seq<View>,
      g1: seq<Node>, exit: bool, z: nat)
    requires Held(B0, v0, g0) && Held(B1, v1, g1)
    requires z < |g1| && HasOpen(g1[z], !exit) && LastOpen(g1, !exit, z) == -1
    ensures Held(B0 + B1, SpliceLeft(v0, g0, exit, B1[0]) + SpliceRight(v1, z, exit, B0[|B0| - 1]), Patch(g0, exit) + g1)
  {
    var w0, w1 := SpliceLeft(v0, g0, exit, B1[0]), SpliceRight(v1, z, exit, B0[|B0| - 1]);
    assert NodeHeld(B0, v0, g0, |g0| - 1);
    forall i | 0 <= i < |g0| + |g1| ensures NodeHeld(B0 + B1, w0 + w1, Patch(g0, exit) + g1, i) {
      if i < |g0| {
        SpliceHeldLeft(B0, v0, g0, B1, w1, g1, exit, i);
      } else {
        SpliceHeldRight(B0, w0, g0, B1, v1, g1, exit, z, i - |g0|);
      }
    }
  }

  ghost predicate Apart(b0: Block, b1: Block)
    reads b0, b1
  {
    forall x :: x in b0.blocks ==> x !in b1.blocks
  }

  lemma {:induction false} SpliceLeftSteps(v: seq<View>, g: seq<Node>, target: Block)
    requires |v| == |g| > 0
    requires forall i :: 0 <= i < |g| && HasOpen(g[i], true) ==> v[i].Side(i == |g| - 1, true) == !v[i].sense
    ensures FlipLast(Patched(v, g, true, target)) == SpliceLeft(v, g, true, target)
  {}

  lemma {:induction false} SpliceLeftStepsOr(v: seq<View>, g: seq<Node>, target: Block)
    requires |v| == |g| > 0
    requires forall i :: 0 <= i < |g| && HasOpen(g[i], false) ==> g[i].E(v[i].Side(i == |g| - 1, false)) == Open(false)
    ensures FlipLast(Patched(FlipLast(v), g, false, target)) == SpliceLeft(v, g, false, target)
  {}

  lemma {:induction false} SpliceRightSteps(v: seq<View>, z: nat, left: Block)
    requires z < |v|
    ensures var w := FlipLast(v); FlipLast(w[z := w[z].Set(!w[z].sense, left)]) == SpliceRight(v, z, true, left)
  {}

  lemma {:induction false} SpliceRightStepsOr(v: seq<View>, z: nat, left: Block)
    requires z < |v|
    ensures v[z := v[z].Set(!v[z].sense, left)] == SpliceRight(v, z, false, left)
  {}

  twostate lemma {:induction false} Untouched(blocks: seq<Block>)
    requires forall x :: x in blocks ==> x.Now() == old(x.Now())
    ensures Views(blocks) == old(Views(blocks))
  {}

  // The right block takes over the entry of the left one, and the spliced blocks are one fragment.
  method TakeHead(b0: Block, b1: Block, ghost e: Expr, ghost B0: seq<Block>, ghost B1: seq<Block>, ghost v: seq<View>)
    requires |B0| > 0 && Distinct(B0) && b0 in B0 && b0.head == B0[0]
    requires |B1| > 0 && Distinct(B1) && B1[|B1| - 1] == b1 && forall x :: x in B0 ==> x !in B1
    requires v == Views(B0) + Views(B1) && Held(B0 + B1, v, Compile(e))
    modifies b1`head, b1`expr, b1`blocks
    ensures b1.Valid() && b1.expr == e && b1.blocks == B0 + B1
  {
    assert forall i :: 0 <= i < |B0| ==> B0[i] in B0;
    assert forall i :: 0 <= i < |B1| ==> B1[i] in B1;
    b1.head := b0.head;
    b1.expr := e;
    b1.blocks := B0 + B1;
    assert Views(b1.blocks) == v;
  }

  // `b` is the last of the blocks, which hold `g`.
  ghost predicate Ends(b: Block, blocks: seq<Block>, g: seq<Node>)
    reads blocks
  {
    |blocks| > 0 && blocks[|blocks| - 1] == b && Distinct(blocks) && Held(blocks, Views(blocks), g)
  }

  // Send the true exits of the left operand of an and to the right operand.
  method LeftOfAnd(b0: Block, target: Block, ghost B0: seq<Block>, ghost g0: seq<Node>)
    requires Ends(b0, B0, g0)
    modifies B0`jt, B0`jf, b0`sense
    ensures Views(B0) == SpliceLeft(old(Views(B0)), g0, true, target)
  {
    ghost var v0 := Views(B0);
    OpenEnds(b0, B0, g0);
    hide *;
    HeldWalkable(B0, v0, g0, true);
    Backpatch(b0, target, B0, g0, true);
    FlipSense(b0, B0);
    SpliceLeftSteps(v0, g0, target);
  }

  // Send the false exits of the left operand of an or to the right operand.
  method LeftOfOr(b0: Block, target: Block, ghost B0: seq<Block>, ghost g0: seq<Node>)
    requires Ends(b0, B0, g0)
    modifies B0`jt, B0`jf, b0`sense
    ensures Views(B0) == SpliceLeft(old(Views(B0)), g0, false, target)
  {
    ghost var v0 := Views(B0);
    OpenEnds(b0, B0, g0);
    hide *;
    HeldWalkable(B0, v0, g0, false);
    FlipSense(b0, B0);
    Backpatch(b0, target, B0, g0, false);
    FlipSense(b0, B0);
    SpliceLeftStepsOr(v0, g0, target);
  }

  // Hang the chain of false exits of `b0` on that of the right operand of an and.
  method RightOfAnd(b1: Block, b0: Block, ghost B1: seq<Block>, ghost g1: seq<Node>) returns (ghost z: nat)
    requires Ends(b1, B1, g1)
    modifies B1`jt, B1`jf, b1`sense
    ensures z < |g1| == |B1| && HasOpen(g1[z], false) && LastOpen(g1, false, z) == -1
    ensures Views(B1) == SpliceRight(old(Views(B1)), z, true, b0)
  {
    ghost var v1 := Views(B1);
    OpenEnds(b1, B1, g1);
    hide *;
    HeldWalkable(B1, v1, g1, false);
    FlipSense(b1, B1);
    ghost var low := Merge(b1, b0, B1, g1, false);
    FlipSense(b1, B1);
    z := low;
    SpliceRightSteps(v1, z, b0);
  }

  // Hang the chain of true exits of `b0` on that of the right operand of an or.
  method RightOfOr(b1: Block, b0: Block, ghost B1: seq<Block>, ghost g1: seq<Node>) returns (ghost z: nat)
    requires Ends(b1, B1, g1)
    modifies B1`jt, B1`jf
    ensures z < |g1| == |B1| && HasOpen(g1[z], true) && LastOpen(g1, true, z) == -1
    ensures Views(B1) == SpliceRight(old(Views(B1)), z, false, b0)
  {
    ghost var v1 := Views(B1);
    OpenEnds(b1, B1, g1);
    hide *;
    HeldWalkable(B1, v1, g1, true);
    ghost var low := Merge(b1, b0, B1, g1, true);
    z := low;
    SpliceRightStepsOr(v1, z, b0);
  }

  lemma {:induction false} OpenEnds(b: Block, blocks: seq<Block>, g: seq<Node>)
    requires Ends(b, blocks, g)
    ensures |blocks| == |g| > 0 && blocks[|blocks| - 1] == b && Distinct(blocks) && Held(blocks, Views(blocks), g)
  {}

  lemma {:induction false} ValidEnds(b: Block)
    requires b.Valid()
    ensures Ends(b, b.blocks, Compile(b.expr)) && b.head == b.blocks[0] && b in b.blocks
    ensures Held(b.blocks, Views(b.blocks), Compile(b.expr))
  {}

  method GenAnd(b0: Block, b1: Block)
    requires b0.Valid() && b1.Valid() && Apart(b0, b1)
    modifies b0.blocks, b1.blocks
    ensures b1.Valid() && b1.expr == And(old(b0.expr), old(b1.expr))
    ensures b1.blocks == old(b0.blocks + b1.blocks)
  {
    ghost var B0, B1, e0, e1 := b0.blocks, b1.blocks, b0.expr, b1.expr;
    ghost var v0, v1, g0, g1 := Views(B0), Views(B1), Compile(e0), Compile(e1);
    ValidEnds(b0);
    ValidEnds(b1);
    OpenApart(b0, b1);
    hide *;
    OpenEnds(b0, B0, g0);
    OpenEnds(b1, B1, g1);
    LeftOfAnd(b0, b1.head, B0, g0);
    Untouched(B1);
    label Left:
    ghost var z := RightOfAnd(b1, b0, B1, g1);
    Untouched@Left(B0);
    CompileJoint(e0, e1);
    SpliceHeld(B0, v0, g0, B1, v1, g1, true, z);
    TakeHead(b0, b1, And(e0, e1), B0, B1, Views(B0) + Views(B1));
  }

  method GenOr(b0: Block, b1: Block)
    requires b0.Valid() && b1.Valid() && Apart(b0, b1)
    modifies b0.blocks, b1.blocks
    ensures b1.Valid() && b1.expr == Or(old(b0.expr), old(b1.expr))
    ensures b1.blocks == old(b0.blocks + b1.blocks)
  {
    ghost var B0, B1, e0, e1 := b0.blocks, b1.blocks, b0.expr, b1.expr;
    ghost var v0, v1, g0, g1 := Views(B0), Views(B1), Compile(e0), Compile(e1);
    ValidEnds(b0);
    ValidEnds(b1);
    OpenApart(b0, b1);
    hide *;
    OpenEnds(b0, B0, g0);
    OpenEnds(b1, B1, g1);
    LeftOfOr(b0, b1.head, B0, g0);
    Untouched(B1);
    label Left:
    ghost var z := RightOfOr(b1, b0, B1, g1);
    Untouched@Left(B0);
    CompileJoint(e0, e1);
    SpliceHeld(B0, v0, g0, B1, v1, g1, false, z);
    TakeHead(b0, b1, Or(e0, e1), B0, B1, Views(B0) + Views(B1));
  }

  lemma {:induction false} OpenApart(b0: Block, b1: Block)
    requires Apart(b0, b1)
    ensures forall x :: x in b0.blocks ==> x !in b1.blocks
  {}

  lemma {:induction false} CompileJoint(e0: Expr, e1: Expr)
    ensures Compile(And(e0, e1)) == Patch(Compile(e0), true) + Compile(e1)
    ensures Compile(Or(e0, e1)) == Patch(Compile(e0), false) + Compile(e1)
  {}
}
