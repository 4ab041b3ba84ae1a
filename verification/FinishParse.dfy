/** Closing the branch graph, and what a run that follows its pointers returns. */
module FinishParse {
  import opened Words
  import opened Bpf
  import opened Filter
  import opened Blocks

  // What a finished graph returns; `Lost` would be a pointer that leads nowhere.
  datatype Result = Returned(k: Word) | Lost

  // The fields of the blocks at one moment.
  type Store = map<Block, View>

  ghost function Contents(blocks: seq<Block>): Store
    reads blocks
  {
    map x | x in blocks :: x.Now()
  }

  // Follow the pointers of `st` from `b`, at most `fuel` blocks deep.
  ghost function Follow(b: Block?, fuel: nat, p: Packet, m: Machine, st: Store): Result
    decreases fuel
  {
    if b == null || fuel == 0 then Lost
    else match b.body
      case Ret(k) => Returned(k)
      case Branch(t) =>
        match RunTest(t, p, m)
        case Rejected => Returned(0)
        case Answer(v, m') => if b in st then Follow(st[b].To(v), fuel - 1, p, m', st) else Lost
  }

  // The value a filter returns: a rejected packet and a false answer both yield 0.
  ghost function Verdict(o: Outcome, snaplen: Word): Result
  {
    match o case Rejected => Returned(0) case Answer(v, _) => Returned(if v then snaplen else 0)
  }

  ghost predicate EdgeClosed(blocks: seq<Block>, v: seq<View>, g: seq<Node>, accept: Block, reject: Block, i: nat,
      s: bool)
    requires i < |blocks| == |v| == |g|
  {
    match g[i].E(s)
    case Open(exit) => v[i].To(s) == if exit then accept else reject
    case Skip(d) => i + d < |g| && v[i].To(s) == blocks[i + d]
  }

  // The blocks hold `g`, its true exits sent to `accept` and its false ones to `reject`.
  ghost predicate Closed(blocks: seq<Block>, v: seq<View>, g: seq<Node>, accept: Block, reject: Block)
  {
    && |blocks| == |v| == |g| > 0 && Forward(g)
    && forall i :: 0 <= i < |g| ==>
         && blocks[i].body == Branch(g[i].test)
         && EdgeClosed(blocks, v, g, accept, reject, i, true) && EdgeClosed(blocks, v, g, accept, reject, i, false)
  }

  lemma {:induction false} FollowStep(blocks: seq<Block>, v: seq<View>, g: seq<Node>, i: nat, accept: Block,
      reject: Block,
                                      fuel: nat, p: Packet, m: Machine, st: Store)
    requires Closed(blocks, v, g, accept, reject) && i < |g| && fuel >= 2
    requires accept.body.Ret? && reject.body == Ret(0) && blocks[i] in st && st[blocks[i]] == v[i]
    ensures match RunTest(g[i].test, p, m)
      case Rejected => Follow(blocks[i], fuel, p, m, st) == Verdict(Rejected, accept.body.k)
      case Answer(s, m') =>
        match g[i].E(s)
        case Open(exit) => Follow(blocks[i], fuel, p, m, st) == Verdict(Answer(exit, m'), accept.body.k)
        case Skip(d) => i + d < |g| && Follow(blocks[i], fuel, p, m, st) == Follow(blocks[i + d], fuel - 1, p, m', st)
  {
    hide RunTest;
    match RunTest(g[i].test, p, m)
    case Rejected =>
    case Answer(s, m') =>
      assert EdgeClosed(blocks, v, g, accept, reject, i, s);
      assert Follow(blocks[i], fuel, p, m, st) == Follow(v[i].To(s), fuel - 1, p, m', st);
  }

  lemma {:induction false} FollowClosed(blocks: seq<Block>, v: seq<View>, g: seq<Node>, i: nat, accept: Block,
      reject: Block,
                                        fuel: nat, p: Packet, m: Machine, st: Store)
    requires Closed(blocks, v, g, accept, reject) && Forward(g) && i < |g| == |blocks| == |v| && fuel > |g| - i
    requires accept.body.Ret? && reject.body == Ret(0)
    requires forall k :: 0 <= k < |blocks| ==> blocks[k] in st && st[blocks[k]] == v[k]
    ensures Follow(blocks[i], fuel, p, m, st) == Verdict(RunFrom(g, i, p, m), accept.body.k)
    decreases |g| - i
  {
    hide *;
    RunStep(g, i, p, m);
    FollowStep(blocks, v, g, i, accept, reject, fuel, p, m, st);
    var o := RunTest(g[i].test, p, m);
    if o.Answer? && g[i].E(o.verdict).Skip? {
      FollowClosed(blocks, v, g, i + g[i].E(o.verdict).dist, accept, reject, fuel - 1, p, o.m, st);
    }
  }

  // Backpatching both chains of a fragment closes it.
  lemma {:induction false} PatchedBoth(blocks: seq<Block>, v: seq<View>, g: seq<Node>, accept: Block, reject: Block)
    requires Held(blocks, v, g) && Forward(g)
    ensures Walkable(blocks, FlipLast(Patched(v, g, true, accept)), g, false)
    ensures Closed(blocks, Patched(FlipLast(Patched(v, g, true, accept)), g, false, reject), g, accept, reject)
  {
    HeldWalkable(blocks, v, g, true);
    HeldWalkable(blocks, v, g, false);
    var u := FlipLast(Patched(v, g, true, accept));
    var w := Patched(u, g, false, reject);
    forall i | 0 <= i < |g|
      ensures HasOpen(g[i], false) ==> u[i].To(!u[i].sense) == At(blocks, LastOpen(g, false, i))
      ensures EdgeClosed(blocks, w, g, accept, reject, i, true) && EdgeClosed(blocks, w, g, accept, reject, i, false)
      ensures blocks[i].body == Branch(g[i].test)
    {
      assert NodeHeld(blocks, v, g, i);
    }
  }

  // Every pointer of a block leads to a return block or to a later block of the same graph.
  ghost predicate GoesForward(blocks: seq<Block>, accept: Block, reject: Block, i: nat)
    requires i < |blocks|
    reads blocks
  {
    && (blocks[i].jt == accept || blocks[i].jt == reject || blocks[i].jt in blocks[i + 1..])
    && (blocks[i].jf == accept || blocks[i].jf == reject || blocks[i].jf in blocks[i + 1..])
  }

  lemma {:induction false} ClosedForward(blocks: seq<Block>, g: seq<Node>, accept: Block, reject: Block, i: nat)
    requires Closed(blocks, Views(blocks), g, accept, reject) && i < |g|
    ensures GoesForward(blocks, accept, reject, i)
  {
    var v := Views(blocks);
    assert EdgeClosed(blocks, v, g, accept, reject, i, true) && EdgeClosed(blocks, v, g, accept, reject, i, false);
    assert v[i].To(true) == blocks[i].jt && v[i].To(false) == blocks[i].jf;
    assert forall k :: i < k < |blocks| ==> blocks[k] == blocks[i + 1..][k - i - 1];
  }

  /** From the root, following the pointers through at most as many blocks as the expression
      has tests, and one return block, gives what the expression evaluates to. */
  lemma {:induction false} ClosedReturns(blocks: seq<Block>, v: seq<View>, e: Expr, accept: Block, reject: Block,
                                         p: Packet, m: Machine, st: Store)
    requires Closed(blocks, v, Compile(e), accept, reject)
    requires accept.body.Ret? && reject.body == Ret(0)
    requires forall k :: 0 <= k < |blocks| ==> blocks[k] in st && st[blocks[k]] == v[k]
    ensures Follow(blocks[0], |Tests(e)| + 1, p, m, st) == Verdict(Eval(e, p, m), accept.body.k)
  {
    hide RunTest;
    CompileForward(e);
    CompileCorrect(e, p, m);
    FollowClosed(blocks, v, Compile(e), 0, accept, reject, |Tests(e)| + 1, p, m, st);
    assert Compile(e)[0..] == Compile(e);
  }

  // The graph from `root` computes `e`, ending in the two return blocks. There is one block for
  // each test, in order, and every way goes forward through them, so each test runs at most once.
  ghost predicate Computes(root: Block, blocks: seq<Block>, e: Expr, accept: Block, reject: Block)
    reads blocks
  {
    && |blocks| == |Tests(e)| && root == blocks[0] && Distinct(blocks)
    && (forall i :: 0 <= i < |blocks| ==> blocks[i].body == Branch(Tests(e)[i]))
    && (forall i :: 0 <= i < |blocks| ==> GoesForward(blocks, accept, reject, i))
    && accept.body.Ret? && reject.body == Ret(0)
    && var st := Contents(blocks);
       forall p, m :: Follow(root, |Tests(e)| + 1, p, m, st) == Verdict(Eval(e, p, m), accept.body.k)
  }

  lemma {:induction false} AllForward(blocks: seq<Block>, g: seq<Node>, accept: Block, reject: Block)
    requires Closed(blocks, Views(blocks), g, accept, reject)
    ensures |blocks| == |g| && forall i :: 0 <= i < |blocks| ==> GoesForward(blocks, accept, reject, i)
  {
    hide GoesForward, EdgeClosed;
    forall i | 0 <= i < |blocks| ensures GoesForward(blocks, accept, reject, i) {
      ClosedForward(blocks, g, accept, reject, i);
    }
  }

  lemma {:induction false} ClosedComputes(blocks: seq<Block>, e: Expr, accept: Block, reject: Block)
    requires Closed(blocks, Views(blocks), Compile(e), accept, reject) && Distinct(blocks)
    requires accept.body.Ret? && reject.body == Ret(0)
    ensures Computes(blocks[0], blocks, e, accept, reject)
  {
    hide RunTest, GoesForward, EdgeClosed, Compile;
    CompileForward(e);
    var v, st := Views(blocks), Contents(blocks);
    AllForward(blocks, Compile(e), accept, reject);
    forall p, m ensures Follow(blocks[0], |Tests(e)| + 1, p, m, st) == Verdict(Eval(e, p, m), accept.body.k) {
      ClosedReturns(blocks, v, e, accept, reject, p, m, st);
    }
  }

  // Send the true exits to `yes`.
  method CloseTrue(p: Block, yes: Block, ghost B: seq<Block>, ghost g: seq<Node>)
    requires Ends(p, B, g)
    modifies B`jt, B`jf, p`sense
    ensures Views(B) == FlipLast(Patched(old(Views(B)), g, true, yes))
  {
    OpenEnds(p, B, g);
    hide *;
    HeldWalkable(B, Views(B), g, true);
    Backpatch(p, yes, B, g, true);
    FlipSense(p, B);
  }

  // Then the false exits to `no`: no exit is open any more.
  method CloseFalse(p: Block, yes: Block, no: Block, ghost B: seq<Block>, ghost g: seq<Node>, ghost v: seq<View>)
    requires Held(B, v, g) && Forward(g) && Distinct(B) && |B| == |v| == |g| > 0 && B[|B| - 1] == p
    requires Views(B) == FlipLast(Patched(v, g, true, yes))
    modifies B`jt, B`jf
    ensures Closed(B, Views(B), g, yes, no)
  {
    assert At(B, |B| - 1) == p;
    hide *;
    PatchedBoth(B, v, g, yes, no);
    HeldWalkable(B, v, g, false);
    Backpatch(p, no, B, g, false);
  }

  // Send the true exits of `p` to one return block and the false ones to another.
  method Close(p: Block, snaplen: Word) returns (root: Block, ghost accept: Block, ghost reject: Block)
    requires p.Valid()
    modifies p.blocks`jt, p.blocks`jf, p`sense
    ensures fresh(accept) && fresh(reject) && accept.body == Ret(snaplen)
    ensures Computes(root, p.blocks, p.expr, accept, reject)
  {
    ghost var B, e, g, v := p.blocks, p.expr, Compile(p.expr), Views(p.blocks);
    ValidEnds(p);
    hide *;
    OpenEnds(p, B, g);
    CompileForward(e);
    root := p.head;
    var yes := new Block(Ret(snaplen));
    Untouched(B);
    CloseTrue(p, yes, B, g);
    label Half:
    var no := new Block(Ret(0));
    Untouched@Half(B);
    CloseFalse(p, yes, no, B, g, v);
    ClosedComputes(B, e, yes, no);
    accept, reject := yes, no;
  }

  /** Close the fragment `p`, after the check that a per-packet header calls for, if any. */
  method FinishParse(p: Block, ppiCheck: Block?, snaplen: Word)
    returns (root: Block, ghost accept: Block, ghost reject: Block)
    requires p.Valid()
    requires ppiCheck != null ==> ppiCheck.Valid() && Apart(ppiCheck, p)
    modifies p.blocks, if ppiCheck != null then ppiCheck.blocks else []
    ensures p.expr == if ppiCheck != null then And(old(ppiCheck.expr), old(p.expr)) else old(p.expr)
    ensures p.blocks == old((if ppiCheck != null then ppiCheck.blocks else []) + p.blocks)
    ensures fresh(accept) && fresh(reject) && accept.body == Ret(snaplen)
    ensures Computes(root, p.blocks, p.expr, accept, reject)
  {
    if ppiCheck != null {
      GenAnd(ppiCheck, p);
    }
    hide *;
    assert p.blocks == old((if ppiCheck != null then ppiCheck.blocks else []) + p.blocks);
    root, accept, reject := Close(p, snaplen);
  }
}
