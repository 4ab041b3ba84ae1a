/** The parser's actions: a filter expression is compiled bottom up, left to right. */
module Parser {
  import opened Words
  import opened Filter
  import opened Blocks
  import opened FinishParse

  method GenExpr(e: Expr) returns (b: Block)
    ensures b.Valid() && fresh(b.blocks) && b.expr == e
    decreases e
  {
    match e
    case Leaf(t) =>
      b := new Block(Branch(t));
    case And(l, r) =>
      var b0 := GenExpr(l);
      b := GenExpr(r);
      assert Apart(b0, b);
      GenAnd(b0, b);
    case Or(l, r) =>
      var b0 := GenExpr(l);
      b := GenExpr(r);
      assert Apart(b0, b);
      GenOr(b0, b);
    case Not(e1) =>
      b := GenExpr(e1);
      GenNot(b);
  }

  /** A whole filter: whatever the expression, the finished graph returns the snapshot length
      for the packets the expression accepts and 0 for all others. */
  method CompileFilter(e: Expr, snaplen: Word)
    returns (root: Block, ghost blocks: seq<Block>, ghost accept: Block, ghost reject: Block)
    ensures fresh(blocks) && accept.body == Ret(snaplen)
    ensures Computes(root, blocks, e, accept, reject)
  {
    var p := GenExpr(e);
    hide *;
    blocks := p.blocks;
    root, accept, reject := Close(p, snaplen);
  }
}
