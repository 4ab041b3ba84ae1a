/** Filter expressions, their meaning, and the branch graph they are compiled to, as values. */
module Filter {
  import opened Bpf

  // What one block does: run its statements, then branch on the condition.
  datatype Test = Test(stmts: seq<Instr>, cond: Cond)

  datatype Expr = Leaf(test: Test) | And(l: Expr, r: Expr) | Or(l: Expr, r: Expr) | Not(e: Expr)

  datatype Outcome = Rejected | Answer(verdict: bool, m: Machine)

  function RunTest(t: Test, p: Packet, m: Machine): Outcome
  {
    match Exec(t.stmts, p, m)
    case None => Rejected
    case Some(m') => Answer(Holds(t.cond, m'), m')
  }

  /** Left-to-right, short-circuit evaluation: `m` is handed from test to test, and a test
      that rejects the packet ends the evaluation. */
  function Eval(e: Expr, p: Packet, m: Machine): Outcome
  {
    match e
    case Leaf(t) => RunTest(t, p, m)
    case And(l, r) =>
      (match Eval(l, p, m)
       case Answer(true, m') => Eval(r, p, m')
       case other => other)
    case Or(l, r) =>
      (match Eval(l, p, m)
       case Answer(false, m') => Eval(r, p, m')
       case other => other)
    case Not(e1) => Negated(Eval(e1, p, m))
  }

  function Negated(o: Outcome): Outcome
  {
    match o case Rejected => Rejected case Answer(v, m) => Answer(!v, m)
  }

  // What the expression says when each test is true or false.
  ghost function Truth(e: Expr, holds: Test -> bool): bool
  {
    match e
    case Leaf(t) => holds(t)
    case And(l, r) => Truth(l, holds) && Truth(r, holds)
    case Or(l, r) => Truth(l, holds) || Truth(r, holds)
    case Not(e1) => !Truth(e1, holds)
  }

  function Tests(e: Expr): (ts: seq<Test>)
    ensures |ts| > 0
  {
    match e
    case Leaf(t) => [t]
    case And(l, r) => Tests(l) + Tests(r)
    case Or(l, r) => Tests(l) + Tests(r)
    case Not(e1) => Tests(e1)
  }

  // Whatever the machine holds, the test does not reject the packet, and is as `holds` says.
  ghost predicate Decides(t: Test, p: Packet, holds: Test -> bool)
  {
    forall m :: RunTest(t, p, m).Answer? && RunTest(t, p, m).verdict == holds(t)
  }

  /** When the tests only look at the packet and reject nothing, evaluation answers what the
      expression says of their truth. */
  lemma {:induction false} EvalTruth(e: Expr, p: Packet, m: Machine, holds: Test -> bool)
    requires forall t :: t in Tests(e) ==> Decides(t, p, holds)
    ensures Eval(e, p, m).Answer? && Eval(e, p, m).verdict == Truth(e, holds)
  {
    hide RunTest;
    match e
    case Leaf(t) =>
      assert t in Tests(e);
    case And(l, r) =>
      EvalTruth(l, p, m, holds);
      if Truth(l, holds) { EvalTruth(r, p, Eval(l, p, m).m, holds); }
    case Or(l, r) =>
      EvalTruth(l, p, m, holds);
      if !Truth(l, holds) { EvalTruth(r, p, Eval(l, p, m).m, holds); }
    case Not(e1) =>
      EvalTruth(e1, p, m, holds);
  }

  // An exit of a block is still open, for true or for false, or goes `by` blocks forward.
  datatype Edge = Open(exit: bool) | Skip(dist: nat)

  // A graph is the sequence of its blocks in left-to-right order of the tests; its first block is
  // the entry and its last block is the one the code generator passes around.
  datatype Node = Node(test: Test, t: Edge, f: Edge) {
    function E(side: bool): Edge { if side then t else f }
  }

  ghost predicate Forward(g: seq<Node>)
  {
    forall i, s {:trigger g[i].E(s)} :: 0 <= i < |g| && g[i].E(s).Skip? ==> 1 <= g[i].E(s).dist < |g| - i
  }

  // Follow the graph from its entry to an open exit.
  ghost function Run(g: seq<Node>, p: Packet, m: Machine): Outcome
    requires |g| > 0 && Forward(g)
    decreases |g|
  {
    match RunTest(g[0].test, p, m)
    case Rejected => Rejected
    case Answer(v, m') =>
      match g[0].E(v)
      case Open(exit) => Answer(exit, m')
      case Skip(d) => ForwardSuffix(g, d); Run(g[d..], p, m')
  }

  lemma {:induction false} ForwardSuffix(g: seq<Node>, d: nat)
    requires Forward(g) && d <= |g|
    ensures Forward(g[d..])
  {
    forall i, s | 0 <= i < |g[d..]| && g[d..][i].E(s).Skip?
      ensures 1 <= g[d..][i].E(s).dist < |g[d..]| - i
    {
      assert g[d..][i] == g[d + i];
      assert g[d + i].E(s).Skip?;
    }
  }

  // Run from block `i` on.
  ghost function RunFrom(g: seq<Node>, i: nat, p: Packet, m: Machine): Outcome
    requires Forward(g) && i < |g|
  {
    ForwardSuffix(g, i);
    Run(g[i..], p, m)
  }

  lemma {:induction false} RunStep(g: seq<Node>, i: nat, p: Packet, m: Machine)
    requires Forward(g) && i < |g|
    ensures match RunTest(g[i].test, p, m)
      case Rejected => RunFrom(g, i, p, m) == Rejected
      case Answer(v, m') =>
        match g[i].E(v)
        case Open(exit) => RunFrom(g, i, p, m) == Answer(exit, m')
        case Skip(d) => 1 <= d < |g| - i && RunFrom(g, i, p, m) == RunFrom(g, i + d, p, m')
  {
    hide RunTest;
    ForwardSuffix(g, i);
    assert g[i..][0] == g[i];
    match RunTest(g[i].test, p, m)
    case Rejected =>
    case Answer(v, m') =>
      match g[i].E(v)
      case Open(exit) =>
      case Skip(d) =>
        assert g[i].E(v).Skip?;
        ForwardSuffix(g, i + d);
        assert g[i..][d..] == g[i + d..];
  }

  function PatchEdge(e: Edge, exit: bool, dist: nat): Edge
  {
    if e == Open(exit) then Skip(dist) else e
  }

  // Send every open `exit` exit to the block just after the graph.
  function Patch(g: seq<Node>, exit: bool): (r: seq<Node>)
    ensures |r| == |g|
  {
    seq(|g|, i requires 0 <= i < |g| =>
      Node(g[i].test, PatchEdge(g[i].t, exit, |g| - i), PatchEdge(g[i].f, exit, |g| - i)))
  }

  function FlipEdge(e: Edge): Edge
  {
    match e case Open(b) => Open(!b) case Skip(_) => e
  }

  function Flip(g: seq<Node>): (r: seq<Node>)
    ensures |r| == |g|
  {
    seq(|g|, i requires 0 <= i < |g| => Node(g[i].test, FlipEdge(g[i].t), FlipEdge(g[i].f)))
  }

  lemma {:induction false} PatchEdges(g: seq<Node>, exit: bool)
    ensures forall i, s :: 0 <= i < |g| ==> Patch(g, exit)[i].E(s) == PatchEdge(g[i].E(s), exit, |g| - i)
  {}

  function Compile(e: Expr): (g: seq<Node>)
    ensures |g| > 0
  {
    match e
    case Leaf(t) => [Node(t, Open(true), Open(false))]
    case And(l, r) => Patch(Compile(l), true) + Compile(r)
    case Or(l, r) => Patch(Compile(l), false) + Compile(r)
    case Not(e1) => Flip(Compile(e1))
  }

  lemma {:induction false} ForwardPatched(g: seq<Node>, exit: bool, h: seq<Node>)
    requires Forward(g) && Forward(h) && |h| > 0
    ensures Forward(Patch(g, exit) + h)
  {
    var r := Patch(g, exit) + h;
    forall i, s | 0 <= i < |r| && r[i].E(s).Skip?
      ensures 1 <= r[i].E(s).dist < |r| - i
    {
      if i < |g| {
        assert r[i].E(s) == PatchEdge(g[i].E(s), exit, |g| - i);
      } else {
        assert r[i] == h[i - |g|];
        assert h[i - |g|].E(s).Skip?;
      }
    }
  }

  lemma {:induction false} ForwardFlipped(g: seq<Node>)
    requires Forward(g)
    ensures Forward(Flip(g))
  {
    forall i, s | 0 <= i < |g| && Flip(g)[i].E(s).Skip?
      ensures 1 <= Flip(g)[i].E(s).dist < |g| - i
    {
      assert g[i].E(s) == Flip(g)[i].E(s);
    }
  }

  lemma {:induction false} CompileForward(e: Expr)
    ensures Forward(Compile(e))
    ensures |Compile(e)| == |Tests(e)|
    ensures forall i :: 0 <= i < |Tests(e)| ==> Compile(e)[i].test == Tests(e)[i]
  {
    match e
    case Leaf(t) =>
    case And(l, r) =>
      CompileForward(l);
      CompileForward(r);
      ForwardPatched(Compile(l), true, Compile(r));
    case Or(l, r) =>
      CompileForward(l);
      CompileForward(r);
      ForwardPatched(Compile(l), false, Compile(r));
    case Not(e1) =>
      CompileForward(e1);
      ForwardFlipped(Compile(e1));
  }

  lemma {:induction false} PatchSuffix(g: seq<Node>, exit: bool, d: nat)
    requires d <= |g|
    ensures Patch(g, exit)[d..] == Patch(g[d..], exit)
  {}

  lemma {:induction false} RunPatched(g: seq<Node>, exit: bool, h: seq<Node>, p: Packet, m: Machine)
    requires |g| > 0 && |h| > 0 && Forward(g) && Forward(h) && Forward(Patch(g, exit) + h)
    ensures Run(Patch(g, exit) + h, p, m) ==
            match Run(g, p, m)
            case Rejected => Rejected
            case Answer(v, m') => if v == exit then Run(h, p, m') else Answer(v, m')
    decreases |g|
  {
    hide RunTest;
    var r := Patch(g, exit) + h;
    assert r[0].test == g[0].test;
    match RunTest(g[0].test, p, m)
    case Rejected =>
    case Answer(v, m') =>
      assert r[0].E(v) == PatchEdge(g[0].E(v), exit, |g|);
      match g[0].E(v)
      case Open(b) =>
        assert r[|g|..] == h;
      case Skip(d) =>
        assert g[0].E(v).Skip?;
        ForwardSuffix(g, d);
        ForwardSuffix(r, d);
        PatchSuffix(g, exit, d);
        assert r[d..] == Patch(g[d..], exit) + h;
        RunPatched(g[d..], exit, h, p, m');
  }

  lemma {:induction false} RunFlipped(g: seq<Node>, p: Packet, m: Machine)
    requires |g| > 0 && Forward(g) && Forward(Flip(g))
    ensures Run(Flip(g), p, m) == Negated(Run(g, p, m))
    decreases |g|
  {
    hide RunTest;
    match RunTest(g[0].test, p, m)
    case Rejected =>
    case Answer(v, m') =>
      assert Flip(g)[0].E(v) == FlipEdge(g[0].E(v));
      match g[0].E(v)
      case Open(b) =>
      case Skip(d) =>
        ForwardSuffix(g, d);
        assert Flip(g)[d..] == Flip(g[d..]);
        ForwardSuffix(Flip(g), d);
        RunFlipped(g[d..], p, m');
  }

  /** The compiled graph, followed from its entry, leaves by the exit the expression answers
      and rejects exactly when the evaluation does. */
  lemma {:induction false} CompileCorrect(e: Expr, p: Packet, m: Machine)
    ensures Forward(Compile(e))
    ensures Run(Compile(e), p, m) == Eval(e, p, m)
    decreases e, 1
  {
    hide RunTest;
    CompileForward(e);
    match e
    case Leaf(t) =>
    case And(l, r) =>
      CompileThen(e, l, true, r, p, m);
    case Or(l, r) =>
      CompileThen(e, l, false, r, p, m);
    case Not(e1) =>
      CompileCorrect(e1, p, m);
      RunFlipped(Compile(e1), p, m);
  }

  lemma {:induction false} CompileThen(e: Expr, l: Expr, v: bool, r: Expr, p: Packet, m: Machine)
    requires e == if v then And(l, r) else Or(l, r)
    requires Forward(Patch(Compile(l), v) + Compile(r))
    ensures Run(Patch(Compile(l), v) + Compile(r), p, m) == Eval(e, p, m)
    decreases e, 0
  {
    hide RunTest;
    CompileForward(l);
    CompileForward(r);
    CompileCorrect(l, p, m);
    RunPatched(Compile(l), v, Compile(r), p, m);
    match Eval(l, p, m)
    case Rejected =>
    case Answer(v', m') => CompileCorrect(r, p, m');
  }
}
