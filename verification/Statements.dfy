/** Statement lists, linked on the heap and appended in place. */
module Statements {
  import opened Bpf

  class Slist {
    const s: Instr
    var next: Slist?

    constructor (s: Instr)
      ensures this.s == s && next == null && IsList(this, [this]) && Code([this]) == [s]
    {
      this.s := s;
      next := null;
    }
  }

  ghost function After(p: seq<Slist>, k: nat): Slist?
  {
    if k + 1 < |p| then p[k + 1] else null
  }

  // The statements from `head` to the end of its list are `p`.
  ghost predicate IsList(head: Slist, p: seq<Slist>)
    reads p
  {
    && |p| > 0 && p[0] == head
    && (forall k :: 0 <= k < |p| ==> p[k].next == After(p, k))
    && forall i, j :: 0 <= i < j < |p| ==> p[i] != p[j]
  }

  ghost function Code(p: seq<Slist>): (c: seq<Instr>)
    ensures |c| == |p|
  {
    if p == [] then [] else [p[0].s] + Code(p[1..])
  }

  lemma {:induction false} CodeConcat(p: seq<Slist>, q: seq<Slist>)
    ensures Code(p + q) == Code(p) + Code(q)
  {
    if p == [] {
      assert p + q == q;
    } else {
      assert (p + q)[1..] == p[1..] + q;
      CodeConcat(p[1..], q);
    }
  }

  // Append the list `s1` to the list `s0`, which it becomes part of.
  method Sappend(s0: Slist, s1: Slist, ghost p0: seq<Slist>, ghost p1: seq<Slist>)
    requires IsList(s0, p0) && IsList(s1, p1) && forall x :: x in p0 ==> x !in p1
    modifies {p0[|p0| - 1]}`next
    ensures IsList(s0, p0 + p1) && Code(p0 + p1) == Code(p0) + Code(p1)
  {
    var z: Slist := s0;
    ghost var k := 0;
    while z.next != null
      invariant 0 <= k < |p0| && z == p0[k] && IsList(s0, p0)
      decreases |p0| - k
    {
      z := z.next;
      k := k + 1;
    }
    z.next := s1;
    CodeConcat(p0, p1);
    assert forall i :: 0 <= i < |p0| ==> p0[i] in p0;
    assert forall i :: 0 <= i < |p1| ==> p1[i] in p1;
  }
}
