/** The sixteen scratch registers and their allocator. */
module Registers {
  const MEMWORDS: nat := 16

  // The register `d` places after `start`, going round.
  function Round(start: nat, d: nat): nat { (start + d) % MEMWORDS }

  // `reg` is `k` places after `start`, and the registers before it are in use.
  ghost predicate FirstFree(u: set<nat>, start: nat, k: nat, reg: nat)
  {
    reg == Round(start, k) && reg !in u && forall d: nat :: d < k ==> Round(start, d) in u
  }

  lemma {:induction false} RoundNext(start: nat, d: nat)
    ensures Round(start, d) < 16 && Round(start, d + 1) == (Round(start, d) + 1) % 16
    ensures start < 16 ==> Round(start, 0) == start && Round(start, 16) == start
  {}

  // Going round sixteen times meets every register.
  lemma {:induction false} RoundAll(start: nat, u: set<nat>)
    requires start < 16 && forall d: nat :: d < 16 ==> Round(start, d) in u
    ensures forall r: nat :: r < 16 ==> r in u
  {
    forall r: nat | r < 16 ensures r in u {
      var d := if r >= start then r - start else r + 16 - start;
      assert Round(start, d) == r;
    }
  }

  class Regs {
    const used: array<bool>
    var cur: nat

    ghost predicate Valid()
      reads this
    {
      used.Length == MEMWORDS && cur < MEMWORDS
    }

    ghost function Used(): (u: set<nat>)
      requires Valid()
      reads this, used
      ensures forall r :: r in u ==> 0 <= r < 16
    {
      set r: nat | r < 16 && used[r]
    }

    constructor ()
      ensures Valid() && fresh(used) && Used() == {}
    {
      used := new bool[MEMWORDS](_ => false);
      cur := 0;
    }

    // The first free register at or after the current one, going round; None when all are in use.
    method AllocReg() returns (ok: bool, reg: nat)
      requires Valid()
      modifies this`cur, used
      ensures Valid() && (ok <==> exists r: nat :: r < 16 && r !in old(Used()))
      ensures ok ==> reg < 16 && reg !in old(Used()) && Used() == old(Used()) + {reg} && cur == reg
      ensures ok ==> exists k: nat :: k < MEMWORDS && FirstFree(old(Used()), old(cur), k, reg)
      ensures !ok ==> Used() == old(Used()) && cur == old(cur)
    {
      hide Round;
      ghost var start, u := cur, Used();
      RoundNext(start, 0);
      var n: int := MEMWORDS;
      n := n - 1;
      while n >= 0
        invariant -1 <= n < MEMWORDS && Valid() && cur == Round(start, MEMWORDS - 1 - n)
        invariant used[..] == old(used[..])
        invariant forall d: nat :: d < MEMWORDS - 1 - n ==> Round(start, d) in u
        decreases n
      {
        RoundNext(start, MEMWORDS - 1 - n);
        if used[cur] {
          cur := (cur + 1) % MEMWORDS;
        } else {
          assert FirstFree(u, start, MEMWORDS - 1 - n, cur);
          used[cur] := true;
          return true, cur;
        }
        n := n - 1;
      }
      RoundAll(start, u);
      return false, 0;
    }

    method FreeReg(n: nat)
      requires Valid() && n < 16
      modifies used
      ensures Used() == old(Used()) - {n}
    {
      used[n] := false;
    }
  }
}
