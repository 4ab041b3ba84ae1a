/** What one bin of the sample table goes through in a run: each bin has room for one flow,
    and a flow of a higher level may take it over. */
module Sampling {
  import opened Words
  import opened Flow

  datatype Slot = Empty | Held(key: FlowSrc, level: int, value: Word)

  datatype Event =
    | Add(key: FlowSrc, delta: Word)
    | AddLevel(key: FlowSrc, delta: Word, level: int)
    | Signal(key: FlowSrc, level: int)
    | Del(key: FlowSrc)
    | Refresh

  function Step(replacement: bool, s: Slot, e: Event): Slot
  {
    match e
    case Add(k, d) =>
      if s.Empty? then Held(k, 0, d)
      else if k == s.key then s.(value := Wrap(s.value + d))
      else s
    case AddLevel(k, d, l) =>
      if s.Empty? then Held(k, l, d)
      else if k == s.key then Held(k, l, Wrap(s.value + d))
      else if replacement && s.level < l then Held(k, l, d)
      else s
    case Signal(k, l) =>
      if s.Empty? then if replacement && l > 0 then Held(k, l, 0) else s
      else if k == s.key then s.(level := l)
      else if l != 0 && replacement && (s.level < l || (s.level == l && s.value == 0)) then Held(k, l, 0)
      else s
    case Del(k) => if s.Held? && k == s.key then Empty else s
    case Refresh => Empty
  }

  predicate Concerns(hash: FlowSrc -> nat, b: nat, e: Event) { e.Refresh? || hash(e.key) == b }

  // Bin `b` after a run.
  function After(replacement: bool, hash: FlowSrc -> nat, b: nat, es: seq<Event>): Slot
  {
    if es == [] then Empty
    else
      var s := After(replacement, hash, b, es[..|es| - 1]);
      if Concerns(hash, b, es[|es| - 1]) then Step(replacement, s, es[|es| - 1]) else s
  }

  lemma {:induction false} AfterNext(replacement: bool, hash: FlowSrc -> nat, b: nat, es: seq<Event>, e: Event)
    ensures After(replacement, hash, b, es + [e]) ==
      var s := After(replacement, hash, b, es); if Concerns(hash, b, e) then Step(replacement, s, e) else s
  {
    assert (es + [e])[..|es|] == es;
  }

  // The event is turned away by, or has to displace, another flow.
  predicate Collides(s: Slot, e: Event)
  {
    s.Held? && match e
    case Add(k, _) => k != s.key
    case AddLevel(k, _, _) => k != s.key
    case Signal(k, l) => k != s.key && l != 0
    case _ => false
  }

  // The collisions since the table was last emptied.
  function Collisions(replacement: bool, hash: FlowSrc -> nat, es: seq<Event>): nat
  {
    if es == [] then 0
    else
      var before, e := es[..|es| - 1], es[|es| - 1];
      if e.Refresh? then 0
      else Collisions(replacement, hash, before) + (if Collides(After(replacement, hash, hash(e.key), before), e) then 1 else 0)
  }

  lemma {:induction false} CollisionsNext(replacement: bool, hash: FlowSrc -> nat, es: seq<Event>, e: Event)
    ensures Collisions(replacement, hash, es + [e]) == if e.Refresh? then 0
      else Collisions(replacement, hash, es) + (if Collides(After(replacement, hash, hash(e.key), es), e) then 1 else 0)
  {
    assert (es + [e])[..|es|] == es;
  }

  // The bins are as the run leaves them.
  ghost predicate Runs(replacement: bool, hash: FlowSrc -> nat, es: seq<Event>, slots: seq<Slot>)
  {
    forall b :: 0 <= b < |slots| ==> slots[b] == After(replacement, hash, b, es)
  }

  lemma {:induction false} RunsNext(replacement: bool, hash: FlowSrc -> nat, es: seq<Event>, slots: seq<Slot>, e: Event)
    requires Runs(replacement, hash, es, slots) && !e.Refresh? && hash(e.key) < |slots|
    ensures Runs(replacement, hash, es + [e], slots[hash(e.key) := Step(replacement, slots[hash(e.key)], e)])
    ensures Collisions(replacement, hash, es + [e]) ==
      Collisions(replacement, hash, es) + (if Collides(slots[hash(e.key)], e) then 1 else 0)
  {
    hide Step, Collides, After, Collisions;
    CollisionsNext(replacement, hash, es, e);
    var slots1 := slots[hash(e.key) := Step(replacement, slots[hash(e.key)], e)];
    forall b | 0 <= b < |slots| ensures slots1[b] == After(replacement, hash, b, es + [e]) {
      AfterNext(replacement, hash, b, es, e);
    }
  }

  lemma {:induction false} RunsRefresh(replacement: bool, hash: FlowSrc -> nat, es: seq<Event>, slots: seq<Slot>)
    requires forall b :: 0 <= b < |slots| ==> slots[b] == Empty
    ensures Runs(replacement, hash, es + [Refresh], slots) && Collisions(replacement, hash, es + [Refresh]) == 0
  {
    CollisionsNext(replacement, hash, es, Refresh);
    forall b | 0 <= b < |slots| ensures slots[b] == After(replacement, hash, b, es + [Refresh]) {
      AfterNext(replacement, hash, b, es, Refresh);
    }
  }

  /** A flow that has been counted loses its bin to another only with replacement on, and only
      to one of a strictly higher level. */
  lemma {:induction false} DisplacedByHigher(replacement: bool, s: Slot, e: Event)
    requires s.Held? && s.value > 0
    ensures var t := Step(replacement, s, e); t.Held? && t.key != s.key ==> replacement && t.level > s.level
    ensures Step(replacement, s, e).Empty? <==> e.Refresh? || e == Del(s.key)
  {}

  // The flows offered to the bin since it was last cleared.
  ghost function Offers(replacement: bool, hash: FlowSrc -> nat, b: nat, es: seq<Event>): set<FlowSrc>
  {
    if es == [] then {}
    else
      var before, e := es[..|es| - 1], es[|es| - 1];
      var was := Offers(replacement, hash, b, before);
      if !Concerns(hash, b, e) then was
      else match e
        case Refresh => {}
        case Del(k) => if Step(replacement, After(replacement, hash, b, before), e).Empty? then {} else was
        case _ => was + {e.key}
  }

  ghost predicate NoneBelow(levelOf: FlowSrc -> int)
  {
    forall k :: levelOf(k) >= 0
  }

  // The event carries its flow's constant level. Events that carry none, or a level of 0 as a
  // signal, fit only when no flow's level is below 0.
  ghost predicate Fits(levelOf: FlowSrc -> int, e: Event)
  {
    match e
    case Add(k, _) => levelOf(k) == 0 && NoneBelow(levelOf)
    case AddLevel(k, _, l) => l == levelOf(k)
    case Signal(k, l) => l == levelOf(k) && (l > 0 || NoneBelow(levelOf))
    case _ => true
  }

  /** With replacement on and constant levels, the flow that holds a bin has the highest level
      of all the flows offered to it since it was last cleared. */
  lemma {:induction false} HoldsHighest(hash: FlowSrc -> nat, b: nat, es: seq<Event>, levelOf: FlowSrc -> int)
    requires forall e :: e in es ==> Fits(levelOf, e)
    ensures var s := After(true, hash, b, es);
      s.Held? ==> s.level == levelOf(s.key) && s.key in Offers(true, hash, b, es)
    ensures var s := After(true, hash, b, es);
      forall k :: k in Offers(true, hash, b, es) ==> levelOf(k) <= if s.Held? then s.level else 0
    ensures After(true, hash, b, es).Empty? && Offers(true, hash, b, es) != {} ==> NoneBelow(levelOf)
  {
    if es != [] {
      HoldsHighest(hash, b, es[..|es| - 1], levelOf);
      assert Fits(levelOf, es[|es| - 1]);
    }
  }

  // What an event adds for a flow.
  ghost function DeltaOf(e: Event, k: FlowSrc): Word
  {
    if (e.Add? || e.AddLevel?) && e.key == k then e.delta else 0
  }

  // The volume added for a flow.
  ghost function Volume(es: seq<Event>, k: FlowSrc): nat
  {
    if es == [] then 0
    else
      Volume(es[..|es| - 1], k) + DeltaOf(es[|es| - 1], k)
  }

  lemma {:induction false} VolumeSplit(es: seq<Event>, i: nat, k: FlowSrc)
    requires i <= |es|
    ensures Volume(es, k) == Volume(es[..i], k) + Volume(es[i..], k)
  {
    if i == |es| {
      assert es[..i] == es;
    } else {
      var before := es[..|es| - 1];
      VolumeSplit(before, i, k);
      assert before[..i] == es[..i] && es[i..][..|es| - i - 1] == before[i..];
    }
  }

  ghost predicate HeldBy(s: Slot, k: FlowSrc) { s.Held? && s.key == k }

  lemma {:induction false} StepCounts(replacement: bool, hash: FlowSrc -> nat, b: nat, was: Slot, e: Event, k: FlowSrc)
    requires was.Held? ==> hash(was.key) == b
    ensures var s := if Concerns(hash, b, e) then Step(replacement, was, e) else was;
      && (s.Held? ==> hash(s.key) == b)
      && (HeldBy(s, k) ==> s.value == if HeldBy(was, k) then Wrap(was.value + DeltaOf(e, k)) else DeltaOf(e, k))
  {}

  lemma {:induction false} HeldInBin(replacement: bool, hash: FlowSrc -> nat, b: nat, es: seq<Event>)
    ensures var s := After(replacement, hash, b, es); s.Held? ==> hash(s.key) == b
  {
    if es != [] { HeldInBin(replacement, hash, b, es[..|es| - 1]); }
  }

  // The flow `k` took the bin at event `i` and still holds it at the end.
  ghost predicate HeldSince(replacement: bool, hash: FlowSrc -> nat, b: nat, es: seq<Event>, k: FlowSrc, i: nat)
  {
    && i < |es| && !HeldBy(After(replacement, hash, b, es[..i]), k)
    && forall j :: i < j <= |es| ==> HeldBy(After(replacement, hash, b, es[..j]), k)
  }

  lemma {:induction false} HeldSinceNext(replacement: bool, hash: FlowSrc -> nat, b: nat, es: seq<Event>, e: Event,
      k: FlowSrc, i: nat)
    requires HeldSince(replacement, hash, b, es, k, i) && HeldBy(After(replacement, hash, b, es + [e]), k)
    ensures HeldSince(replacement, hash, b, es + [e], k, i)
    ensures Volume((es + [e])[i..], k) == Volume(es[i..], k) + DeltaOf(e, k)
  {
    hide After, DeltaOf;
    var es1 := es + [e];
    assert es1[..i] == es[..i] && es1[i..] == es[i..] + [e] && es1[..|es1|] == es1;
    forall j | i < j <= |es1| ensures HeldBy(After(replacement, hash, b, es1[..j]), k) {
      if j <= |es| { assert es1[..j] == es[..j]; }
    }
    assert es1[i..][..|es| - i] == es[i..];
  }

  /** The flow that holds a bin took it at some point of the run and has kept it since, and its
      value is the volume added for it since then, up to 32 bits. */
  lemma {:induction false} CountedSinceTaken(replacement: bool, hash: FlowSrc -> nat, b: nat,
      es: seq<Event>) returns (i: nat)
    requires After(replacement, hash, b, es).Held?
    ensures var s := After(replacement, hash, b, es);
      HeldSince(replacement, hash, b, es, s.key, i) && s.value == Wrap(Volume(es[i..], s.key))
  {
    var n := |es| - 1;
    var before, e := es[..n], es[n];
    var s, was := After(replacement, hash, b, es), After(replacement, hash, b, before);
    HeldInBin(replacement, hash, b, before);
    StepCounts(replacement, hash, b, was, e, s.key);
    assert before + [e] == es;
    hide After, Step, Volume, DeltaOf, Concerns, HeldSince, Wrap;
    if HeldBy(was, s.key) {
      i := CountedSinceTaken(replacement, hash, b, before);
      HeldSinceNext(replacement, hash, b, before, e, s.key, i);
      WrapAdd(Volume(before[i..], s.key), DeltaOf(e, s.key));
    } else {
      i := n;
      assert es[i..] == [e];
      HeldSinceNow(replacement, hash, b, before, e, s.key);
      VolumeOne(e, s.key);
    }
  }

  lemma {:induction false} HeldSinceNow(replacement: bool, hash: FlowSrc -> nat, b: nat, es: seq<Event>, e: Event,
      k: FlowSrc)
    requires !HeldBy(After(replacement, hash, b, es), k) && HeldBy(After(replacement, hash, b, es + [e]), k)
    ensures HeldSince(replacement, hash, b, es + [e], k, |es|)
  {
    assert (es + [e])[..|es|] == es && (es + [e])[..|es| + 1] == es + [e];
    hide After;
  }

  lemma {:induction false} VolumeOne(e: Event, k: FlowSrc)
    ensures Volume([e], k) == DeltaOf(e, k) == Wrap(DeltaOf(e, k))
  {
    assert [e][..0] == [];
  }

  lemma {:induction false} WrapAdd(a: nat, d: nat)
    ensures Wrap(Wrap(a) + d) == Wrap(a + d) && Wrap(a) <= a
  {}

  // The level that an event carries for a flow.
  ghost function LevelOf(e: Event, k: FlowSrc): Option<int>
  {
    if (e.AddLevel? || e.Signal?) && e.key == k then Some(e.level) else None
  }

  // The level carried by the last event that carries one for the flow, and 0 when none does.
  ghost function LastLevel(es: seq<Event>, k: FlowSrc): int
  {
    if es == [] then 0
    else
      var l := LevelOf(es[|es| - 1], k);
      if l.Some? then l.value else LastLevel(es[..|es| - 1], k)
  }

  lemma {:induction false} StepLevel(replacement: bool, hash: FlowSrc -> nat, b: nat, was: Slot, e: Event, k: FlowSrc)
    requires was.Held? ==> hash(was.key) == b
    ensures var s := if Concerns(hash, b, e) then Step(replacement, was, e) else was;
      var l := LevelOf(e, k);
      HeldBy(s, k) ==> s.level == if l.Some? then l.value else if HeldBy(was, k) then was.level else 0
  {}

  lemma {:induction false} LastLevelNext(es: seq<Event>, e: Event, k: FlowSrc)
    ensures LastLevel(es + [e], k) == if LevelOf(e, k).Some? then LevelOf(e, k).value else LastLevel(es, k)
    ensures LastLevel([], k) == 0
  {
    assert (es + [e])[..|es|] == es;
  }

  // A flow that held the bin before the last event has held it since the same one.
  lemma {:induction false} HeldSinceBefore(replacement: bool, hash: FlowSrc -> nat, b: nat, es: seq<Event>, e: Event,
      k: FlowSrc, i: nat)
    requires HeldSince(replacement, hash, b, es + [e], k, i)
    ensures HeldBy(After(replacement, hash, b, es + [e]), k) && i <= |es|
    ensures if i == |es| then !HeldBy(After(replacement, hash, b, es), k)
      else HeldBy(After(replacement, hash, b, es), k) && HeldSince(replacement, hash, b, es, k, i)
  {
    hide After;
    var es1 := es + [e];
    assert es1[..|es1|] == es1 && es1[..|es|] == es && es1[..i] == es[..i];
    forall j | i < j <= |es| ensures HeldBy(After(replacement, hash, b, es[..j]), k) {
      assert es1[..j] == es[..j];
    }
    assert es[..|es|] == es;
  }

  /** The level of the flow that holds a bin is the one carried by the last event for it since
      it took the bin, and 0 when none carried one; the value is what was added for it. */
  lemma {:induction false} LevelSinceTaken(replacement: bool, hash: FlowSrc -> nat, b: nat, es: seq<Event>, k: FlowSrc,
      i: nat)
    requires HeldSince(replacement, hash, b, es, k, i)
    ensures After(replacement, hash, b, es) == Held(k, LastLevel(es[i..], k), Wrap(Volume(es[i..], k)))
  {
    var n := |es| - 1;
    var before, e := es[..n], es[n];
    var was := After(replacement, hash, b, before);
    assert before + [e] == es;
    HeldSinceBefore(replacement, hash, b, before, e, k, i);
    HeldInBin(replacement, hash, b, before);
    StepCounts(replacement, hash, b, was, e, k);
    StepLevel(replacement, hash, b, was, e, k);
    AfterNext(replacement, hash, b, before, e);
    hide After, Step, Volume, DeltaOf, Concerns, HeldSince, Wrap, LastLevel, LevelOf;
    if i == n {
      assert es[i..] == [e] == [] + [e];
      VolumeOne(e, k);
      LastLevelNext([], e, k);
    } else {
      LevelSinceTaken(replacement, hash, b, before, k, i);
      HeldSinceNext(replacement, hash, b, before, e, k, i);
      WrapAdd(Volume(before[i..], k), DeltaOf(e, k));
      assert es[i..] == before[i..] + [e];
      LastLevelNext(before[i..], e, k);
    }
  }

  /** The collisions are counted from the last clearing: one for each packet counted, and each signal of a
      level other than 0, that finds another flow in its bin, and none for what finds its bin empty. */
  lemma {:induction false} CountsCollisions(replacement: bool, hash: FlowSrc -> nat, es: seq<Event>, e: Event)
    ensures Collisions(replacement, hash, []) == 0 && (e.Refresh? ==> Collisions(replacement, hash, es + [e]) == 0)
    ensures !e.Refresh? ==>
      var s, n := After(replacement, hash, hash(e.key), es), Collisions(replacement, hash, es);
      var other := s.Held? && s.key != e.key;
      Collisions(replacement, hash, es + [e]) ==
        if other && (e.Add? || e.AddLevel? || (e.Signal? && e.level != 0)) then n + 1 else n
  {
    CollisionsNext(replacement, hash, es, e);
    hide After;
  }

  // A signal of the flow that holds the bin sets its level.
  lemma {:induction false} SignalOwn(replacement: bool, hash: FlowSrc -> nat, es: seq<Event>, k: FlowSrc, level: int)
    ensures var s := After(replacement, hash, hash(k), es);
      HeldBy(s, k) ==> After(replacement, hash, hash(k), es + [Signal(k, level)]) == Held(k, level, s.value)
  {
    AfterNext(replacement, hash, hash(k), es, Signal(k, level));
    hide After;
  }

  // What it takes an event to drive flow `k` out of its bin, when the last level carried for `k`
  // is `level` and what has been counted for it is `value`.
  ghost predicate Ousts(replacement: bool, e: Event, k: FlowSrc, level: int, value: Word)
  {
    && replacement && !e.Refresh? && e.key != k
    && ((e.AddLevel? && e.level > level)
        || (e.Signal? && e.level != 0 && (e.level > level || (e.level == level && value == 0))))
  }

  /** When a bin changes hands, levels changing or not: it is emptied exactly by clearing the table
      and by deleting the flow, and goes to another flow exactly when an event of that flow, in
      this bin, ousts the one that holds it. */
  lemma {:induction false} ChangesHands(replacement: bool, hash: FlowSrc -> nat, b: nat, es: seq<Event>, e: Event,
      k: FlowSrc, i: nat)
    requires HeldSince(replacement, hash, b, es, k, i)
    ensures var t, level, value := After(replacement, hash, b, es + [e]), LastLevel(es[i..], k), Wrap(Volume(es[i..], k));
      && (t.Empty? <==> e.Refresh? || e == Del(k))
      && (t.Held? && t.key != k <==> !e.Refresh? && hash(e.key) == b && Ousts(replacement, e, k, level, value))
      && (t.Held? && t.key != k ==> t.key == e.key)
  {
    LevelSinceTaken(replacement, hash, b, es, k, i);
    HeldInBin(replacement, hash, b, es);
    AfterNext(replacement, hash, b, es, e);
    hide After, HeldSince, LastLevel, Volume, Wrap;
  }

  ghost predicate TakesRoom(replacement: bool, e: Event)
  {
    e.Add? || e.AddLevel? || (e.Signal? && replacement && e.level > 0)
  }

  /** An empty bin is taken exactly by counting a packet of a flow of this bin, and with
      replacement on by a signal of a level above 0. */
  lemma {:induction false} TakesEmpty(replacement: bool, hash: FlowSrc -> nat, b: nat, es: seq<Event>, e: Event)
    requires After(replacement, hash, b, es).Empty?
    ensures var t := After(replacement, hash, b, es + [e]);
      && (t.Held? <==> !e.Refresh? && hash(e.key) == b && TakesRoom(replacement, e))
      && (t.Held? ==> t.key == e.key && HeldSince(replacement, hash, b, es + [e], e.key, |es|))
  {
    AfterNext(replacement, hash, b, es, e);
    hide After;
    if After(replacement, hash, b, es + [e]).Held? {
      HeldSinceNow(replacement, hash, b, es, e, e.key);
    }
  }

  /** No counter exceeds the flow's true volume. */
  lemma {:induction false} NeverOverCounts(replacement: bool, hash: FlowSrc -> nat, b: nat, es: seq<Event>)
    ensures var s := After(replacement, hash, b, es); s.Held? ==> s.value <= Volume(es, s.key)
  {
    var s := After(replacement, hash, b, es);
    if s.Held? {
      var i := CountedSinceTaken(replacement, hash, b, es);
      VolumeSplit(es, i, s.key);
      WrapAdd(Volume(es[i..], s.key), 0);
    }
  }

  // The plain table: the first flow added owns the bin until it is cleared.
  ghost function Owned(hash: FlowSrc -> nat, b: nat, es: seq<Event>): Option<(FlowSrc, nat)>
  {
    if es == [] then None
    else
      var was, e := Owned(hash, b, es[..|es| - 1]), es[|es| - 1];
      if !Concerns(hash, b, e) then was
      else if e.Refresh? then None
      else if e.Del? then if was.Some? && was.value.0 == e.key then None else was
      else if e.Signal? then was
      else if was.None? then Some((e.key, e.delta as nat))
      else if was.value.0 == e.key then Some((e.key, was.value.1 + e.delta))
      else was
  }

  /** With replacement off the table is the plain one, counters up to 32 bits. */
  lemma {:induction false} FirstComeFirstServed(hash: FlowSrc -> nat, b: nat, es: seq<Event>)
    ensures var s, o := After(false, hash, b, es), Owned(hash, b, es);
      if s.Empty? then o.None? else o.Some? && o.value.0 == s.key && Wrap(o.value.1) == s.value
  {
    if es != [] {
      FirstComeFirstServed(hash, b, es[..|es| - 1]);
      var o, e := Owned(hash, b, es[..|es| - 1]), es[|es| - 1];
      if o.Some? && (e.Add? || e.AddLevel?) { WrapAdd(o.value.1, e.delta); }
    }
  }
}
