/** The switch's sample table: one entry for each bin. */
module SampleTable {
  import opened Words
  import opened Flow
  import opened Sampling

  class Sample {
    const key: FlowSrc
    var level: int
    var value: Word

    constructor (key: FlowSrc, value: Word, level: int)
      ensures this.key == key && this.value == value && this.level == level
    {
      this.key, this.value, this.level := key, value, level;
    }
  }

  ghost function SlotOf(e: Sample?): Slot
    reads e
  {
    if e == null then Empty else Held(e.key, e.level, e.value)
  }

  class Table {
    const size: nat
    const hash: FlowSrc -> nat
    const replacement: bool
    const table: array<Sample?>
    var collisionTimes: nat
    var nextBin: int
    ghost var samples: set<Sample>
    // Everything done to the table so far.
    ghost var log: seq<Event>

    // The bins as values.
    ghost function Slots(): (s: seq<Slot>)
      reads this, table, samples
      ensures |s| == table.Length
    {
      seq(table.Length, b requires 0 <= b < table.Length reads this, table, samples =>
        if table[b] == null || table[b] !in samples then Empty else SlotOf(table[b]))
    }

    ghost predicate Placed()
      reads this, table
    {
      forall b :: 0 <= b < table.Length && table[b] != null ==> table[b] in samples && hash(table[b].key) == b
    }

    /** Every bin is as the run so far leaves it. */
    ghost predicate Valid()
      reads this, table, samples
    {
      && table.Length == size > 0 && (forall k :: hash(k) < size) && -1 <= nextBin < size && Placed()
      && Runs(replacement, hash, log, Slots()) && collisionTimes == Collisions(replacement, hash, log)
    }

    constructor (size: nat, hash: FlowSrc -> nat, replacement: bool)
      requires size > 0 && forall k :: hash(k) < size
      ensures Valid() && log == [] && fresh(table) && samples == {} && nextBin == -1
      ensures this.size == size && this.hash == hash && this.replacement == replacement
    {
      this.size, this.hash, this.replacement := size, hash, replacement;
      table := new Sample?[size](_ => null);
      collisionTimes, nextBin := 0, -1;
      samples, log := {}, [];
    }

    lemma {:induction false} OpenBin(b: nat)
      requires Valid() && b < size
      ensures b < table.Length == size == |Slots()| && Slots()[b] == SlotOf(table[b])
      ensures table[b] != null ==> table[b] in samples
    {}

    lemma {:induction false} OpenTable()
      requires Valid()
      ensures table.Length == size > 0 && (forall k :: hash(k) < size) && -1 <= nextBin < size && Placed()
      ensures Runs(replacement, hash, log, Slots()) && collisionTimes == Collisions(replacement, hash, log)
    {}

    lemma {:induction false} ShutTable()
      requires table.Length == size > 0 && (forall k :: hash(k) < size) && -1 <= nextBin < size && Placed()
      requires Runs(replacement, hash, log, Slots()) && collisionTimes == Collisions(replacement, hash, log)
      ensures Valid()
    {}

    // Count a packet of a flow.
    method AddValue(key: FlowSrc, delta: Word)
      requires Valid()
      modifies this`collisionTimes, this`samples, this`log, table, samples
      ensures Valid() && log == old(log) + [Add(key, delta)] && samples >= old(samples) && fresh(samples - old(samples))
    {
      hide After, Collisions, Runs;
      ghost var slots := Slots();
      var b := hash(key);
      OpenTable();
      OpenBin(b);
      RunsNext(replacement, hash, log, slots, Add(key, delta));
      var next := table[b];
      if next != null {
        if Compare(key, next.key) == 0 {
          next.value := Wrap(next.value + delta);
        } else {
          collisionTimes := collisionTimes + 1;
        }
      } else {
        table[b] := new Sample(key, delta, 0);
        samples := samples + {table[b]};
      }
      log := log + [Add(key, delta)];
      assert Slots() == slots[b := Step(replacement, slots[b], Add(key, delta))];
      ShutTable();
    }

    // Count a packet and set its flow's level; a flow of a higher level takes the bin over.
    method AddValueAndUpdateSelectedLevelInfo(key: FlowSrc, delta: Word, level: int)
      requires Valid()
      modifies this`collisionTimes, this`samples, this`log, table, samples
      ensures Valid() && log == old(log) + [AddLevel(key, delta, level)]
      ensures samples >= old(samples) && fresh(samples - old(samples))
    {
      hide After, Collisions, Runs;
      ghost var slots := Slots();
      var b := hash(key);
      OpenTable();
      OpenBin(b);
      RunsNext(replacement, hash, log, slots, AddLevel(key, delta, level));
      var next := table[b];
      if next != null {
        if Compare(key, next.key) == 0 {
          next.value := Wrap(next.value + delta);
          next.level := level;
        } else {
          collisionTimes := collisionTimes + 1;
          if replacement {
            if next.level >= level {
            } else {
              table[b] := new Sample(key, delta, level);
              samples := samples + {table[b]};
            }
          }
        }
      } else {
        table[b] := new Sample(key, delta, level);
        samples := samples + {table[b]};
      }
      log := log + [AddLevel(key, delta, level)];
      assert Slots() == slots[b := Step(replacement, slots[b], AddLevel(key, delta, level))];
      ShutTable();
    }

    // A condition packet says what level a flow has.
    method SetSelectedLevel(key: FlowSrc, level: int)
      requires Valid()
      modifies this`collisionTimes, this`samples, this`log, table, samples
      ensures Valid() && log == old(log) + [Signal(key, level)]
      ensures var s := After(replacement, hash, hash(key), old(log));
        HeldBy(s, key) ==> After(replacement, hash, hash(key), log) == Held(key, level, s.value)
      ensures samples >= old(samples) && fresh(samples - old(samples))
    {
      hide After, Collisions, Runs;
      ghost var slots := Slots();
      var b := hash(key);
      OpenTable();
      OpenBin(b);
      RunsNext(replacement, hash, log, slots, Signal(key, level));
      SignalOwn(replacement, hash, log, key, level);
      var next := table[b];
      if next != null {
        if Compare(key, next.key) == 0 {
          next.level := level;
        } else if level != 0 {
          collisionTimes := collisionTimes + 1;
          if replacement {
            if next.level > level || (next.level == level && next.value > 0) {
            } else if level >= next.level {
              table[b] := new Sample(key, 0, level);
              samples := samples + {table[b]};
            }
          }
        }
      } else if replacement && level > 0 {
        table[b] := new Sample(key, 0, level);
        samples := samples + {table[b]};
      }
      log := log + [Signal(key, level)];
      assert Slots() == slots[b := Step(replacement, slots[b], Signal(key, level))];
      ShutTable();
    }

    // Take a flow out of its bin.
    method Delete(key: FlowSrc)
      requires Valid()
      modifies this`log, table
      ensures Valid() && log == old(log) + [Del(key)]
    {
      hide After, Collisions, Runs;
      ghost var slots := Slots();
      var b := hash(key);
      OpenTable();
      OpenBin(b);
      RunsNext(replacement, hash, log, slots, Del(key));
      var next := table[b];
      if next != null && Compare(key, next.key) == 0 {
        table[b] := null;
      }
      log := log + [Del(key)];
      assert Slots() == slots[b := Step(replacement, slots[b], Del(key))];
      ShutTable();
    }

    // Empty every bin.
    method Reset()
      requires Valid()
      modifies this`collisionTimes, this`nextBin, this`log, table
      ensures Valid() && log == old(log) + [Refresh] && nextBin == -1
    {
      hide After, Collisions, Runs;
      OpenTable();
      for i := 0 to size
        invariant log == old(log) && forall b :: 0 <= b < i ==> table[b] == null
      {
        table[i] := null;
      }
      collisionTimes, nextBin := 0, -1;
      log := log + [Refresh];
      RunsRefresh(replacement, hash, old(log), Slots());
      ShutTable();
    }

    /** The level and the counter of a flow, if it holds its bin. */
    method Get(key: FlowSrc) returns (r: Option<(int, Word)>)
      requires Valid()
      ensures var s := After(replacement, hash, hash(key), log);
        r == if HeldBy(s, key) then Some((s.level, s.value)) else None
    {
      var b := hash(key);
      OpenBin(b);
      hide After, Collisions;
      var next := table[b];
      if next == null || Compare(key, next.key) != 0 {
        return None;
      }
      return Some((next.level, next.value));
    }

    // A flow counts as sampled once a packet has been counted, not when it is only selected.
    method IsSampled(key: FlowSrc) returns (r: bool)
      requires Valid()
      ensures var s := After(replacement, hash, hash(key), log); r <==> HeldBy(s, key) && s.value > 0
    {
      var got := Get(key);
      return got.Some? && got.value.1 > 0;
    }

    /** The next bin that is held, or nothing and the cursor reset. */
    method Next() returns (r: Option<(FlowSrc, Word)>)
      requires Valid()
      modifies this`nextBin
      ensures Valid()
      ensures r.None? ==> nextBin == -1 && forall b :: old(nextBin) < b < size ==> After(replacement, hash, b, log).Empty?
      ensures r.Some? ==> old(nextBin) < nextBin && forall b :: old(nextBin) < b < nextBin ==> After(replacement, hash, b, log).Empty?
      ensures r.Some? ==> var s := After(replacement, hash, nextBin, log); s.Held? && r.value == (s.key, s.value)
    {
      hide After, Collisions;
      ghost var from := nextBin;
      while true
        invariant from <= nextBin < size && Valid()
        invariant forall b :: from < b <= nextBin ==> After(replacement, hash, b, log).Empty?
        decreases size - nextBin
      {
        nextBin := nextBin + 1;
        if nextBin >= size {
          nextBin := -1;
          return None;
        }
        OpenBin(nextBin);
        var entry := table[nextBin];
        if entry != null {
          return Some((entry.key, entry.value));
        }
      }
    }
  }
}
