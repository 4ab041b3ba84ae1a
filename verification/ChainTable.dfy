/** The hash table of counters: one sorted chain of entries for each bin, a map to its callers.
    Entries are linked in and unlinked in place, also in the middle of an iteration, and every
    operation says what the iteration has still to yield. */
module ChainTable {
  import opened Words
  import opened Flow

  class Entry {
    const key: FlowSrc
    var value: Word
    var next: Entry?

    constructor (key: FlowSrc, value: Word)
      ensures this.key == key && this.value == value && next == null
    {
      this.key, this.value, next := key, value, null;
    }
  }

  // The mutable fields of an entry, and of a set of entries.
  datatype View = View(value: Word, next: Entry?)
  type Store = map<Entry, View>
  type Hash = FlowSrc -> nat

  ghost function At(c: seq<Entry>, i: nat): Entry? { if i < |c| then c[i] else null }

  ghost function Prior(c: seq<Entry>, i: nat): Entry?
    requires i <= |c|
  {
    if i == 0 then null else c[i - 1]
  }

  // The entries are linked in this order from `head`.
  ghost predicate Linked(st: Store, head: Entry?, c: seq<Entry>)
  {
    head == At(c, 0) && forall i :: 0 <= i < |c| ==> c[i] in st && st[c[i]].next == At(c, i + 1)
  }

  // In strictly increasing order, and all in their own bin.
  ghost predicate Ordered(hash: Hash, b: nat, c: seq<Entry>)
  {
    && (forall i :: 0 <= i < |c| ==> hash(c[i].key) == b)
    && (forall i, j :: 0 <= i < j < |c| ==> Less(c[i].key, c[j].key))
  }

  ghost predicate HasKey(c: seq<Entry>, k: FlowSrc)
  {
    exists i :: 0 <= i < |c| && c[i].key == k
  }

  // The chain holds what `m` says of the keys of bin `b`.
  ghost predicate Means(st: Store, hash: Hash, b: nat, c: seq<Entry>, m: map<FlowSrc, Word>)
  {
    && (forall i :: 0 <= i < |c| ==> c[i] in st && c[i].key in m && m[c[i].key] == st[c[i]].value)
    && (forall k :: k in m && hash(k) == b ==> HasKey(c, k))
  }

  ghost predicate Bin(st: Store, hash: Hash, b: nat, head: Entry?, c: seq<Entry>, m: map<FlowSrc, Word>)
  {
    Linked(st, head, c) && Ordered(hash, b, c) && Means(st, hash, b, c, m)
  }

  // Every chain is sorted and in its own bin, and together they hold the map.
  ghost predicate Bins(st: Store, hash: Hash, heads: seq<Entry?>, chains: seq<seq<Entry>>, m: map<FlowSrc, Word>)
  {
    && |heads| == |chains| > 0 && (forall k :: hash(k) < |chains|)
    && forall b :: 0 <= b < |chains| ==> Bin(st, hash, b, heads[b], chains[b], m)
  }

  // The entries before place `i` come before `key`, and those behind it after `key`.
  ghost predicate PlaceOf(c: seq<Entry>, key: FlowSrc, i: nat)
  {
    && i <= |c|
    && (forall j :: 0 <= j < i ==> Less(c[j].key, key))
    && (forall j :: i < j < |c| ==> Less(key, c[j].key))
    && (i < |c| ==> c[i].key == key || Less(key, c[i].key))
  }

  lemma {:induction false} Placed(hash: Hash, b: nat, c: seq<Entry>, key: FlowSrc, i: nat)
    requires Ordered(hash, b, c) && i <= |c| && forall j :: 0 <= j < i ==> Less(c[j].key, key)
    requires i < |c| ==> Compare(key, c[i].key) <= 0
    ensures PlaceOf(c, key, i)
    ensures HasKey(c, key) <==> i < |c| && key == c[i].key
  {
    if i < |c| {
      forall j | i < j < |c| ensures Less(key, c[j].key) {
        CompareOrders(key, c[i].key, c[j].key);
      }
      CompareOrders(key, c[i].key, key);
    }
  }

  lemma {:induction false} OrderedNoDup(hash: Hash, b: nat, c: seq<Entry>)
    requires Ordered(hash, b, c)
    ensures forall i, j :: 0 <= i < j < |c| ==> c[i] != c[j]
  {}

  // The same key is never in two places.
  lemma {:induction false} KeyOnce(hash: Hash, b: nat, c: seq<Entry>, i: nat, j: nat)
    requires Ordered(hash, b, c) && i < |c| && j < |c| && c[i].key == c[j].key
    ensures i == j
  {
    assert i < j ==> Less(c[i].key, c[j].key);
    assert j < i ==> Less(c[j].key, c[i].key);
  }

  // A changed counter.
  lemma {:induction false} BinReplace(st: Store, hash: Hash, b: nat, head: Entry?, c: seq<Entry>, m: map<FlowSrc,
      Word>, i: nat, v: Word)
    requires Bin(st, hash, b, head, c, m) && i < |c|
    ensures c[i] in st && Bin(st[c[i] := View(v, st[c[i]].next)], hash, b, head, c, m[c[i].key := v])
  {
    var e := c[i];
    var st1, m1 := st[e := View(v, st[e].next)], m[e.key := v];
    forall j | 0 <= j < |c| ensures c[j].key in m1 && m1[c[j].key] == st1[c[j]].value {
      if c[j].key == e.key { KeyOnce(hash, b, c, i, j); }
    }
  }

  // A new entry at its place.
  lemma {:induction false} OrderedInsert(hash: Hash, b: nat, c: seq<Entry>, i: nat, e: Entry)
    requires Ordered(hash, b, c) && PlaceOf(c, e.key, i) && !HasKey(c, e.key) && hash(e.key) == b
    ensures Ordered(hash, b, c[..i] + [e] + c[i..])
  {
    var c1 := c[..i] + [e] + c[i..];
    forall j, k | 0 <= j < k < |c1| ensures Less(c1[j].key, c1[k].key) {
      assert j < i ==> c1[j] == c[j];
      assert k > i ==> c1[k] == c[k - 1];
    }
    forall j | 0 <= j < |c1| ensures hash(c1[j].key) == b {
      assert j < i ==> c1[j] == c[j];
      assert j > i ==> c1[j] == c[j - 1];
    }
  }

  lemma {:induction false} HasKeyInsert(c: seq<Entry>, i: nat, e: Entry, k: FlowSrc)
    requires i <= |c|
    ensures HasKey(c[..i] + [e] + c[i..], k) <==> HasKey(c, k) || k == e.key
  {
    var c1 := c[..i] + [e] + c[i..];
    assert c1[i] == e;
    if j :| 0 <= j < |c| && c[j].key == k {
      assert c1[if j < i then j else j + 1] == c[j];
    }
  }

  // The heap after a new entry has been linked in at place `i`.
  ghost function StoreIn(st: Store, c: seq<Entry>, i: nat, e: Entry, v: Word): Store
    requires i <= |c| && forall x :: x in c ==> x in st
  {
    var st1 := st[e := View(v, At(c, i))];
    if i == 0 then st1 else st1[c[i - 1] := View(st[c[i - 1]].value, e)]
  }

  lemma {:induction false} LinkedInsert(st: Store, head: Entry?, c: seq<Entry>, i: nat, e: Entry, v: Word)
    requires Linked(st, head, c) && i <= |c| && e !in st && forall j, k :: 0 <= j < k < |c| ==> c[j] != c[k]
    ensures forall x :: x in c ==> x in st
    ensures Linked(StoreIn(st, c, i, e, v), if i == 0 then e else head, c[..i] + [e] + c[i..])
  {
    var c1 := c[..i] + [e] + c[i..];
    var st1 := StoreIn(st, c, i, e, v);
    forall k | 0 <= k < |c1| ensures c1[k] in st1 && st1[c1[k]].next == At(c1, k + 1) {
      if k < i {
        assert c1[k] == c[k] && c1[k + 1] == if k + 1 < i then c[k + 1] else e;
      } else if k > i {
        assert c1[k] == c[k - 1] && At(c1, k + 1) == At(c, k);
        assert i > 0 ==> c[k - 1] != c[i - 1];
      }
    }
  }

  lemma {:induction false} MeansInsert(st: Store, hash: Hash, b: nat, c: seq<Entry>, i: nat, e: Entry, v: Word,
      m: map<FlowSrc, Word>)
    requires Means(st, hash, b, c, m) && i <= |c| && !HasKey(c, e.key) && e !in st
    ensures forall x :: x in c ==> x in st
    ensures Means(StoreIn(st, c, i, e, v), hash, b, c[..i] + [e] + c[i..], m[e.key := v])
  {
    var c1, m1, st1 := c[..i] + [e] + c[i..], m[e.key := v], StoreIn(st, c, i, e, v);
    assert c1[i] == e && (forall j :: 0 <= j < i ==> c1[j] == c[j]) && forall j :: i < j < |c1| ==> c1[j] == c[j - 1];
    assert forall x :: x in c ==> x in st1 && st1[x].value == st[x].value;
    forall k | k in m1 && hash(k) == b ensures HasKey(c1, k) {
      HasKeyInsert(c, i, e, k);
    }
  }

  lemma {:induction false} OrderedRemove(hash: Hash, b: nat, c: seq<Entry>, i: nat)
    requires Ordered(hash, b, c) && i < |c|
    ensures Ordered(hash, b, c[..i] + c[i + 1..])
  {
    var c1 := c[..i] + c[i + 1..];
    assert forall j :: 0 <= j < |c1| ==> c1[j] == c[if j < i then j else j + 1];
  }

  // The heap after the entry at place `i` has been linked out.
  ghost function StoreOut(st: Store, c: seq<Entry>, i: nat): Store
    requires i < |c| && forall x :: x in c ==> x in st
  {
    if i == 0 then st else st[c[i - 1] := View(st[c[i - 1]].value, At(c, i + 1))]
  }

  lemma {:induction false} LinkedRemove(st: Store, head: Entry?, c: seq<Entry>, i: nat)
    requires Linked(st, head, c) && i < |c| && forall j, k :: 0 <= j < k < |c| ==> c[j] != c[k]
    ensures forall x :: x in c ==> x in st
    ensures Linked(StoreOut(st, c, i), if i == 0 then At(c, 1) else head, c[..i] + c[i + 1..])
  {
    var c1, st1 := c[..i] + c[i + 1..], StoreOut(st, c, i);
    forall k | 0 <= k < |c1| ensures c1[k] in st1 && st1[c1[k]].next == At(c1, k + 1) {
      RemovedAt(c, i, k);
      hide At;
    }
  }

  // What is where once an entry is out.
  lemma {:induction false} RemovedAt(c: seq<Entry>, i: nat, k: nat)
    requires i < |c| && k < |c| - 1
    ensures var c1 := c[..i] + c[i + 1..];
      && c1[k] == c[if k < i then k else k + 1]
      && At(c1, k + 1) == At(c, if k + 1 < i then k + 1 else k + 2)
  {}

  lemma {:induction false} HasKeyRemove(hash: Hash, b: nat, c: seq<Entry>, i: nat, k: FlowSrc)
    requires Ordered(hash, b, c) && i < |c|
    ensures HasKey(c[..i] + c[i + 1..], k) <==> HasKey(c, k) && k != c[i].key
  {
    var c1 := c[..i] + c[i + 1..];
    if j :| 0 <= j < |c| && c[j].key == k && k != c[i].key {
      assert j != i;
      assert c1[if j < i then j else j - 1] == c[j];
    }
    if j :| 0 <= j < |c1| && c1[j].key == k {
      assert if j < i then c1[j] == c[j] && Less(c[j].key, c[i].key) else c1[j] == c[j + 1] && Less(c[i].key, c[j + 1].key);
    }
  }

  lemma {:induction false} MeansRemove(st: Store, hash: Hash, b: nat, c: seq<Entry>, i: nat, m: map<FlowSrc, Word>)
    requires Means(st, hash, b, c, m) && Ordered(hash, b, c) && i < |c|
    ensures forall x :: x in c ==> x in st
    ensures Means(StoreOut(st, c, i), hash, b, c[..i] + c[i + 1..], m - {c[i].key})
  {
    var c1, m1, st1 := c[..i] + c[i + 1..], m - {c[i].key}, StoreOut(st, c, i);
    assert forall x :: x in c ==> x in st1 && st1[x].value == st[x].value;
    forall k | 0 <= k < |c1| ensures c1[k].key in m1 && c1[k] in st1 && m1[c1[k].key] == st1[c1[k]].value {
      assert c1[k] == c[if k < i then k else k + 1];
      HasKeyRemove(hash, b, c, i, c1[k].key);
    }
    hide StoreOut;
    forall k | k in m1 && hash(k) == b ensures HasKey(c1, k) {
      HasKeyRemove(hash, b, c, i, k);
    }
  }

  // The other bins do not see a change of bin `b`.
  lemma {:induction false} BinsChange(st: Store, st1: Store, hash: Hash, heads: seq<Entry?>,
      chains: seq<seq<Entry>>, m: map<FlowSrc, Word>, m1: map<FlowSrc, Word>,
    b: nat, head: Entry?, c: seq<Entry>)
    requires Bins(st, hash, heads, chains, m) && b < |chains| && Bin(st1, hash, b, head, c, m1)
    requires forall e :: e in st && hash(e.key) != b ==> e in st1 && st1[e] == st[e]
    requires forall k :: hash(k) != b ==> (k in m1 <==> k in m) && (k in m ==> m1[k] == m[k])
    ensures Bins(st1, hash, heads[b := head], chains[b := c], m1)
  {
    forall a | 0 <= a < |chains| && a != b ensures Bin(st1, hash, a, heads[a], chains[a], m1) {
      assert Bin(st, hash, a, heads[a], chains[a], m);
      hide HasKey, Less;
      assert forall i :: 0 <= i < |chains[a]| ==> hash(chains[a][i].key) == a;
    }
  }

  // Linking an entry in at its place enters its counter.
  lemma {:induction false} BinsInsert(st: Store, hash: Hash, heads: seq<Entry?>, chains: seq<seq<Entry>>,
      m: map<FlowSrc, Word>,
    b: nat, i: nat, e: Entry, v: Word)
    requires Bins(st, hash, heads, chains, m) && b < |chains| && hash(e.key) == b
    requires e !in st && PlaceOf(chains[b], e.key, i) && !HasKey(chains[b], e.key)
    ensures i <= |chains[b]| && forall x :: x in chains[b] ==> x in st
    ensures Bins(StoreIn(st, chains[b], i, e, v), hash, heads[b := if i == 0 then e else heads[b]],
      chains[b := chains[b][..i] + [e] + chains[b][i..]], m[e.key := v])
  {
    var c := chains[b];
    assert Bin(st, hash, b, heads[b], c, m);
    hide PlaceOf, HasKey, Less;
    OrderedNoDup(hash, b, c);
    assert i <= |c| by { PlaceIn(c, e.key, i); }
    LinkedInsert(st, heads[b], c, i, e, v);
    OrderedInsert(hash, b, c, i, e);
    MeansInsert(st, hash, b, c, i, e, v, m);
    hide Linked, Means, Bins;
    assert forall x :: x in c ==> hash(x.key) == b;
    BinsChange(st, StoreIn(st, c, i, e, v), hash, heads, chains, m, m[e.key := v], b,
      if i == 0 then e else heads[b], c[..i] + [e] + c[i..]);
  }

  lemma {:induction false} PlaceIn(c: seq<Entry>, key: FlowSrc, i: nat)
    requires PlaceOf(c, key, i)
    ensures i <= |c|
  {}

  // Changing the entry of a key changes its counter.
  lemma {:induction false} BinsReplace(st: Store, hash: Hash, heads: seq<Entry?>, chains: seq<seq<Entry>>,
      m: map<FlowSrc, Word>, b: nat, i: nat, v: Word)
    requires Bins(st, hash, heads, chains, m) && b < |chains| && i < |chains[b]|
    ensures chains[b][i] in st
    ensures Bins(st[chains[b][i] := View(v, st[chains[b][i]].next)], hash, heads, chains, m[chains[b][i].key := v])
  {
    var c := chains[b];
    assert Bin(st, hash, b, heads[b], c, m);
    BinReplace(st, hash, b, heads[b], c, m, i, v);
    assert hash(c[i].key) == b;
    hide Bins, Bin;
    assert heads[b := heads[b]] == heads && chains[b := c] == chains;
    BinsChange(st, st[c[i] := View(v, st[c[i]].next)], hash, heads, chains, m, m[c[i].key := v], b, heads[b], c);
  }

  // Linking an entry out takes its counter away.
  lemma {:induction false} BinsRemove(st: Store, hash: Hash, heads: seq<Entry?>, chains: seq<seq<Entry>>,
      m: map<FlowSrc, Word>, b: nat, i: nat)
    requires Bins(st, hash, heads, chains, m) && b < |chains| && i < |chains[b]|
    ensures forall x :: x in chains[b] ==> x in st
    ensures Bins(StoreOut(st, chains[b], i), hash, heads[b := if i == 0 then At(chains[b], 1) else heads[b]],
      chains[b := chains[b][..i] + chains[b][i + 1..]], m - {chains[b][i].key})
  {
    var c := chains[b];
    assert Bin(st, hash, b, heads[b], c, m);
    hide HasKey, Less;
    OrderedNoDup(hash, b, c);
    LinkedRemove(st, heads[b], c, i);
    OrderedRemove(hash, b, c, i);
    MeansRemove(st, hash, b, c, i, m);
    hide Linked, Means, Bins;
    assert forall x :: x in c ==> hash(x.key) == b;
    BinsChange(st, StoreOut(st, c, i), hash, heads, chains, m, m - {c[i].key}, b, if i == 0 then At(c,
      1) else heads[b], c[..i] + c[i + 1..]);
  }

  // Chain `b` and all those after it, end to end.
  ghost function Rest(chains: seq<seq<Entry>>, b: nat): seq<Entry>
    decreases |chains| - b
  {
    if b >= |chains| then [] else chains[b] + Rest(chains, b + 1)
  }

  // The entries of the chain behind `e`.
  ghost function After(c: seq<Entry>, e: Entry): seq<Entry>
  {
    if c == [] then [] else if c[0] == e then c[1..] else After(c[1..], e)
  }

  lemma {:induction false} AfterIs(c: seq<Entry>, i: nat)
    requires i < |c| && forall j, k :: 0 <= j < k < |c| ==> c[j] != c[k]
    ensures After(c, c[i]) == c[i + 1..]
  {
    if i > 0 {
      assert c[i] == c[1..][i - 1];
      AfterIs(c[1..], i - 1);
    }
  }

  // What an iteration has still to yield: everything at the reset cursor -1, otherwise what
  // is behind the entry visited last.
  ghost function Ahead(chains: seq<seq<Entry>>, nextBin: int, lastVisit: Entry?): seq<Entry>
  {
    if nextBin < 0 then Rest(chains, 0)
    else if nextBin >= |chains| then []
    else if lastVisit == null then Rest(chains, nextBin + 1)
    else After(chains[nextBin], lastVisit) + Rest(chains, nextBin + 1)
  }

  ghost predicate CursorOk(chains: seq<seq<Entry>>, nextBin: int, lastVisit: Entry?)
  {
    if nextBin < 0 then nextBin == -1 && lastVisit == null
    else nextBin < |chains| && (lastVisit == null || lastVisit in chains[nextBin])
  }

  // The conversion of a counter to a signed int.
  function Signed(v: Word): int { if v < 0x8000_0000 then v else v - WORDS }

  lemma {:induction false} SignedIs(v: Word)
    ensures Signed(v) >= 0 <==> v < 0x8000_0000
    ensures v < 0x8000_0000 ==> Signed(v) == v
    ensures Wrap(Signed(v)) == v
  {}

  class Table {
    const size: nat
    const hash: Hash
    const table: array<Entry?>
    var nextBin: int
    var lastVisit: Entry?
    ghost var chains: seq<seq<Entry>>
    ghost var entries: set<Entry>
    // The counters of all flows in the table.
    ghost var contents: map<FlowSrc, Word>

    ghost function Fields(): Store
      reads entries, this
    {
      map e | e in entries :: View(e.value, e.next)
    }

    ghost predicate Valid()
      reads this, table, entries
    {
      && table.Length == size == |chains|
      && Bins(Fields(), hash, table[..], chains, contents) && CursorOk(chains, nextBin, lastVisit)
    }

    constructor (size: nat, hash: Hash)
      requires size > 0 && forall k :: hash(k) < size
      ensures Valid() && fresh(table) && contents == map[] && entries == {}
      ensures this.size == size && this.hash == hash && nextBin == -1
    {
      this.size, this.hash := size, hash;
      table := new Entry?[size](_ => null);
      nextBin, lastVisit := -1, null;
      chains := seq(size, _ => []);
      contents, entries := map[], {};
    }

    lemma {:induction false} FieldsAre()
      ensures Fields().Keys == entries
      ensures forall e :: e in entries ==> Fields()[e] == View(e.value, e.next)
    {}

    lemma {:induction false} OpenBin(b: nat)
      requires Valid() && b < size
      ensures b < |chains| == table.Length == size
      ensures Linked(Fields(), table[b], chains[b]) && Ordered(hash, b, chains[b])
      ensures Bins(Fields(), hash, table[..], chains, contents) && CursorOk(chains, nextBin, lastVisit)
    {
      assert Bin(Fields(), hash, b, table[..][b], chains[b], contents);
    }

    lemma {:induction false} Hashed(key: FlowSrc)
      requires Valid()
      ensures hash(key) < size
    {}

    // Walk a chain to where `key` is or should be.
    method Locate(key: FlowSrc) returns (last: Entry?, next: Entry?, ghost i: nat)
      requires Valid()
      ensures hash(key) < |chains|
      ensures ghost var c := chains[hash(key)];
        i <= |c| && next == At(c, i) && last == Prior(c, i) && PlaceOf(c, key, i) && (HasKey(c, key) <==> i < |c| && key == c[i].key)
      ensures (next == null <==> i >= |chains[hash(key)]|) && (next == table[hash(key)] <==> i == 0)
      ensures (last == null <==> i == 0) && (last != null ==> last in entries && last != next)
      ensures next != null ==> next in entries && next == chains[hash(key)][i] && (Compare(key, next.key) == 0 <==> key == next.key)
    {
      hide *;
      var b := hash(key);
      Hashed(key);
      OpenBin(b);
      FieldsAre();
      ghost var c := chains[b];
      last, next, i := null, table[b], 0;
      HeadAt(Fields(), table[b], c);
      while next != null && Compare(key, next.key) > 0
        invariant i <= |c| && next == At(c, i) && last == Prior(c, i)
        invariant (last == null <==> i == 0) && (last != null ==> last in entries)
        invariant forall j :: 0 <= j < i ==> Less(c[j].key, key)
        decreases |c| - i
      {
        LinkedAt(Fields(), table[b], c, i);
        CompareOrders(key, next.key, key);
        LessIs(next.key, key);
        last := next;
        next := next.next;
        i := i + 1;
      }
      AtIs(c, i, key);
      Placed(hash, b, c, key, i);
      if next != null { LinkedAt(Fields(), table[b], c, i); }
      OrderedNoDup(hash, b, c);
      if i > 0 { HeadIs(c, i); }
    }

    lemma {:induction false} ShutValid()
      requires table.Length == size == |chains|
      requires Bins(Fields(), hash, table[..], chains, contents) && CursorOk(chains, nextBin, lastVisit)
      ensures Valid()
    {}

    lemma {:induction false} OpenValid()
      requires Valid()
      ensures table.Length == size == |chains| > 0
      ensures Bins(Fields(), hash, table[..], chains, contents) && CursorOk(chains, nextBin, lastVisit)
    {}

    /** The counter of `key` as a signed int, or -1. */
    method Get(key: FlowSrc) returns (r: int)
      requires Valid()
      ensures r == if key in contents then Signed(contents[key]) else -1
      ensures r >= 0 <==> key in contents && contents[key] < 0x8000_0000
      ensures r >= 0 ==> r == contents[key]
    {
      hide *;
      var b := hash(key);
      var last, next, i := Locate(key);
      Hashed(key);
      OpenValid();
      FieldsAre();
      CountAt(Fields(), hash, table[..], chains, contents, b, i, key);
      if next == null || Compare(key, next.key) != 0 {
        return -1;
      }
      SignedIs(next.value);
      return Signed(next.value);
    }

    // The counter of an entry that is there is overwritten.
    method Replace(b: nat, next: Entry, ghost i: nat, value: Word)
      requires Valid() && b < |chains| && i < |chains[b]| && next == chains[b][i] && next in entries
      modifies this`contents, next`value
      ensures Valid() && contents == old(contents)[next.key := value] && Remaining() == old(Remaining())
    {
      hide *;
      RemainingIs();
      OpenValid();
      FieldsAre();
      ghost var st, heads, m := Fields(), table[..], contents;
      BinsReplace(st, hash, heads, chains, m, b, i, value);
      next.value := value;
      contents := contents[next.key := value];
      FieldsAre();
      assert Fields() == st[next := View(value, st[next].next)];
      assert table[..] == heads;
      RemainingIs();
      ShutValid();
    }

    // What the bins hold after their links have changed.
    ghost method Adopt(chains: seq<seq<Entry>>, contents: map<FlowSrc, Word>)
      requires table.Length == size == |chains|
      requires Bins(Fields(), hash, table[..], chains, contents) && CursorOk(chains, nextBin, lastVisit)
      modifies this`chains, this`contents
      ensures Valid() && this.contents == contents && Remaining() == Ahead(chains, nextBin, lastVisit)
    {
      hide *;
      FieldsAre();
      ghost var st, heads := Fields(), table[..];
      this.chains, this.contents := chains, contents;
      FieldsAre();
      assert Fields() == st && table[..] == heads;
      RemainingIs();
      ShutValid();
    }

    // A new entry, linked in between its neighbours.
    method Link(b: nat, last: Entry?, next: Entry?, ghost c: seq<Entry>, ghost i: nat, key: FlowSrc, value: Word)
        returns (e: Entry)
      requires b < table.Length && i <= |c| && (forall x :: x in c ==> x in entries)
      requires next == At(c, i) && last == Prior(c, i) && (last != null ==> last in entries)
      requires (next == table[b] <==> i == 0) && (last == null <==> i == 0)
      modifies this`entries, table, entries`next
      ensures fresh(e) && e.key == key && entries == old(entries) + {e}
      ensures forall x :: x in c ==> x in old(Fields())
      ensures Fields() == StoreIn(old(Fields()), c, i, e, value)
      ensures table[..] == old(table[..])[b := if i == 0 then e else old(table[..])[b]]
    {
      hide *;
      FieldsAre();
      ghost var st := Fields();
      e := new Entry(key, value);
      LinkIn(table, b, last, next, e);
      entries := entries + {e};
      FieldsAre();
      StoreInIs(st, c, i, e, value, Fields());
    }

    // A new entry is linked in at its place.
    method Enter(b: nat, last: Entry?, next: Entry?, ghost i: nat, key: FlowSrc, value: Word)
      requires Valid() && b == hash(key) && b < |chains| && i <= |chains[b]|
      requires next == At(chains[b], i) && last == Prior(chains[b], i)
      requires PlaceOf(chains[b], key, i) && !HasKey(chains[b], key)
      requires (next == table[b] <==> i == 0) && (last == null <==> i == 0)
      requires last != null ==> last in entries
      modifies this`chains, this`contents, this`entries, table, entries`next
      ensures Valid() && contents == old(contents)[key := value]
      ensures entries >= old(entries) && fresh(entries - old(entries))
      ensures Without(Remaining(), key) == old(Remaining())
      ensures HasKey(Remaining(), key) <==> Upcoming(hash, nextBin, lastVisit, key)
    {
      hide *;
      RemainingIs();
      OpenValid();
      FieldsAre();
      ghost var st, heads, m, c := Fields(), table[..], contents, chains[b];
      VisitedKey(st, hash, heads, chains, m, nextBin, lastVisit, key);
      ghost var was := chains;
      assert forall x :: x in c ==> x in entries by { ChainStored(st, hash, heads, chains, m, b); }
      var e := Link(b, last, next, c, i, key, value);
      BinsInsert(st, hash, heads, chains, m, b, i, e, value);
      CursorInsert(chains, nextBin, lastVisit, b, i, e);
      AheadInsert(Fields(), hash, table[..], was, contents[key := value], nextBin, lastVisit, b, i, e);
      Adopt(chains[b := c[..i] + [e] + c[i..]], contents[key := value]);
    }

    /** Set the counter of `key`, entering the flow if it is not there. An iteration under way
        goes on as before, and yields a flow that was entered exactly if its place is ahead. */
    method Set(key: FlowSrc, value: Word)
      requires Valid()
      modifies this`chains, this`contents, this`entries, table, entries
      ensures Valid() && contents == old(contents)[key := value]
      ensures entries >= old(entries) && fresh(entries - old(entries))
      ensures key in old(contents) ==> Remaining() == old(Remaining())
      ensures key !in old(contents) ==>
        Without(Remaining(), key) == old(Remaining()) && (HasKey(Remaining(), key) <==> Upcoming(hash, nextBin, lastVisit, key))
    {
      hide *;
      var b := hash(key);
      var last, next, i := Locate(key);
      OpenValid();
      CountAt(Fields(), hash, table[..], chains, contents, b, i, key);
      if next != null && Compare(key, next.key) == 0 {
        Replace(b, next, i, value);
      } else {
        Enter(b, last, next, i, key, value);
      }
    }

    // An entry is linked out between its neighbours.
    method Unlink(b: nat, last: Entry?, next: Entry, ghost c: seq<Entry>, ghost i: nat)
      requires b < table.Length && i < |c| && (forall x :: x in c ==> x in entries)
      requires next == c[i] && last == Prior(c, i) && next.next == At(c, i + 1)
      requires (next == table[b] <==> i == 0) && (last == null <==> i == 0) && last != next
      modifies table, entries`next
      ensures forall x :: x in c ==> x in old(Fields())
      ensures Fields() == StoreOut(old(Fields()), c, i) && next.next == old(next.next)
      ensures table[..] == old(table[..])[b := if i == 0 then At(c, 1) else old(table[..])[b]]
    {
      FieldsAre();
      ghost var st := Fields();
      hide *;
      PriorIn(c, i);
      LinkOut(table, b, last, next);
      FieldsAre();
      StoreOutIs(st, c, i, Fields());
    }

    // An iteration that stands on `next` goes to its successor.
    method Stand(next: Entry)
      modifies this`lastVisit
      ensures lastVisit == (if next == old(lastVisit) then next.next else old(lastVisit))
      ensures Fields() == old(Fields())
    {
      FieldsAre();
      ghost var st := Fields();
      if next == lastVisit {
        lastVisit := next.next;
      }
      FieldsAre();
      assert Fields() == st;
    }

    // An entry is linked out; an iteration standing on it moves on to its successor, or off
    // the chain.
    method Drop(b: nat, last: Entry?, next: Entry, ghost i: nat)
      requires Valid() && b < |chains| && i < |chains[b]| && next == chains[b][i] && last == Prior(chains[b], i)
      requires (next == table[b] <==> i == 0) && (last == null <==> i == 0)
      requires (last != null ==> last in entries && last != next)
      modifies this`chains, this`contents, this`lastVisit, table, entries`next
      ensures Valid() && contents == old(contents) - {next.key}
      ensures lastVisit == (if next == old(lastVisit) then next.next else old(lastVisit)) && next.next == old(next.next)
      ensures Remaining() == LeftAhead(old(Remaining()), next == old(lastVisit), next.next == null, next.key)
    {
      hide *;
      RemainingIs();
      OpenValid();
      FieldsAre();
      ghost var st, heads, m, c := Fields(), table[..], contents, chains[b];
      OpenBin(b);
      AtIs(c, i, next.key);
      LinkedAt(st, table[b], c, i);
      CursorRemove(st, hash, heads, chains, m, nextBin, lastVisit, b, i);
      AheadRemove(st, hash, heads, chains, m, nextBin, lastVisit, b, i);
      BinsRemove(st, hash, heads, chains, m, b, i);
      Unlink(b, last, next, c, i);
      Stand(next);
      Adopt(chains[b := c[..i] + c[i + 1..]], contents - {next.key});
    }

    /** Take a key out of the table. An iteration under way goes on without it; but when it is
        the key visited last, the iteration passes over its successor in the bin as well. */
    method Del(key: FlowSrc)
      requires Valid()
      modifies this`chains, this`contents, this`lastVisit, table, entries`next
      ensures Valid() && contents == old(contents) - {key}
      ensures var v := old(lastVisit);
        Remaining() == LeftAhead(old(Remaining()), v != null && v.key == key, v != null && old(v.next) == null, key)
    {
      hide *;
      OpenValid();
      FieldsAre();
      RemainingIs();
      VisitedKey(Fields(), hash, table[..], chains, contents, nextBin, lastVisit, key);
      LeftAheadIs(Remaining(), false, true, key);
      LeftAheadIs(Remaining(), false, false, key);
      var b := hash(key);
      var last, next, i := Locate(key);
      CountAt(Fields(), hash, table[..], chains, contents, b, i, key);
      if next != null && Compare(key, next.key) == 0 {
        Drop(b, last, next, i);
      } else {
        assert contents == contents - {key};
        AheadWithoutNone(Fields(), hash, table[..], chains, contents, nextBin, lastVisit, key);
      }
    }

    // Empty the table and reset the cursor.
    method Refresh()
      requires Valid()
      modifies this, table
      ensures Valid() && contents == map[] && nextBin == -1 && entries == {}
    {
      for i := 0 to size
        invariant table.Length == size && forall j :: 0 <= j < i ==> table[j] == null
      {
        table[i] := null;
      }
      nextBin, lastVisit := -1, null;
      chains := seq(size, _ => []);
      contents, entries := map[], {};
    }

    // The entries an iteration has still to yield, in order.
    ghost function Remaining(): seq<Entry>
      reads this
    {
      Ahead(chains, nextBin, lastVisit)
    }

    /** One step of the iteration: the next entry, or nothing and the cursor reset. */
    method Next() returns (r: Option<(FlowSrc, Word)>)
      requires Valid()
      modifies this`nextBin, this`lastVisit
      ensures Valid()
      ensures old(Remaining()) == [] ==> r == None && nextBin == -1
      ensures old(Remaining()) != [] ==>
        var e := old(Remaining())[0];
        e.key in contents && r == Some((e.key, contents[e.key])) && Remaining() == old(Remaining())[1..]
    {
      hide *;
      OpenValid();
      FieldsAre();
      ghost var st, heads, rem := Fields(), table[..], Remaining();
      RemainingIs();
      CursorRange(chains, nextBin, lastVisit);
      if nextBin >= 0 && nextBin < size {
        StepInChain(st, hash, heads, chains, contents, nextBin, lastVisit);
        if lastVisit != null && lastVisit.next != null {
          var entry := lastVisit.next;
          lastVisit := entry;
          FieldsAre();
          assert Fields() == st;
          RemainingIs();
          ShutValid();
          return Some((entry.key, entry.value));
        }
      }
      StartIs(chains, nextBin, lastVisit);
      while true
        invariant -1 <= nextBin < size && rem == Rest(chains, nextBin + 1)
        decreases size - nextBin
      {
        nextBin := nextBin + 1;
        StepToBin(st, hash, heads, chains, contents, nextBin);
        if nextBin >= size {
          nextBin := -1;
          lastVisit := null;
          FieldsAre();
          assert Fields() == st;
          ShutValid();
          return None;
        }
        var entry := table[nextBin];
        if entry != null {
          lastVisit := entry;
          FieldsAre();
          assert Fields() == st;
          RemainingIs();
          ShutValid();
          return Some((entry.key, entry.value));
        }
      }
    }

    lemma {:induction false} RemainingIs()
      ensures Remaining() == Ahead(chains, nextBin, lastVisit)
    {}

    /** An iteration has ahead of it exactly the flows whose place is behind the cursor, once
        each, bin by bin and in order. */
    lemma {:induction false} RemainingAre()
      requires Valid()
      ensures Sorted(hash, Remaining())
      ensures forall k :: HasKey(Remaining(), k) <==> k in contents && Upcoming(hash, nextBin, lastVisit, k)
    {
      hide *;
      OpenValid();
      RemainingIs();
      AheadSorted(Fields(), hash, table[..], chains, contents, nextBin, lastVisit);
      forall k ensures HasKey(Remaining(), k) <==> k in contents && Upcoming(hash, nextBin, lastVisit, k) {
        AheadHas(Fields(), hash, table[..], chains, contents, nextBin, lastVisit, k);
      }
    }

    /** From the reset cursor an iteration yields every flow of the table exactly once. */
    lemma {:induction false} YieldsEachOnce()
      requires Valid() && nextBin == -1
      ensures KeysOnce(Remaining()) && forall k :: k in contents <==> HasKey(Remaining(), k)
    {
      RestOnce(Fields(), hash, table[..], chains, contents, 0);
    }

    /** A new table of what the iteration has still to yield: all of it, from the reset cursor. */
    method Copy() returns (t: Table)
      requires Valid()
      modifies this`nextBin, this`lastVisit
      ensures Valid() && nextBin == -1
      ensures fresh(t) && fresh(t.table) && fresh(t.entries) && t.Valid() && t.nextBin == -1
      ensures Copied(t.contents, contents, old(Remaining()))
      ensures old(nextBin) == -1 ==> t.contents == contents
    {
      hide *;
      OpenValid();
      HashOk(Fields(), hash, table[..], chains, contents);
      t := new Table(size, hash);
      ghost var rem, n := Remaining(), 0;
      CopiedNone(contents, rem);
      if nextBin == -1 { YieldsEachOnce(); }
      var r := Next();
      while r != None
        invariant Valid() && n <= |rem|
        invariant fresh(t) && fresh(t.table) && fresh(t.entries) && t.Valid() && t.nextBin == -1
        invariant r == None ==> n == |rem| && nextBin == -1
        invariant r != None ==> n < |rem| && rem[n].key in contents && r == Some((rem[n].key, contents[rem[n].key]))
        invariant r != None ==> Remaining() == rem[n + 1..]
        invariant Copied(t.contents, contents, rem[..n])
        decreases |rem| - n
      {
        CopiedOne(t.contents, contents, rem, n);
        t.Set(r.value.0, r.value.1);
        r := Next();
        n := n + 1;
      }
      assert rem[..n] == rem;
      CopiedAll(t.contents, contents, rem);
    }
  }

  // No key twice.
  ghost predicate KeysOnce(s: seq<Entry>)
  {
    forall i, j :: 0 <= i < j < |s| ==> s[i].key != s[j].key
  }

  // `m1` is what `m` says of the keys of `s`.
  ghost predicate Copied(m1: map<FlowSrc, Word>, m: map<FlowSrc, Word>, s: seq<Entry>)
  {
    (forall k :: k in m1 <==> HasKey(s, k)) && forall k :: k in m1 ==> k in m && m1[k] == m[k]
  }

  lemma {:induction false} CopiedNone(m: map<FlowSrc, Word>, s: seq<Entry>)
    ensures Copied(map[], m, s[..0])
  {}

  lemma {:induction false} CopiedOne(m1: map<FlowSrc, Word>, m: map<FlowSrc, Word>, s: seq<Entry>, n: nat)
    requires n < |s| && Copied(m1, m, s[..n]) && s[n].key in m
    ensures Copied(m1[s[n].key := m[s[n].key]], m, s[..n + 1])
  {
    forall k ensures HasKey(s[..n + 1], k) <==> HasKey(s[..n], k) || k == s[n].key {
      var a, b := s[..n], s[..n + 1];
      assert b[n] == s[n] && forall i :: 0 <= i < n ==> a[i] == b[i];
    }
  }

  lemma {:induction false} CopiedAll(m1: map<FlowSrc, Word>, m: map<FlowSrc, Word>, s: seq<Entry>)
    requires Copied(m1, m, s)
    ensures (forall k :: k in m <==> HasKey(s, k)) ==> m1 == m
  {}

  lemma {:induction false} HashOk(st: Store, hash: Hash, heads: seq<Entry?>, chains: seq<seq<Entry>>,
      m: map<FlowSrc, Word>)
    requires Bins(st, hash, heads, chains, m)
    ensures |chains| > 0 && forall k :: hash(k) < |chains|
  {}

  // The bins from `b` on hold each key that hashes there once, and no other.
  lemma {:induction false} RestOnce(st: Store, hash: Hash, heads: seq<Entry?>, chains: seq<seq<Entry>>,
      m: map<FlowSrc, Word>, b: nat)
    requires Bins(st, hash, heads, chains, m)
    ensures KeysOnce(Rest(chains, b)) && forall k :: HasKey(Rest(chains, b), k) <==> k in m && hash(k) >= b
    decreases |chains| - b
  {
    if b < |chains| {
      RestOnce(st, hash, heads, chains, m, b + 1);
      var c, r := chains[b], Rest(chains, b + 1);
      assert Bin(st, hash, b, heads[b], c, m);
      forall k ensures HasKey(c + r, k) <==> HasKey(c, k) || HasKey(r, k) {
        HasKeyConcat(c, r, k);
      }
      forall i, j | 0 <= i < j < |c + r| ensures (c + r)[i].key != (c + r)[j].key {
        if j < |c| {
          assert Less(c[i].key, c[j].key);
        } else if i < |c| {
          assert HasKey(r, r[j - |c|].key);
        }
      }
    } else {
      HashOk(st, hash, heads, chains, m);
    }
  }

  lemma {:induction false} HasKeyConcat(c: seq<Entry>, r: seq<Entry>, k: FlowSrc)
    ensures HasKey(c + r, k) <==> HasKey(c, k) || HasKey(r, k)
  {
    if j :| 0 <= j < |r| && r[j].key == k { assert (c + r)[|c| + j] == r[j]; }
    if j :| 0 <= j < |c| && c[j].key == k { assert (c + r)[j] == c[j]; }
  }

  lemma {:induction false} CursorRange(chains: seq<seq<Entry>>, nextBin: int, lastVisit: Entry?)
    requires CursorOk(chains, nextBin, lastVisit)
    ensures -1 <= nextBin < |chains| && CursorOk(chains, -1, null)
  {}

  // At the reset cursor everything lies ahead; behind the end of a chain, the bins after it.
  lemma {:induction false} StartIs(chains: seq<seq<Entry>>, nextBin: int, lastVisit: Entry?)
    requires CursorOk(chains, nextBin, lastVisit)
    ensures nextBin < 0 ==> Ahead(chains, nextBin, lastVisit) == Rest(chains, nextBin + 1)
  {}

  lemma {:induction false} ChainStored(st: Store, hash: Hash, heads: seq<Entry?>, chains: seq<seq<Entry>>,
      m: map<FlowSrc, Word>, b: nat)
    requires Bins(st, hash, heads, chains, m) && b < |chains|
    ensures forall x :: x in chains[b] ==> x in st
  {
    assert Bin(st, hash, b, heads[b], chains[b], m);
  }

  lemma {:induction false} PriorIn(c: seq<Entry>, i: nat)
    requires i <= |c|
    ensures Prior(c, i) != null ==> Prior(c, i) in c
  {}

  // What the bins say of one entry.
  lemma {:induction false} EntryAt(st: Store, hash: Hash, heads: seq<Entry?>, chains: seq<seq<Entry>>,
      m: map<FlowSrc, Word>, b: nat, i: nat)
    requires Bins(st, hash, heads, chains, m) && b < |chains| == |heads| && i < |chains[b]|
    ensures var e := chains[b][i]; e in st && st[e].next == At(chains[b], i + 1) && e.key in m && m[e.key] == st[e].value
    ensures hash(chains[b][i].key) == b
    ensures forall j, k :: 0 <= j < k < |chains[b]| ==> Less(chains[b][j].key, chains[b][k].key)
    ensures forall j, k :: 0 <= j < k < |chains[b]| ==> chains[b][j] != chains[b][k]
  {
    assert Bin(st, hash, b, heads[b], chains[b], m);
    OrderedNoDup(hash, b, chains[b]);
  }

  lemma {:induction false} HeadOf(st: Store, hash: Hash, heads: seq<Entry?>, chains: seq<seq<Entry>>,
      m: map<FlowSrc, Word>, b: nat)
    requires Bins(st, hash, heads, chains, m) && b < |chains| == |heads|
    ensures heads[b] == At(chains[b], 0)
  {
    assert Bin(st, hash, b, heads[b], chains[b], m);
  }

  lemma {:induction false} AheadAt(chains: seq<seq<Entry>>, b: nat, i: nat)
    requires b < |chains| && i < |chains[b]| && forall j, k :: 0 <= j < k < |chains[b]| ==> chains[b][j] != chains[b][k]
    ensures CursorOk(chains, b, chains[b][i])
    ensures Ahead(chains, b, chains[b][i]) == chains[b][i + 1..] + Rest(chains, b + 1)
  {
    AfterIs(chains[b], i);
  }

  lemma {:induction false} Shift(c: seq<Entry>, i: nat, r: seq<Entry>)
    requires i <= |c|
    ensures At(c, i) == null ==> i == |c| && c[i..] + r == r
    ensures At(c, i) != null ==> i < |c| && At(c, i) == c[i] && c[i..] + r == [c[i]] + (c[i + 1..] + r)
  {
    if i < |c| { assert c[i..] == [c[i]] + c[i + 1..]; }
  }

  lemma {:induction false} ShiftHead(c: seq<Entry>, r: seq<Entry>)
    ensures At(c, 0) == null ==> c == [] && c + r == r
    ensures At(c, 0) != null ==> |c| > 0 && At(c, 0) == c[0] && c + r == [c[0]] + (c[1..] + r)
  {
    if c != [] { assert c == [c[0]] + c[1..]; }
  }

  lemma {:induction false} VisitedAt(chains: seq<seq<Entry>>, b: nat, e: Entry) returns (i: nat)
    requires b < |chains| && CursorOk(chains, b, e)
    ensures i < |chains[b]| && chains[b][i] == e
  {
    i :| i < |chains[b]| && chains[b][i] == e;
  }

  lemma {:induction false} StepInChain(st: Store, hash: Hash, heads: seq<Entry?>, chains: seq<seq<Entry>>,
      m: map<FlowSrc, Word>, b: nat, e: Entry?)
    requires Bins(st, hash, heads, chains, m) && b < |chains| == |heads| && CursorOk(chains, b, e)
    ensures e == null ==> Ahead(chains, b, e) == Rest(chains, b + 1)
    ensures e != null ==> e in st
    ensures e != null && st[e].next == null ==> Ahead(chains, b, e) == Rest(chains, b + 1)
    ensures e != null && st[e].next != null ==>
      var n := st[e].next;
      n in st && n.key in m && m[n.key] == st[n].value && CursorOk(chains, b, n) && Ahead(chains, b, e) == [n] + Ahead(chains, b, n)
  {
    if e == null {
    } else {
      hide *;
      var i := VisitedAt(chains, b, e);
      EntryAt(st, hash, heads, chains, m, b, i);
      AheadAt(chains, b, i);
      Shift(chains[b], i + 1, Rest(chains, b + 1));
      if i + 1 < |chains[b]| {
        EntryAt(st, hash, heads, chains, m, b, i + 1);
        AheadAt(chains, b, i + 1);
      }
    }
  }

  lemma {:induction false} RestAt(chains: seq<seq<Entry>>, b: nat)
    ensures Rest(chains, b) == if b < |chains| then chains[b] + Rest(chains, b + 1) else []
  {}

  lemma {:induction false} StepToBin(st: Store, hash: Hash, heads: seq<Entry?>, chains: seq<seq<Entry>>,
      m: map<FlowSrc, Word>, b: nat)
    requires Bins(st, hash, heads, chains, m) && |chains| == |heads|
    ensures b >= |chains| ==> Rest(chains, b) == []
    ensures b < |chains| && heads[b] == null ==> Rest(chains, b) == Rest(chains, b + 1)
    ensures b < |chains| && heads[b] != null ==>
      var n := heads[b];
      n in st && n.key in m && m[n.key] == st[n].value && CursorOk(chains, b, n) && Rest(chains, b) == [n] + Ahead(chains, b, n)
  {
    hide *;
    RestAt(chains, b);
    if b < |chains| {
      var c := chains[b];
      HeadOf(st, hash, heads, chains, m, b);
      ShiftHead(c, Rest(chains, b + 1));
      if 0 < |c| {
        var n := c[0];
        assert heads[b] == n;
        EntryAt(st, hash, heads, chains, m, b, 0);
        AheadAt(chains, b, 0);
        assert Rest(chains, b) == [n] + Ahead(chains, b, n);
      }
    }
  }

  // Link `next` out of its chain.
  method LinkOut(table: array<Entry?>, b: nat, last: Entry?, next: Entry)
    requires b < table.Length && (next == table[b] <==> last == null) && next != last
    modifies table, (if last == null then {} else {last})`next
    ensures last != null ==> last.next == next.next
    ensures table[..] == if last == null then old(table[..])[b := next.next] else old(table[..])
  {
    if next == table[b] {
      table[b] := next.next;
    } else {
      last.next := next.next;
    }
  }

  // The entries with another key.
  ghost function Without(s: seq<Entry>, k: FlowSrc): seq<Entry>
  {
    if s == [] then [] else (if s[0].key == k then [] else [s[0]]) + Without(s[1..], k)
  }

  // What an iteration has ahead after `k` was deleted: if `k` was visited last, its successor
  // in the bin, unless there was none, is lost.
  ghost function LeftAhead(ahead: seq<Entry>, visitedLast: bool, endOfBin: bool, k: FlowSrc): seq<Entry>
  {
    if !visitedLast then Without(ahead, k) else if endOfBin || ahead == [] then ahead else ahead[1..]
  }

  lemma {:induction false} WithoutConcat(s: seq<Entry>, t: seq<Entry>, k: FlowSrc)
    ensures Without(s + t, k) == Without(s, k) + Without(t, k)
  {
    if s == [] {
      assert s + t == t;
    } else {
      var r, first := s[1..], if s[0].key == k then [] else [s[0]];
      assert (s + t)[1..] == r + t && (s + t)[0] == s[0];
      WithoutConcat(r, t, k);
      assert first + (Without(r, k) + Without(t, k)) == (first + Without(r, k)) + Without(t, k);
    }
  }

  lemma {:induction false} WithoutNone(s: seq<Entry>, k: FlowSrc)
    requires !HasKey(s, k)
    ensures Without(s, k) == s
  {
    if s != [] {
      assert s[0].key != k;
      forall j | 0 <= j < |s[1..]| ensures s[1..][j].key != k { assert s[1..][j] == s[j + 1]; }
      WithoutNone(s[1..], k);
    }
  }

  // A chain without one of its keys.
  lemma {:induction false} WithoutOne(c: seq<Entry>, i: nat)
    requires i < |c| && forall j :: 0 <= j < |c| && j != i ==> c[j].key != c[i].key
    ensures Without(c, c[i].key) == c[..i] + c[i + 1..]
  {
    var k := c[i].key;
    var s, t := c[..i], c[i + 1..];
    assert !HasKey(s, k) && !HasKey(t, k);
    assert Without([c[i]], k) == [];
    assert c == s + ([c[i]] + t);
    hide Without, HasKey;
    WithoutConcat(s, [c[i]] + t, k);
    WithoutConcat([c[i]], t, k);
    WithoutNone(s, k);
    WithoutNone(t, k);
  }

  lemma {:induction false} KeysApart(hash: Hash, b: nat, c: seq<Entry>, i: nat)
    requires Ordered(hash, b, c) && i < |c|
    ensures forall j :: 0 <= j < |c| && j != i ==> c[j].key != c[i].key
  {
    forall j | 0 <= j < |c| && j != i ensures c[j].key != c[i].key {
      assert j < i ==> Less(c[j].key, c[i].key);
      assert i < j ==> Less(c[i].key, c[j].key);
    }
  }

  lemma {:induction false} BinKeys(st: Store, hash: Hash, heads: seq<Entry?>, chains: seq<seq<Entry>>,
      m: map<FlowSrc, Word>, a: nat)
    requires Bins(st, hash, heads, chains, m) && a < |chains|
    ensures |heads| == |chains| && Ordered(hash, a, chains[a])
    ensures forall i :: 0 <= i < |chains[a]| ==> hash(chains[a][i].key) == a
    ensures forall j, k :: 0 <= j < k < |chains[a]| ==> chains[a][j] != chains[a][k]
  {
    assert Bin(st, hash, a, heads[a], chains[a], m);
    OrderedNoDup(hash, a, chains[a]);
  }

  lemma {:induction false} Elsewhere(hash: Hash, a: nat, c: seq<Entry>, k: FlowSrc)
    requires hash(k) != a && forall i :: 0 <= i < |c| ==> hash(c[i].key) == a
    ensures !HasKey(c, k)
  {}

  // The bins from `a` on, when one of the entries of bin `b` is gone.
  lemma {:induction false} RestRemove(st: Store, hash: Hash, heads: seq<Entry?>, chains: seq<seq<Entry>>,
      m: map<FlowSrc, Word>, b: nat, i: nat, a: nat)
    requires Bins(st, hash, heads, chains, m) && b < |chains| && i < |chains[b]|
    ensures Rest(chains[b := chains[b][..i] + chains[b][i + 1..]], a) == Without(Rest(chains, a), chains[b][i].key)
    ensures a > b ==> Rest(chains[b := chains[b][..i] + chains[b][i + 1..]], a) == Rest(chains, a)
    decreases |chains| - a
  {
    hide *;
    var chains1, k := chains[b := chains[b][..i] + chains[b][i + 1..]], chains[b][i].key;
    RestAt(chains, a);
    RestAt(chains1, a);
    if a < |chains| {
      RestRemove(st, hash, heads, chains, m, b, i, a + 1);
      WithoutConcat(chains[a], Rest(chains, a + 1), k);
      BinKeys(st, hash, heads, chains, m, b);
      if a == b {
        KeysApart(hash, b, chains[b], i);
        WithoutOne(chains[b], i);
      } else {
        BinKeys(st, hash, heads, chains, m, a);
        Elsewhere(hash, a, chains[a], k);
        WithoutNone(chains[a], k);
      }
    } else {
      WithoutEmpty(k);
    }
  }

  lemma {:induction false} WithoutEmpty(k: FlowSrc)
    ensures Without([], k) == []
  {}

  // Cutting a chain at entry `j` and taking the later entry `i` out.
  lemma {:induction false} CutBefore(c: seq<Entry>, i: nat, j: nat)
    requires j < i < |c|
    ensures var c1 := c[..i] + c[i + 1..]; j < |c1| && c1[j] == c[j] && c1[j + 1..] == c[j + 1..i] + c[i + 1..]
    ensures c[j + 1..][i - j - 1] == c[i] && c[j + 1..][..i - j - 1] == c[j + 1..i] && c[j + 1..][i - j..] == c[i + 1..]
  {}

  // The same with an earlier entry, and with the next one.
  lemma {:induction false} CutBehind(c: seq<Entry>, i: nat, j: nat)
    requires i < j < |c|
    ensures var c1 := c[..i] + c[i + 1..]; j - 1 < |c1| && c1[j - 1] == c[j] && c1[j..] == c[j + 1..]
  {}

  // The chain behind entry `j` without the key of entry `i`.
  lemma {:induction false} BehindWithout(c: seq<Entry>, i: nat, j: nat)
    requires i < |c| && j < |c| && forall l :: 0 <= l < |c| && l != i ==> c[l].key != c[i].key
    ensures Without(c[j + 1..], c[i].key) == if j < i then c[j + 1..i] + c[i + 1..] else c[j + 1..]
  {
    var t := c[j + 1..];
    if j < i {
      CutBefore(c, i, j);
      forall l | 0 <= l < |t| && l != i - j - 1 ensures t[l].key != c[i].key { assert t[l] == c[j + 1 + l]; }
      hide Without;
      WithoutOne(t, i - j - 1);
    } else {
      assert !HasKey(t, c[i].key);
      WithoutNone(t, c[i].key);
    }
  }

  lemma {:induction false} NoDupRemove(c: seq<Entry>, i: nat)
    requires i < |c| && forall j, k :: 0 <= j < k < |c| ==> c[j] != c[k]
    ensures var c1 := c[..i] + c[i + 1..]; forall j, k :: 0 <= j < k < |c1| ==> c1[j] != c1[k]
  {
    var c1 := c[..i] + c[i + 1..];
    assert forall j :: 0 <= j < |c1| ==> c1[j] == c[if j < i then j else j + 1];
  }

  lemma {:induction false} LeftAheadIs(ahead: seq<Entry>, visitedLast: bool, endOfBin: bool, k: FlowSrc)
    ensures LeftAhead(ahead, visitedLast, endOfBin, k) ==
      if !visitedLast then Without(ahead, k) else if endOfBin || ahead == [] then ahead else ahead[1..]
  {}

  lemma {:induction false} AheadIs(chains: seq<seq<Entry>>, nextBin: int, lastVisit: Entry?)
    requires CursorOk(chains, nextBin, lastVisit)
    ensures lastVisit == null ==> Ahead(chains, nextBin, lastVisit) == Rest(chains, nextBin + 1)
    ensures nextBin < 0 ==> lastVisit == null && nextBin == -1
    ensures nextBin < |chains|
  {}

  lemma {:induction false} NullAhead(chains: seq<seq<Entry>>, b: nat)
    requires b < |chains|
    ensures Ahead(chains, b, null) == Rest(chains, b + 1)
  {}

  // An iteration that stands before the entry, or behind it, in its bin loses just the entry.
  lemma {:induction false} AheadOfOther(st: Store, hash: Hash, heads: seq<Entry?>, chains: seq<seq<Entry>>,
      m: map<FlowSrc, Word>, b: nat, i: nat, j: nat)
    requires Bins(st, hash, heads, chains, m) && b < |chains| && i < |chains[b]| && j < |chains[b]| && j != i
    ensures Ahead(chains[b := chains[b][..i] + chains[b][i + 1..]], b, chains[b][j]) == Without(Ahead(chains, b, chains[b][j]), chains[b][i].key)
  {
    hide *;
    var c, k, c1 := chains[b], chains[b][i].key, chains[b][..i] + chains[b][i + 1..];
    var rest := Rest(chains, b + 1);
    BinKeys(st, hash, heads, chains, m, b);
    KeysApart(hash, b, c, i);
    RestRemove(st, hash, heads, chains, m, b, i, b + 1);
    NoDupRemove(c, i);
    AheadAt(chains, b, j);
    BehindWithout(c, i, j);
    WithoutConcat(c[j + 1..], rest, k);
    if j < i {
      CutBefore(c, i, j);
      AheadAt(chains[b := c1], b, j);
    } else {
      CutBehind(c, i, j);
      AheadAt(chains[b := c1], b, j - 1);
    }
  }

  // An iteration that stands on the entry moves on to the next one, which it then passes over.
  lemma {:induction false} AheadOfSelf(st: Store, hash: Hash, heads: seq<Entry?>, chains: seq<seq<Entry>>,
      m: map<FlowSrc, Word>, b: nat, i: nat)
    requires Bins(st, hash, heads, chains, m) && b < |chains| && i < |chains[b]|
    ensures var n, chains1 := At(chains[b], i + 1), chains[b := chains[b][..i] + chains[b][i + 1..]];
      var ahead := Ahead(chains, b, chains[b][i]);
      if n == null then Ahead(chains1, b, n) == ahead else ahead != [] && Ahead(chains1, b, n) == ahead[1..]
  {
    hide *;
    var c, c1 := chains[b], chains[b][..i] + chains[b][i + 1..];
    var chains1, rest := chains[b := c1], Rest(chains, b + 1);
    BinKeys(st, hash, heads, chains, m, b);
    RestRemove(st, hash, heads, chains, m, b, i, b + 1);
    NoDupRemove(c, i);
    AheadAt(chains, b, i);
    AtIs(c, i + 1, c[i].key);
    Shift(c, i + 1, rest);
    if i + 1 < |c| {
      CutBehind(c, i, i + 1);
      AheadAt(chains1, b, i);
    } else {
      NullAhead(chains1, b);
    }
  }

  /** What an iteration has ahead after an entry is linked out. */
  lemma {:induction false} AheadRemove(st: Store, hash: Hash, heads: seq<Entry?>, chains: seq<seq<Entry>>,
      m: map<FlowSrc, Word>, nextBin: int, lastVisit: Entry?, b: nat, i: nat)
    requires Bins(st, hash, heads, chains, m) && CursorOk(chains, nextBin, lastVisit) && b < |chains| && i < |chains[b]|
    ensures var e, n := chains[b][i], At(chains[b], i + 1);
      Ahead(chains[b := chains[b][..i] + chains[b][i + 1..]], nextBin, if lastVisit == e then n else lastVisit)
        == LeftAhead(Ahead(chains, nextBin, lastVisit), lastVisit == e, n == null, e.key)
  {
    hide *;
    var c, k, n := chains[b], chains[b][i].key, At(chains[b], i + 1);
    var chains1 := chains[b := c[..i] + c[i + 1..]];
    AheadIs(chains, nextBin, lastVisit);
    RestRemove(st, hash, heads, chains, m, b, i, nextBin + 1);
    LeftAheadIs(Ahead(chains, nextBin, lastVisit), lastVisit == c[i], n == null, k);
    if lastVisit == null {
      if nextBin >= 0 { NullAhead(chains1, nextBin); } else { StartIs(chains1, nextBin, null); }
    } else {
      var j := VisitedAt(chains, nextBin, lastVisit);
      BinKeys(st, hash, heads, chains, m, nextBin);
      BinKeys(st, hash, heads, chains, m, b);
      if nextBin == b {
        if j == i {
          AheadOfSelf(st, hash, heads, chains, m, b, i);
        } else {
          AheadOfOther(st, hash, heads, chains, m, b, i, j);
        }
      } else {
        var d := chains[nextBin];
        assert hash(d[j].key) != hash(k);
        AheadAt(chains, nextBin, j);
        AheadAt(chains1, nextBin, j);
        WithoutConcat(d[j + 1..], Rest(chains, nextBin + 1), k);
        ElsewhereBehind(hash, nextBin, d, j, k);
        WithoutNone(d[j + 1..], k);
      }
    }
  }

  lemma {:induction false} ElsewhereBehind(hash: Hash, a: nat, c: seq<Entry>, j: nat, k: FlowSrc)
    requires j < |c| && hash(k) != a && forall i :: 0 <= i < |c| ==> hash(c[i].key) == a
    ensures !HasKey(c[j + 1..], k)
  {
    Elsewhere(hash, a, c, k);
  }

  lemma {:induction false} AheadWithoutNone(st: Store, hash: Hash, heads: seq<Entry?>, chains: seq<seq<Entry>>,
      m: map<FlowSrc, Word>, nextBin: int, lastVisit: Entry?, k: FlowSrc)
    requires Bins(st, hash, heads, chains, m) && CursorOk(chains, nextBin, lastVisit) && k !in m
    ensures Without(Ahead(chains, nextBin, lastVisit), k) == Ahead(chains, nextBin, lastVisit)
  {
    if nextBin < 0 {
      RestOnce(st, hash, heads, chains, m, 0);
      WithoutNone(Rest(chains, 0), k);
    } else {
      var rest := Rest(chains, nextBin + 1);
      RestOnce(st, hash, heads, chains, m, nextBin + 1);
      WithoutNone(rest, k);
      if lastVisit != null {
        var d := chains[nextBin];
        assert Bin(st, hash, nextBin, heads[nextBin], d, m);
        OrderedNoDup(hash, nextBin, d);
        var j := VisitedAt(chains, nextBin, lastVisit);
        AfterIs(d, j);
        WithoutNone(d[j + 1..], k);
        WithoutConcat(d[j + 1..], rest, k);
      }
    }
  }

  // The entry visited last is in the table.
  lemma {:induction false} VisitedKey(st: Store, hash: Hash, heads: seq<Entry?>, chains: seq<seq<Entry>>,
      m: map<FlowSrc, Word>, nextBin: int, lastVisit: Entry?, k: FlowSrc)
    requires Bins(st, hash, heads, chains, m) && CursorOk(chains, nextBin, lastVisit)
    ensures lastVisit != null ==> lastVisit.key in m && lastVisit in st
    ensures lastVisit != null && lastVisit.key == k ==>
      hash(k) < |chains| && forall i :: 0 <= i < |chains[hash(k)]| && chains[hash(k)][i].key == k ==> chains[hash(k)][i] == lastVisit
  {
    if lastVisit != null {
      var d := chains[nextBin];
      assert Bin(st, hash, nextBin, heads[nextBin], d, m);
      var j := VisitedAt(chains, nextBin, lastVisit);
      KeysApart(hash, nextBin, d, j);
    }
  }

  lemma {:induction false} CursorRemove(st: Store, hash: Hash, heads: seq<Entry?>, chains: seq<seq<Entry>>,
      m: map<FlowSrc, Word>, nextBin: int, lastVisit: Entry?, b: nat, i: nat)
    requires Bins(st, hash, heads, chains, m) && CursorOk(chains, nextBin, lastVisit) && b < |chains| && i < |chains[b]|
    ensures CursorOk(chains[b := chains[b][..i] + chains[b][i + 1..]], nextBin, if lastVisit == chains[b][i] then At(chains[b], i + 1) else lastVisit)
  {
    var c, c1 := chains[b], chains[b][..i] + chains[b][i + 1..];
    forall x | x in c && x != c[i] ensures x in c1 {
      assert x in c[..i] || x in c[i + 1..];
    }
    if i + 1 < |c| { assert c1[i] == c[i + 1]; }
    if nextBin >= 0 && lastVisit == c[i] {
      assert Bin(st, hash, b, heads[b], c, m) && Bin(st, hash, nextBin, heads[nextBin], chains[nextBin], m);
      assert hash(c[i].key) == b == nextBin;
    }
  }

  lemma {:induction false} CursorInsert(chains: seq<seq<Entry>>, nextBin: int, lastVisit: Entry?, b: nat, i: nat,
      e: Entry)
    requires CursorOk(chains, nextBin, lastVisit) && b < |chains| && i <= |chains[b]|
    ensures CursorOk(chains[b := chains[b][..i] + [e] + chains[b][i..]], nextBin, lastVisit)
  {
    assert forall x :: x in chains[b] ==> x in chains[b][..i] || x in chains[b][i..];
  }

  // The place of `k` is behind the cursor.
  ghost predicate Upcoming(hash: Hash, nextBin: int, lastVisit: Entry?, k: FlowSrc)
  {
    nextBin < hash(k) || (nextBin == hash(k) && lastVisit != null && Less(lastVisit.key, k))
  }

  // Bin by bin, and in order within each.
  ghost predicate Sorted(hash: Hash, s: seq<Entry>)
  {
    forall i, j :: 0 <= i < j < |s| ==> Precedes(hash, s[i].key, s[j].key)
  }

  ghost predicate Precedes(hash: Hash, a: FlowSrc, b: FlowSrc)
  {
    hash(a) < hash(b) || (hash(a) == hash(b) && Less(a, b))
  }

  /** What an iteration has ahead after an entry is linked in. */
  lemma {:induction false} AheadInsert(st: Store, hash: Hash, heads: seq<Entry?>, chains: seq<seq<Entry>>,
      m: map<FlowSrc, Word>, nextBin: int, lastVisit: Entry?, b: nat, i: nat, e: Entry)
    requires b < |chains| && i <= |chains[b]| && lastVisit != e
    requires var chains1 := chains[b := chains[b][..i] + [e] + chains[b][i..]];
      Bins(st, hash, heads, chains1, m) && CursorOk(chains1, nextBin, lastVisit)
    ensures var ahead := Ahead(chains[b := chains[b][..i] + [e] + chains[b][i..]], nextBin, lastVisit);
      && Without(ahead, e.key) == Ahead(chains, nextBin, lastVisit)
      && (HasKey(ahead, e.key) <==> Upcoming(hash, nextBin, lastVisit, e.key))
  {
    hide *;
    var c1 := chains[b][..i] + [e] + chains[b][i..];
    var chains1 := chains[b := c1];
    assert c1[i] == e && c1[..i] + c1[i + 1..] == chains[b];
    assert chains1[b := chains[b]] == chains;
    AheadRemove(st, hash, heads, chains1, m, nextBin, lastVisit, b, i);
    LeftAheadIs(Ahead(chains1, nextBin, lastVisit), false, At(c1, i + 1) == null, e.key);
    BinKeys(st, hash, heads, chains1, m, b);
    EntryAt(st, hash, heads, chains1, m, b, i);
    AheadHas(st, hash, heads, chains1, m, nextBin, lastVisit, e.key);
  }

  // The entries behind entry `j` of a bin.
  lemma {:induction false} BehindHas(hash: Hash, b: nat, c: seq<Entry>, j: nat, k: FlowSrc)
    requires Ordered(hash, b, c) && j < |c|
    ensures HasKey(c[j + 1..], k) <==> HasKey(c, k) && Less(c[j].key, k)
  {
    if HasKey(c[j + 1..], k) {
      var l :| 0 <= l < |c[j + 1..]| && c[j + 1..][l].key == k;
      assert c[j + 1 + l].key == k;
    }
    if HasKey(c, k) && Less(c[j].key, k) {
      var l :| 0 <= l < |c| && c[l].key == k;
      CompareOrders(c[j].key, c[l].key, c[j].key);
      assert l > j;
      assert c[j + 1..][l - j - 1] == c[l];
    }
  }

  lemma {:induction false} AheadHas(st: Store, hash: Hash, heads: seq<Entry?>, chains: seq<seq<Entry>>,
      m: map<FlowSrc, Word>, nextBin: int, lastVisit: Entry?, k: FlowSrc)
    requires Bins(st, hash, heads, chains, m) && CursorOk(chains, nextBin, lastVisit)
    ensures HasKey(Ahead(chains, nextBin, lastVisit), k) <==> k in m && Upcoming(hash, nextBin, lastVisit, k)
  {
    RestOnce(st, hash, heads, chains, m, nextBin + 1);
    if lastVisit != null {
      var c, rest := chains[nextBin], Rest(chains, nextBin + 1);
      var j := VisitedAt(chains, nextBin, lastVisit);
      assert Bin(st, hash, nextBin, heads[nextBin], c, m);
      OrderedNoDup(hash, nextBin, c);
      AfterIs(c, j);
      BehindHas(hash, nextBin, c, j, k);
      hide Bins, Rest, After, Less;
      HasKeyConcat(c[j + 1..], rest, k);
    }
  }

  // The bins from `b` on are in order.
  lemma {:induction false} RestSorted(st: Store, hash: Hash, heads: seq<Entry?>, chains: seq<seq<Entry>>,
      m: map<FlowSrc, Word>, b: nat)
    requires Bins(st, hash, heads, chains, m)
    ensures Sorted(hash, Rest(chains, b)) && forall i :: 0 <= i < |Rest(chains, b)| ==> hash(Rest(chains, b)[i].key) >= b
    decreases |chains| - b
  {
    if b < |chains| {
      RestSorted(st, hash, heads, chains, m, b + 1);
      assert Bin(st, hash, b, heads[b], chains[b], m);
      hide Bins, Less;
      SortedConcat(hash, b, chains[b], Rest(chains, b + 1));
    }
  }

  lemma {:induction false} SortedConcat(hash: Hash, b: nat, c: seq<Entry>, r: seq<Entry>)
    requires Ordered(hash, b, c) && Sorted(hash, r) && forall i :: 0 <= i < |r| ==> hash(r[i].key) > b
    ensures Sorted(hash, c + r) && forall i :: 0 <= i < |c + r| ==> hash((c + r)[i].key) >= b
  {
    hide Less;
    var s := c + r;
    assert forall i :: |c| <= i < |s| ==> s[i] == r[i - |c|];
    forall i, j | 0 <= i < j < |s| ensures Precedes(hash, s[i].key, s[j].key) {
      if i >= |c| { assert Precedes(hash, r[i - |c|].key, r[j - |c|].key); }
    }
  }

  lemma {:induction false} AheadSorted(st: Store, hash: Hash, heads: seq<Entry?>, chains: seq<seq<Entry>>,
      m: map<FlowSrc, Word>, nextBin: int, lastVisit: Entry?)
    requires Bins(st, hash, heads, chains, m) && CursorOk(chains, nextBin, lastVisit)
    ensures Sorted(hash, Ahead(chains, nextBin, lastVisit))
  {
    hide *;
    AheadIs(chains, nextBin, lastVisit);
    RestSorted(st, hash, heads, chains, m, nextBin + 1);
    if lastVisit != null {
      var c, rest := chains[nextBin], Rest(chains, nextBin + 1);
      var j := VisitedAt(chains, nextBin, lastVisit);
      BinKeys(st, hash, heads, chains, m, nextBin);
      AheadAt(chains, nextBin, j);
      OrderedBehind(hash, nextBin, c, j + 1);
      SortedConcat(hash, nextBin, c[j + 1..], rest);
    }
  }

  lemma {:induction false} OrderedBehind(hash: Hash, b: nat, c: seq<Entry>, j: nat)
    requires Ordered(hash, b, c) && j <= |c|
    ensures Ordered(hash, b, c[j..])
  {
    hide Less;
    var t := c[j..];
    assert forall i :: 0 <= i < |t| ==> t[i] == c[j + i];
  }

  lemma {:induction false} StoreInIs(st: Store, c: seq<Entry>, i: nat, e: Entry, v: Word, st1: Store)
    requires i <= |c| && (forall x :: x in c ==> x in st) && e !in st
    requires forall x :: x in st1 <==> x in st || x == e
    requires st1[e] == View(v, At(c, i))
    requires forall x :: x in st ==> st1[x] == if x == Prior(c, i) then View(st[x].value, e) else st[x]
    ensures st1 == StoreIn(st, c, i, e, v)
  {}

  lemma {:induction false} StoreOutIs(st: Store, c: seq<Entry>, i: nat, st1: Store)
    requires i < |c| && (forall x :: x in c ==> x in st) && st1.Keys == st.Keys
    requires forall x :: x in st ==> st1[x] == if x == Prior(c, i) then View(st[x].value, At(c, i + 1)) else st[x]
    ensures st1 == StoreOut(st, c, i)
  {}

  // Link a new entry in before `next`, at the head of the bin or behind `last`.
  method LinkIn(table: array<Entry?>, b: nat, last: Entry?, next: Entry?, e: Entry)
    requires b < table.Length && (next == table[b] <==> last == null) && e != last && e.next == null
    modifies table, e`next, (if last == null then {} else {last})`next
    ensures e.next == next && (last != null ==> last.next == e)
    ensures table[..] == if last == null then old(table[..])[b := e] else old(table[..])
  {
    if next == table[b] {
      e.next := next;
      table[b] := e;
    } else if next == null {
      last.next := e;
    } else {
      e.next := next;
      last.next := e;
    }
  }

  // What the table says of a key, read off its place.
  lemma {:induction false} CountAt(st: Store, hash: Hash, heads: seq<Entry?>, chains: seq<seq<Entry>>,
      m: map<FlowSrc, Word>, b: nat, i: nat, key: FlowSrc)
    requires Bins(st, hash, heads, chains, m) && b < |chains| && hash(key) == b && i <= |chains[b]|
    requires HasKey(chains[b], key) <==> i < |chains[b]| && key == chains[b][i].key
    ensures key in m <==> i < |chains[b]| && key == chains[b][i].key
    ensures key in m ==> chains[b][i] in st && m[key] == st[chains[b][i]].value
  {
    assert Bin(st, hash, b, heads[b], chains[b], m);
    hide Less;
  }

  lemma {:induction false} HeadAt(st: Store, head: Entry?, c: seq<Entry>)
    requires Linked(st, head, c)
    ensures head == At(c, 0) && Prior(c, 0) == null
  {}

  lemma {:induction false} HeadIs(c: seq<Entry>, i: nat)
    requires 0 < i <= |c| && forall j, k :: 0 <= j < k < |c| ==> c[j] != c[k]
    ensures At(c, i) != At(c, 0) && At(c, i) != Prior(c, i)
  {}

  lemma {:induction false} LinkedAt(st: Store, head: Entry?, c: seq<Entry>, i: nat)
    requires Linked(st, head, c) && At(c, i) != null && i <= |c|
    ensures i < |c| && At(c, i) == c[i] && c[i] in st && st[c[i]].next == At(c, i + 1) && Prior(c, i + 1) == c[i]
  {}

  lemma {:induction false} LessIs(a: FlowSrc, b: FlowSrc)
    ensures Less(a, b) <==> Compare(a, b) < 0
  {}

  lemma {:induction false} AtIs(c: seq<Entry>, i: nat, key: FlowSrc)
    ensures At(c, i) == null <==> i >= |c|
    ensures i < |c| ==> At(c, i) == c[i] && (Compare(key, c[i].key) == 0 <==> key == c[i].key)
  {
    if i < |c| { CompareOrders(key, c[i].key, key); }
  }
}
