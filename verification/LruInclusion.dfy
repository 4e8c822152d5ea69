/** Inclusion of small caches in large ones: exactly when the small one never holds what the large one has lost. */
module LruInclusion {
  import opened Bytes
  import opened LruSpec
  import opened LruRuns

  // ---------- subsequences -------------------------------------------------

  /** a is what remains of b after crossing out some items. */
  ghost predicate Subsequence(a: seq<Item>, b: seq<Item>) {
    a == [] || (b != [] && ((a[0] == b[0] && Subsequence(a[1..], b[1..])) || Subsequence(a, b[1..])))
  }

  lemma {:induction false} SubsequenceSelf(a: seq<Item>)
    ensures Subsequence(a, a)
  {
    if a != [] { SubsequenceSelf(a[1..]); }
  }

  lemma {:induction false} SubsequenceIn(a: seq<Item>, b: seq<Item>)
    requires Subsequence(a, b)
    ensures forall i :: 0 <= i < |a| ==> a[i] in b
    ensures |a| <= |b|
  {
    if a != [] {
      if a[0] == b[0] && Subsequence(a[1..], b[1..]) {
        SubsequenceIn(a[1..], b[1..]);
        forall i | 0 <= i < |a| ensures a[i] in b { if i > 0 { assert a[i] == a[1..][i - 1]; } }
      } else {
        SubsequenceIn(a, b[1..]);
      }
    }
  }

  lemma {:induction false} SubsequenceWithout(a: seq<Item>, b: seq<Item>, key: string)
    requires Subsequence(a, b) && UniqueKeys(a) && UniqueKeys(b)
    ensures Subsequence(Without(a, key), Without(b, key))
  {
    if a == [] {
    } else if a[0] == b[0] && Subsequence(a[1..], b[1..]) {
      if a[0].key != key { SubsequenceWithout(a[1..], b[1..], key); }
    } else if b[0].key == key {
      SubsequenceIn(a, b[1..]);
      LookupAbsent(a, key);
      WithoutMissing(a, key);
    } else {
      SubsequenceWithout(a, b[1..], key);
    }
  }

  /** Dropping the last item of the smaller list, or of both, keeps the relation. */
  lemma {:induction false} SubsequenceCut(a: seq<Item>, b: seq<Item>)
    requires Subsequence(a, b) && a != []
    ensures Subsequence(a[..|a| - 1], b) && b != [] && Subsequence(a[..|a| - 1], b[..|b| - 1])
  {
    if |a| == 1 {
      assert a[..0] == [];
    } else {
      var a', b' := a[..|a| - 1], b[..|b| - 1];
      SubsequenceIn(a, b);
      if a[0] == b[0] && Subsequence(a[1..], b[1..]) {
        SubsequenceCut(a[1..], b[1..]);
        assert a'[1..] == a[1..][..|a| - 2];
        assert b'[1..] == b[1..][..|b| - 2];
      } else {
        SubsequenceCut(a, b[1..]);
        SubsequenceIn(a, b[1..]);
        assert b'[1..] == b[1..][..|b| - 2];
      }
    }
  }

  /** Payloads are at most m bytes, so few that entries, not bytes, decide what is evicted. */
  ghost predicate Small(items: seq<Item>, m: nat) {
    forall i :: 0 <= i < |items| ==> |items[i].data| <= m
  }

  lemma {:induction false} SmallTotal(items: seq<Item>, m: nat)
    requires Small(items, m)
    ensures Total(items) <= |items| * m
  {
    if items != [] { SmallTotal(items[..|items| - 1], m); }
  }

  lemma SmallFits(items: seq<Item>, m: nat, l: Limits)
    requires Small(items, m) && l.maxEntries * m <= l.maxBytes && |items| <= l.maxEntries
    ensures Fits(items, l)
  {
    SmallTotal(items, m);
    Monotone(|items|, l.maxEntries, m);
  }

  lemma EvictByCount(items: seq<Item>, m: nat, l: Limits)
    requires Small(items, m) && l.maxEntries * m <= l.maxBytes && |items| <= l.maxEntries + 1
    ensures Evict(items, l) == if |items| <= l.maxEntries then items else items[..|items| - 1]
  {
    if |items| <= l.maxEntries {
      SmallFits(items, m, l);
    } else {
      SmallFits(items[..|items| - 1], m, l);
    }
  }

  lemma Monotone(a: nat, b: nat, m: nat)
    requires a <= b
    ensures a * m <= b * m
  {
  }

  /** The relation between the two lists: until the small cache is full they are equal. */
  ghost predicate Included(a: seq<Item>, b: seq<Item>, small: Limits, large: Limits, m: nat) {
    && Ok(a, small) && Ok(b, large) && Small(a, m) && Small(b, m)
    && Subsequence(a, b)
    && (|a| < small.maxEntries ==> a == b)
  }

  /** Neither byte budget can bind for payloads of at most m bytes. */
  ghost predicate Unbinding(small: Limits, large: Limits, m: nat) {
    && small.Valid() && large.Valid() && small.maxEntries <= large.maxEntries
    && small.maxEntries * m <= small.maxBytes && large.maxEntries * m <= large.maxBytes
  }

  lemma UnbindingSize(l: Limits, m: nat)
    requires l.Valid() && l.maxEntries * m <= l.maxBytes
    ensures m <= l.maxBytes
  {
    Monotone(1, l.maxEntries, m);
  }

  lemma SmallFront(items: seq<Item>, it: Item, m: nat)
    requires Small(items, m) && UniqueKeys(items) && |it.data| <= m
    ensures Small(ToFront(items, it), m)
  {
    WithoutKeeps(items, it.key);
  }

  lemma LookupIncluded(a: seq<Item>, b: seq<Item>, key: string)
    requires Subsequence(a, b) && UniqueKeys(b) && Lookup(a, key).Some?
    ensures Lookup(b, key) == Lookup(a, key)
  {
    LookupIn(a, key);
    SubsequenceIn(a, b);
    var j :| 0 <= j < |b| && b[j] == Lookup(a, key).value;
    LookupAt(b, j);
  }

  lemma {:induction false} WithoutLength(items: seq<Item>, key: string)
    ensures |Without(items, key)| == |items| - if Lookup(items, key).Some? then 1 else 0
  {
    if items != [] && items[0].key != key { WithoutLength(items[1..], key); }
  }

  /** Both caches touch the same item. */
  lemma IncludedTouch(a: seq<Item>, b: seq<Item>, it: Item, small: Limits, large: Limits, m: nat)
    requires Included(a, b, small, large, m) && Unbinding(small, large, m) && 0 < |it.data| <= m
    ensures Subsequence(Evict(ToFront(a, it), small), Evict(ToFront(b, it), large))
    ensures |Evict(ToFront(a, it), small)| < small.maxEntries ==>
      Evict(ToFront(a, it), small) == Evict(ToFront(b, it), large)
  {
    var a1, b1 := ToFront(a, it), ToFront(b, it);
    SmallFront(a, it, m);
    SmallFront(b, it, m);
    WithoutLength(a, it.key);
    WithoutLength(b, it.key);
    EvictByCount(a1, m, small);
    EvictByCount(b1, m, large);
    SubsequenceWithout(a, b, it.key);
    assert Subsequence(a1, b1) by { assert a1[1..] == Without(a, it.key) && b1[1..] == Without(b, it.key); }
    if Lookup(a, it.key).Some? { LookupIncluded(a, b, it.key); }
    SubsequenceIn(a, b);
    if |a1| > small.maxEntries { SubsequenceCut(a1, b1); }
  }

  lemma SmallEvict(items: seq<Item>, it: Item, l: Limits, m: nat)
    requires Small(ToFront(items, it), m)
    ensures Small(Evict(ToFront(items, it), l), m)
  {
    EvictLongest(ToFront(items, it), l);
  }

  /** A get that hits only in the large cache reorders that one alone. */
  lemma IncludedLargeHit(a: seq<Item>, b: seq<Item>, key: string, small: Limits, large: Limits, m: nat)
    requires Included(a, b, small, large, m) && Lookup(a, key).None? && Lookup(b, key).Some?
    ensures Included(a, Apply(b, Get(key), large), small, large, m)
  {
    var i := Place(b, key);
    HitReorders(b, key, large);
    ApplyKeeps(b, Get(key), large);
    SmallFront(b, b[i], m);
    SubsequenceWithout(a, b, key);
    WithoutMissing(a, key);
    var b1 := ToFront(b, b[i]);
    assert b1[1..] == Without(b, key);
  }

  /** The puts of a run carry at most m bytes. */
  ghost predicate SmallOp(op: Op, m: nat) {
    op.Put? ==> |op.data| <= m
  }

  ghost predicate SmallOps(ops: seq<Op>, m: nat) {
    forall i :: 0 <= i < |ops| ==> SmallOp(ops[i], m)
  }

  lemma IncludedStep(a: seq<Item>, b: seq<Item>, op: Op, small: Limits, large: Limits, m: nat)
    requires Included(a, b, small, large, m) && Unbinding(small, large, m) && SmallOp(op, m)
    ensures Included(Apply(a, op, small), Apply(b, op, large), small, large, m)
  {
    ApplyKeeps(a, op, small);
    ApplyKeeps(b, op, large);
    UnbindingSize(small, m);
    UnbindingSize(large, m);
    var s, t := Touched(a, op, small), Touched(b, op, large);
    if op.Get? && s.Some? {
      LookupIncluded(a, b, op.key);
      var i := Place(a, op.key);
    }
    if !op.Clear? && s.None? && t.Some? {
      IncludedLargeHit(a, b, op.key, small, large, m);
    } else if !op.Clear? && s.Some? {
      var it := s.value;
      IncludedTouch(a, b, it, small, large, m);
      SmallFront(a, it, m);
      SmallFront(b, it, m);
      SmallEvict(a, it, small, m);
      SmallEvict(b, it, large, m);
    }
  }

  /**
   Inclusion: two caches run the same operations from empty, one with fewer entries allowed, and no byte budget binds.
   Then the small one's list is at every moment a subsequence of the large one's, with equal data, and a get that hits
   in the small one hits in the large one with the same data.
   */
  lemma Inclusion(ops: seq<Op>, small: Limits, large: Limits, m: nat)
    requires Unbinding(small, large, m) && SmallOps(ops, m)
    ensures Included(Run([], ops, small), Run([], ops, large), small, large, m)
    ensures forall key :: Lookup(Run([], ops, small), key).Some? ==>
      Lookup(Run([], ops, large), key) == Lookup(Run([], ops, small), key)
  {
    UnbindingSize(small, m);
    UnbindingSize(large, m);
    IncludedRun(ops, small, large, m, m);
    var a, b := Run([], ops, small), Run([], ops, large);
    forall key | Lookup(a, key).Some? ensures Lookup(b, key) == Lookup(a, key) {
      LookupIncluded(a, b, key);
    }
  }

  // ---------- why inclusion needs room -------------------------------------

  function Key(n: nat): string {
    seq(n, _ => 'k')
  }

  function Payload(size: nat): seq<byte> {
    seq(size, _ => 0)
  }

  /** A put of one byte and then n puts of `size` bytes, each under a key of its own. */
  function Flood(size: nat, n: nat): seq<Op> {
    if n == 0 then [Put(Key(0), Payload(1))] else Flood(size, n - 1) + [Put(Key(n), Payload(size))]
  }

  /** All its items, most recent first. */
  function Layers(size: nat, n: nat): (items: seq<Item>)
    ensures |items| == n + 1
  {
    if n == 0 then [Item(Key(0), Payload(1))] else [Item(Key(n), Payload(size))] + Layers(size, n - 1)
  }

  lemma {:induction false} LayerKeys(size: nat, n: nat)
    ensures forall i :: 0 <= i <= n ==> |Layers(size, n)[i].key| == n - i
    ensures Layers(size, n)[n] == Item(Key(0), Payload(1))
  {
    if n > 0 { LayerKeys(size, n - 1); }
  }

  lemma FloodInit(size: nat, n: nat)
    requires n > 0
    ensures Flood(size, n)[..|Flood(size, n)| - 1] == Flood(size, n - 1)
    ensures Flood(size, n)[|Flood(size, n)| - 1] == Put(Key(n), Payload(size))
  {
  }

  lemma FirstPut(size: nat, l: Limits)
    requires l.Valid()
    ensures Run([], Flood(size, 0), l) == [Item(Key(0), Payload(1))]
  {
    var it := Item(Key(0), Payload(1));
    assert Flood(size, 0)[..0] == [];
    assert ToFront([], it) == [it];
    FrontFits(it, l);
  }

  /** A cache that can store the payloads holds the most recent items, as many as it keeps. */
  lemma {:induction false} FloodLarge(size: nat, n: nat, l: Limits)
    requires l.Valid() && 0 < size <= l.maxBytes
    ensures Run([], Flood(size, n), l) <= Layers(size, n)
  {
    if n == 0 {
      FirstPut(size, l);
    } else {
      FloodInit(size, n);
      FloodLarge(size, n - 1, l);
      FloodStep(Run([], Flood(size, n - 1), l), size, n, l);
    }
  }

  lemma FloodStep(before: seq<Item>, size: nat, n: nat, l: Limits)
    requires n > 0 && 0 < size <= l.maxBytes && before <= Layers(size, n - 1)
    ensures Apply(before, Put(Key(n), Payload(size)), l) <= Layers(size, n)
  {
    var it := Item(Key(n), Payload(size));
    LayerKeys(size, n - 1);
    LookupAbsent(before, it.key);
    WithoutMissing(before, it.key);
    EvictLongest([it] + before, l);
  }

  /** A cache that cannot store them keeps what it has. */
  lemma {:induction false} FloodSmall(size: nat, n: nat, l: Limits)
    requires l.Valid() && l.maxBytes < size
    ensures Run([], Flood(size, n), l) == [Item(Key(0), Payload(1))]
  {
    if n == 0 {
      FirstPut(size, l);
    } else {
      FloodInit(size, n);
      FloodSmall(size, n - 1, l);
    }
  }

  lemma {:induction false} FloodOps(size: nat, n: nat, m: nat)
    requires 0 < size <= m
    ensures SmallOps(Flood(size, n), m)
  {
    if n > 0 { FloodOps(size, n - 1, m); }
  }

  /**
   Without room for every payload inclusion fails. Whatever the entry limits, if some payload of at most m bytes is too
   large for the small cache but not for the large one, a flood of such payloads washes out of the large cache what the
   small one, which refuses them, keeps.
   */
  lemma InclusionNeedsRoom(small: Limits, large: Limits, m: nat)
    requires small.Valid() && large.Valid() && small.maxBytes < m && small.maxBytes < large.maxBytes
    ensures var ops := Flood(small.maxBytes + 1, large.maxEntries);
            && SmallOps(ops, m)
            && !Subsequence(Run([], ops, small), Run([], ops, large))
  {
    var size, n := small.maxBytes + 1, large.maxEntries;
    var a, b := Run([], Flood(size, n), small), Run([], Flood(size, n), large);
    FloodOps(size, n, m);
    FloodSmall(size, n, small);
    FloodLarge(size, n, large);
    RunKeeps([], Flood(size, n), large);
    LayerKeys(size, n);
    assert forall j :: 0 <= j < |b| ==> |b[j].key| == n - j > 0 && b[j] != a[0];
    if Subsequence(a, b) { SubsequenceIn(a, b); }
  }

  // ---------- one entry limit for both budgets -----------------------------

  /** Payloads are not empty, so the byte budget bounds the entries too. */
  function Entries(l: Limits): nat {
    Min(l.maxEntries, l.maxBytes)
  }

  function Normal(l: Limits): Limits {
    Limits(l.maxBytes, Entries(l))
  }

  ghost predicate NoneEmpty(items: seq<Item>) {
    forall i :: 0 <= i < |items| ==> items[i].data != []
  }

  lemma {:induction false} CountBelowTotal(items: seq<Item>)
    requires NoneEmpty(items)
    ensures |items| <= Total(items)
  {
    if items != [] { CountBelowTotal(items[..|items| - 1]); }
  }

  lemma {:induction false} EvictNormal(items: seq<Item>, l: Limits)
    requires NoneEmpty(items)
    ensures Evict(items, l) == Evict(items, Normal(l))
  {
    CountBelowTotal(items);
    if items != [] && !Fits(items, l) { EvictNormal(items[..|items| - 1], l); }
  }

  lemma ApplyNormal(items: seq<Item>, op: Op, l: Limits)
    requires Ok(items, l)
    ensures Apply(items, op, l) == Apply(items, op, Normal(l))
  {
    var t := Touched(items, op, l);
    if t.Some? {
      TouchedSize(items, op, l);
      WithoutKeeps(items, t.value.key);
      EvictNormal(ToFront(items, t.value), l);
    }
  }

  lemma {:induction false} RunNormal(ops: seq<Op>, l: Limits)
    requires l.Valid()
    ensures Run([], ops, l) == Run([], ops, Normal(l))
  {
    if ops != [] {
      var init := ops[..|ops| - 1];
      RunNormal(init, l);
      RunKeeps([], init, l);
      ApplyNormal(Run([], init, l), ops[|ops| - 1], l);
    }
  }

  // ---------- a run that overtakes -----------------------------------------

  lemma {:induction false} RunConcat(items: seq<Item>, a: seq<Op>, b: seq<Op>, l: Limits)
    ensures Run(items, a + b, l) == Run(Run(items, a, l), b, l)
  {
    if b == [] {
      assert a + b == a;
    } else {
      assert (a + b)[..|a + b| - 1] == a + b[..|b| - 1];
      RunConcat(items, a, b[..|b| - 1], l);
    }
  }

  lemma RunSnoc(items: seq<Item>, ops: seq<Op>, op: Op, l: Limits)
    ensures Run(items, ops + [op], l) == Apply(Run(items, ops, l), op, l)
  {
    assert (ops + [op])[..|ops|] == ops;
  }

  lemma FitsRest(items: seq<Item>, rest: seq<Item>, l: Limits)
    requires Fits(items + rest, l)
    ensures Fits(rest, l)
  {
    TotalConcat(items, rest);
  }

  /** What was evicted before makes no difference to what is evicted now. */
  lemma {:induction false} EvictFront(it: Item, items: seq<Item>, l: Limits)
    ensures Evict([it] + Evict(items, l), l) == Evict([it] + items, l)
  {
    if items != [] && !Fits(items, l) {
      var init := items[..|items| - 1];
      if Fits([it] + items, l) { FitsRest([it], items, l); }
      assert ([it] + items)[..|[it] + items| - 1] == [it] + init;
      EvictFront(it, init, l);
    }
  }

  /** Eviction stops at a prefix that fits when the next item does not. */
  lemma EvictExact(kept: seq<Item>, rest: seq<Item>, l: Limits)
    requires Fits(kept, l) && (rest == [] || !Fits(kept + [rest[0]], l))
    ensures Evict(kept + rest, l) == kept
  {
    var all := kept + rest;
    EvictLongest(all, l);
    EvictKeepsFitting(all, kept, l);
    var r := Evict(all, l);
    if |r| > |kept| {
      assert r == kept + [rest[0]] + r[|kept| + 1..];
      FitsPrefix(kept + [rest[0]], r[|kept| + 1..], l);
      assert false;
    }
  }

  ghost predicate AllStorable(items: seq<Item>, l: Limits) {
    forall i :: 0 <= i < |items| ==> Storable(items[i].data, l)
  }

  /** Puts that leave the items in this order, most recent first. */
  function Puts(items: seq<Item>): seq<Op> {
    if items == [] then [] else Puts(items[1..]) + [Put(items[0].key, items[0].data)]
  }

  function Gets(items: seq<Item>): seq<Op> {
    if items == [] then [] else Gets(items[1..]) + [Get(items[0].key)]
  }

  lemma {:induction false} PutAll(items: seq<Item>, l: Limits)
    requires UniqueKeys(items) && AllStorable(items, l)
    ensures Run([], Puts(items), l) == Evict(items, l)
  {
    if items != [] {
      var it, rest := items[0], items[1..];
      PutAll(rest, l);
      RunSnoc([], Puts(rest), Put(it.key, it.data), l);
      PutNew(rest, it, l);
      assert [it] + rest == items;
    }
  }

  lemma PutNew(items: seq<Item>, it: Item, l: Limits)
    requires UniqueKeys([it] + items) && Storable(it.data, l)
    ensures Apply(Evict(items, l), Put(it.key, it.data), l) == Evict([it] + items, l)
  {
    var before := Evict(items, l);
    EvictLongest(items, l);
    var all := [it] + items;
    forall i | 0 <= i < |before| ensures before[i].key != it.key {
      assert before[i] == items[i] == all[i + 1] && all[0] == it;
    }
    LookupAbsent(before, it.key);
    WithoutMissing(before, it.key);
    EvictFront(it, items, l);
  }

  ghost predicate Apart(a: seq<Item>, b: seq<Item>) {
    forall i, j :: 0 <= i < |a| && 0 <= j < |b| ==> a[i].key != b[j].key
  }

  lemma {:induction false} GetsMiss(items: seq<Item>, z: seq<Item>, l: Limits)
    requires Apart(items, z)
    ensures Run(items, Gets(z), l) == items
  {
    if z != [] {
      GetsMiss(items, z[1..], l);
      RunSnoc(items, Gets(z[1..]), Get(z[0].key), l);
      LookupAbsent(items, z[0].key);
    }
  }

  /** Hits bring the items at the back to the front, in the same order. */
  lemma {:induction false} GetsFront(items: seq<Item>, z: seq<Item>, l: Limits)
    requires Ok(items + z, l)
    ensures Run(items + z, Gets(z), l) == z + items
    decreases |z|
  {
    if z == [] {
      assert items + z == items;
    } else {
      var it, rest := z[0], z[1..];
      Rotate(items, it, rest);
      assert z == [it] + rest;
      GetsFront(items + [it], rest, l);
      RunKeeps(items + z, Gets(rest), l);
      RunSnoc(items + z, Gets(rest), Get(it.key), l);
      BackToFront(rest + items, it, l);
    }
  }

  lemma Rotate<T>(a: seq<T>, x: T, b: seq<T>)
    ensures a + ([x] + b) == (a + [x]) + b
    ensures b + (a + [x]) == (b + a) + [x] && [x] + (b + a) == ([x] + b) + a
  {
  }

  lemma BackToFront(items: seq<Item>, it: Item, l: Limits)
    requires Ok(items + [it], l)
    ensures Apply(items + [it], Get(it.key), l) == [it] + items
  {
    var all := items + [it];
    assert all[|items|] == it;
    LookupAt(all, |items|);
    HitReorders(all, it.key, l);
    assert all[..|items|] + all[|items| + 1..] == items;
  }

  lemma PutUnknown(items: seq<Item>, it: Item, l: Limits)
    requires Apart([it], items) && Storable(it.data, l)
    ensures Apply(items, Put(it.key, it.data), l) == Evict([it] + items, l)
  {
    assert [it][0] == it;
    LookupAbsent(items, it.key);
    WithoutMissing(items, it.key);
  }

  /**
   A run of puts, so that the large cache is left with r, t and z and the small one with r and t; gets that bring z to
   the front of the large one; and one more put.
   */
  function Overtake(r: seq<Item>, t: seq<Item>, z: seq<Item>, it: Item): seq<Op> {
    Puts(r + t + z) + Gets(z) + [Put(it.key, it.data)]
  }

  lemma OvertakeRun(r: seq<Item>, t: seq<Item>, z: seq<Item>, it: Item, l: Limits)
    requires UniqueKeys(r + t + z) && AllStorable(r + t + z, l)
    ensures Run([], Overtake(r, t, z, it), l)
         == Apply(Run(Evict(r + t + z, l), Gets(z), l), Put(it.key, it.data), l)
  {
    PutAll(r + t + z, l);
    RunConcat([], Puts(r + t + z), Gets(z), l);
    RunSnoc([], Puts(r + t + z) + Gets(z), Put(it.key, it.data), l);
  }

  /** The keys of all the items are different, and so are those of any part. */
  ghost predicate AllApart(r: seq<Item>, t: seq<Item>, z: seq<Item>, it: Item) {
    && UniqueKeys(r + t + z)
    && Apart([it], r + t + z)
  }

  lemma ApartParts(r: seq<Item>, t: seq<Item>, z: seq<Item>, it: Item)
    requires AllApart(r, t, z, it)
    ensures Apart(r + t, z) && Apart([it], r + t) && Apart([it], z + (r + t)) && UniqueKeys([it] + (z + r))
  {
    var all := r + t + z;
    assert forall i :: 0 <= i < |r + t| ==> (r + t)[i] == all[i];
    assert forall i :: 0 <= i < |z| ==> z[i] == all[|r + t| + i];
    assert forall i :: 0 <= i < |z + (r + t)| ==>
      (z + (r + t))[i] == all[if i < |z| then |r + t| + i else i - |z|];
    assert forall i :: 0 <= i < |[it] + (z + r)| ==>
      ([it] + (z + r))[i] == if i == 0 then it else if i <= |z| then all[|r + t| + i - 1] else all[i - |z| - 1];
    assert [it][0] == it;
  }

  lemma SmallOvertaken(r: seq<Item>, t: seq<Item>, z: seq<Item>, it: Item, l: Limits)
    requires AllApart(r, t, z, it) && AllStorable(r + t + z, l) && Storable(it.data, l)
    requires Fits(r + t, l) && (z == [] || !Fits(r + t + [z[0]], l))
    requires Fits([it] + r, l)
    ensures [it] + r <= Run([], Overtake(r, t, z, it), l)
  {
    ApartParts(r, t, z, it);
    OvertakeRun(r, t, z, it, l);
    EvictExact(r + t, z, l);
    GetsMiss(r + t, z, l);
    PutUnknown(r + t, it, l);
    assert [it] + (r + t) == ([it] + r) + t;
    EvictKeepsFitting([it] + (r + t), [it] + r, l);
  }

  lemma LargeLast(r: seq<Item>, t: seq<Item>, z: seq<Item>, it: Item, l: Limits)
    requires Apart([it], z + (r + t)) && Storable(it.data, l) && !Fits([it] + (z + r), l)
    ensures Apply(z + (r + t), Put(it.key, it.data), l) < [it] + (z + r)
  {
    PutUnknown(z + (r + t), it, l);
    assert [it] + (z + (r + t)) == [it] + (z + r) + t;
    EvictBelow([it] + (z + r), t, l);
  }

  lemma LargeOvertaken(r: seq<Item>, t: seq<Item>, z: seq<Item>, it: Item, l: Limits)
    requires l.Valid() && AllApart(r, t, z, it) && AllStorable(r + t + z, l) && Storable(it.data, l)
    requires Fits(r + t + z, l) && !Fits([it] + (z + r), l)
    ensures Run([], Overtake(r, t, z, it), l) < [it] + (z + r)
  {
    assert Run(Evict(r + t + z, l), Gets(z), l) == z + (r + t) by { GetsFront(r + t, z, l); }
    OvertakeRun(r, t, z, it, l);
    assert Apart([it], z + (r + t)) by { ApartParts(r, t, z, it); }
    LargeLast(r, t, z, it, l);
  }

  /** The large cache has lost the last item of r, which the small one still holds. */
  lemma Overtaken(r: seq<Item>, t: seq<Item>, z: seq<Item>, it: Item, small: Limits, large: Limits)
    requires large.Valid() && AllApart(r, t, z, it) && r != []
    requires AllStorable(r + t + z, small) && Storable(it.data, small)
    requires AllStorable(r + t + z, large) && Storable(it.data, large)
    requires Fits(r + t, small) && (z == [] || !Fits(r + t + [z[0]], small))
    requires Fits(r + t + z, large)
    requires Fits([it] + r, small) && !Fits([it] + (z + r), large)
    ensures !Subsequence(Run([], Overtake(r, t, z, it), small), Run([], Overtake(r, t, z, it), large))
  {
    var a, b := Run([], Overtake(r, t, z, it), small), Run([], Overtake(r, t, z, it), large);
    SmallOvertaken(r, t, z, it, small);
    LargeOvertaken(r, t, z, it, large);
    ApartParts(r, t, z, it);
    var all, last := [it] + (z + r), r[|r| - 1];
    assert a[|r|] == last && all[|all| - 1] == last;
    LastLost(all, b);
    LookupIn(b, last.key);
    if Subsequence(a, b) { SubsequenceIn(a, b); }
  }

  // ---------- items of given sizes -----------------------------------------

  /** Items of 1 to `cap` bytes, `total` in all, the first as large as may be, under keys numbered from `from`. */
  function Sized(total: nat, count: nat, cap: nat, from: nat): (items: seq<Item>)
    requires count <= total <= count * cap
    ensures |items| == count
    decreases count
  {
    if count == 0 then [] else
    var size := Min(cap, total - (count - 1));
    SizedRest(total, count, cap);
    [Item(Key(from), Payload(size))] + Sized(total - size, count - 1, cap, from + 1)
  }

  lemma SizedRest(total: nat, count: nat, cap: nat)
    requires 0 < count <= total <= count * cap
    ensures var size := Min(cap, total - (count - 1)); 0 < size && count - 1 <= total - size <= (count - 1) * cap
  {
    assert count * cap == (count - 1) * cap + cap;
    assert (count - 1) * cap >= count - 1 by { Monotone(1, cap, count - 1); }
  }

  /** Payloads of 1 to `cap` bytes under keys numbered from `from`. */
  ghost predicate Rungs(items: seq<Item>, from: nat, cap: nat) {
    forall i :: 0 <= i < |items| ==> 0 < |items[i].data| <= cap && |items[i].key| == from + i
  }

  lemma RungsConcat(a: seq<Item>, b: seq<Item>, from: nat, cap: nat)
    requires Rungs(a, from, cap) && Rungs(b, from + |a|, cap)
    ensures Rungs(a + b, from, cap)
  {
  }

  lemma {:induction false} SizedSizes(total: nat, count: nat, cap: nat, from: nat)
    requires count <= total <= count * cap
    ensures Rungs(Sized(total, count, cap, from), from, cap)
    decreases count
  {
    if count > 0 {
      var size := Min(cap, total - (count - 1));
      SizedRest(total, count, cap);
      SizedSizes(total - size, count - 1, cap, from + 1);
      RungsConcat([Item(Key(from), Payload(size))], Sized(total - size, count - 1, cap, from + 1), from, cap);
    }
  }

  lemma {:induction false} SizedTotal(total: nat, count: nat, cap: nat, from: nat)
    requires count <= total <= count * cap
    ensures Total(Sized(total, count, cap, from)) == total
    decreases count
  {
    if count > 0 {
      var size := Min(cap, total - (count - 1));
      SizedRest(total, count, cap);
      SizedTotal(total - size, count - 1, cap, from + 1);
      TotalOne(Item(Key(from), Payload(size)));
      TotalConcat([Item(Key(from), Payload(size))], Sized(total - size, count - 1, cap, from + 1));
    }
  }

  /** The numbers of items and bytes in an overtaking run; `last` is the size of the final put. */
  datatype Plan = Plan(rs: nat, rBytes: nat, ts: nat, zs: nat, zBytes: nat, last: nat) {
    ghost predicate Valid(cap: nat) {
      rs <= rBytes <= rs * cap && zs <= zBytes <= zs * cap && 0 < last <= cap
    }

    function R(cap: nat): seq<Item>
      requires Valid(cap)
    {
      Sized(rBytes, rs, cap, 1)
    }

    function T(): seq<Item> {
      Sized(ts, ts, 1, 1 + rs)
    }

    function Z(cap: nat): seq<Item>
      requires Valid(cap)
    {
      Sized(zBytes, zs, cap, 1 + rs + ts)
    }

    function Final(): Item {
      Item(Key(0), Payload(last))
    }

    /** The small cache keeps r and t only, the large one r, t and z; then the put leaves r in the small one only. */
    ghost predicate Overtakes(small: Limits, large: Limits, cap: nat) {
      && Valid(cap) && 0 < rs && cap <= small.maxBytes && cap <= large.maxBytes
      && rs + ts <= small.maxEntries && rBytes + ts <= small.maxBytes
      && (zs > 0 ==>
            rs + ts + 1 > small.maxEntries || rBytes + ts + Min(cap, zBytes - (zs - 1)) > small.maxBytes)
      && rs + ts + zs <= large.maxEntries && rBytes + ts + zBytes <= large.maxBytes
      && rs + 1 <= small.maxEntries && last + rBytes <= small.maxBytes
      && (1 + zs + rs > large.maxEntries || last + zBytes + rBytes > large.maxBytes)
    }

    function Ops(cap: nat): seq<Op>
      requires Valid(cap)
    {
      Overtake(R(cap), T(), Z(cap), Final())
    }
  }

  lemma PlanKeys(p: Plan, cap: nat)
    requires p.Valid(cap) && 0 < cap
    ensures Rungs(p.R(cap) + p.T() + p.Z(cap), 1, cap)
  {
    SizedSizes(p.rBytes, p.rs, cap, 1);
    SizedSizes(p.ts, p.ts, 1, 1 + p.rs);
    SizedSizes(p.zBytes, p.zs, cap, 1 + p.rs + p.ts);
    RungsConcat(p.R(cap), p.T(), 1, cap);
    RungsConcat(p.R(cap) + p.T(), p.Z(cap), 1, cap);
  }

  lemma PlanApart(p: Plan, cap: nat)
    requires p.Valid(cap) && 0 < cap
    ensures AllApart(p.R(cap), p.T(), p.Z(cap), p.Final())
  {
    PlanKeys(p, cap);
    assert |[p.Final()][0].key| == 0;
  }

  lemma PlanTotals(p: Plan, cap: nat)
    requires p.Valid(cap)
    ensures var r, t, z, it := p.R(cap), p.T(), p.Z(cap), p.Final();
      && Total(r + t) == p.rBytes + p.ts && Total(r + t + z) == p.rBytes + p.ts + p.zBytes
      && Total([it] + r) == p.last + p.rBytes && Total([it] + (z + r)) == p.last + (p.zBytes + p.rBytes)
  {
    var r, t, z, it := p.R(cap), p.T(), p.Z(cap), p.Final();
    SizedTotal(p.rBytes, p.rs, cap, 1);
    SizedTotal(p.ts, p.ts, 1, 1 + p.rs);
    SizedTotal(p.zBytes, p.zs, cap, 1 + p.rs + p.ts);
    TotalOne(it);
    TotalConcat(r, t);
    TotalConcat(r + t, z);
    TotalConcat([it], r);
    TotalConcat(z, r);
    TotalConcat([it], z + r);
  }

  lemma PlanNext(p: Plan, cap: nat)
    requires p.Valid(cap) && p.zs > 0
    ensures var r, t, z := p.R(cap), p.T(), p.Z(cap);
      Total(r + t + [z[0]]) == p.rBytes + p.ts + Min(cap, p.zBytes - (p.zs - 1))
  {
    PlanTotals(p, cap);
    TotalConcat(p.R(cap) + p.T(), [p.Z(cap)[0]]);
    TotalOne(p.Z(cap)[0]);
  }

  lemma PlanOvertakes(p: Plan, small: Limits, large: Limits, cap: nat)
    requires small.Valid() && large.Valid() && p.Overtakes(small, large, cap)
    ensures !Subsequence(Run([], p.Ops(cap), small), Run([], p.Ops(cap), large))
  {
    PlanKeys(p, cap);
    PlanApart(p, cap);
    PlanTotals(p, cap);
    if p.zs > 0 { PlanNext(p, cap); }
    Overtaken(p.R(cap), p.T(), p.Z(cap), p.Final(), small, large);
  }

  lemma {:induction false} PutsSmall(items: seq<Item>, m: nat)
    requires Small(items, m)
    ensures SmallOps(Puts(items), m)
  {
    if items != [] { PutsSmall(items[1..], m); }
  }

  lemma {:induction false} GetsSmall(items: seq<Item>, m: nat)
    ensures SmallOps(Gets(items), m)
  {
    if items != [] { GetsSmall(items[1..], m); }
  }

  lemma PlanSmall(p: Plan, cap: nat, m: nat)
    requires p.Valid(cap) && 0 < cap <= m
    ensures SmallOps(p.Ops(cap), m)
  {
    PlanKeys(p, cap);
    PutsSmall(p.R(cap) + p.T() + p.Z(cap), m);
    GetsSmall(p.Z(cap), m);
  }

  // ---------- exactly when -------------------------------------------------

  /** In every run of puts of at most m bytes the small cache's list is a subsequence of the large one's. */
  ghost predicate Nested(small: Limits, large: Limits, m: nat) {
    forall ops :: SmallOps(ops, m) ==> Subsequence(Run([], ops, small), Run([], ops, large))
  }

  /**
   The condition on the limits. Both caches store the same payloads, the small one allows no more entries, and one of
   three things holds: it never holds more than one item, the caches are the same, or no byte budget can bind.
   */
  predicate Comparable(small: Limits, large: Limits, m: nat) {
    var cap, k, n := Min(m, small.maxBytes), Entries(small), Entries(large);
    m == 0
    || (&& cap == Min(m, large.maxBytes) && k <= n
        && (|| k == 1
            || (k == n && small.maxBytes == large.maxBytes)
            || (k * cap <= small.maxBytes && n * cap <= large.maxBytes)))
  }

  // Where the condition holds.

  lemma {:induction false} NothingStored(ops: seq<Op>, l: Limits)
    requires SmallOps(ops, 0)
    ensures Run([], ops, l) == []
  {
    if ops != [] { NothingStored(ops[..|ops| - 1], l); }
  }

  lemma Refused(items: seq<Item>, op: Op, cap: nat, m: nat, l: Limits)
    requires SmallOp(op, m) && cap == Min(m, l.maxBytes) && !SmallOp(op, cap)
    ensures Apply(items, op, l) == items
  {
  }

  lemma {:induction false} IncludedRun(ops: seq<Op>, small: Limits, large: Limits, cap: nat, m: nat)
    requires Unbinding(small, large, cap) && SmallOps(ops, m)
    requires cap == Min(m, small.maxBytes) == Min(m, large.maxBytes)
    ensures Included(Run([], ops, small), Run([], ops, large), small, large, cap)
  {
    if ops != [] {
      var init, op := ops[..|ops| - 1], ops[|ops| - 1];
      var a, b := Run([], init, small), Run([], init, large);
      IncludedRun(init, small, large, cap, m);
      if SmallOp(op, cap) {
        IncludedStep(a, b, op, small, large, cap);
      } else {
        Refused(a, op, cap, m, small);
        Refused(b, op, cap, m, large);
      }
    }
  }

  /** A cache of one entry holds what was touched last, which no cache that stores it has evicted. */
  ghost predicate OneHeld(a: seq<Item>, b: seq<Item>, small: Limits, large: Limits) {
    Ok(a, small) && Ok(b, large) && small.maxEntries == 1 && (a == [] || a[0] in b)
  }

  lemma {:induction false} SubsequenceOne(a: seq<Item>, b: seq<Item>)
    requires |a| == 1 && a[0] in b
    ensures Subsequence(a, b)
  {
    if a[0] == b[0] {
      assert a[1..] == [];
    } else {
      SubsequenceOne(a, b[1..]);
    }
  }

  lemma ReorderKeeps(b: seq<Item>, key: string, x: Item, l: Limits)
    requires Ok(b, l) && x in b
    ensures x in Apply(b, Get(key), l)
  {
    if Lookup(b, key).Some? {
      var i := Place(b, key);
      HitReorders(b, key, l);
      assert ToFront(b, b[i])[0] == b[i];
      if x.key == key {
        var j :| 0 <= j < |b| && b[j] == x;
        assert j == i;
      } else {
        StillIn(b, x, key);
      }
    }
  }

  lemma OneTouched(a: seq<Item>, b: seq<Item>, op: Op, it: Item, small: Limits, large: Limits)
    requires OneHeld(a, b, small, large)
    requires Touched(a, op, small) == Some(it) == Touched(b, op, large)
    ensures OneHeld(Apply(a, op, small), Apply(b, op, large), small, large)
  {
    ApplyKeeps(a, op, small);
    ApplyKeeps(b, op, large);
  }

  lemma OneStep(a: seq<Item>, b: seq<Item>, op: Op, small: Limits, large: Limits)
    requires OneHeld(a, b, small, large)
    requires op.Put? ==> (Storable(op.data, small) <==> Storable(op.data, large))
    ensures OneHeld(Apply(a, op, small), Apply(b, op, large), small, large)
  {
    match op
    case Put(key, data) => if Storable(data, small) { OneTouched(a, b, op, Item(key, data), small, large); }
    case Get(key) =>
      if Lookup(a, key).Some? {
        assert a == [a[0]];
        SubsequenceOne(a, b);
        LookupIncluded(a, b, key);
        OneTouched(a, b, op, Lookup(a, key).value, small, large);
      } else {
        ApplyKeeps(b, op, large);
        if a != [] { ReorderKeeps(b, key, a[0], large); }
      }
    case Clear =>
  }

  lemma {:induction false} OneRun(ops: seq<Op>, small: Limits, large: Limits, m: nat)
    requires small.Valid() && large.Valid() && small.maxEntries == 1
    requires SmallOps(ops, m) && Min(m, small.maxBytes) == Min(m, large.maxBytes)
    ensures OneHeld(Run([], ops, small), Run([], ops, large), small, large)
  {
    if ops != [] {
      var init := ops[..|ops| - 1];
      OneRun(init, small, large, m);
      OneStep(Run([], init, small), Run([], init, large), ops[|ops| - 1], small, large);
    }
  }

  lemma NestedRun(ops: seq<Op>, small: Limits, large: Limits, m: nat)
    requires small.Valid() && large.Valid() && Comparable(small, large, m) && SmallOps(ops, m)
    ensures Subsequence(Run([], ops, small), Run([], ops, large))
  {
    var s, l, cap := Normal(small), Normal(large), Min(m, small.maxBytes);
    RunNormal(ops, small);
    RunNormal(ops, large);
    var a, b := Run([], ops, s), Run([], ops, l);
    if m == 0 {
      NothingStored(ops, s);
    } else if s.maxEntries == 1 {
      OneRun(ops, s, l, m);
      if a != [] { SubsequenceOne(a, b); }
    } else if s == l {
      SubsequenceSelf(a);
    } else {
      IncludedRun(ops, s, l, cap, m);
    }
  }

  // Where it does not.

  lemma PlanEscapes(p: Plan, small: Limits, large: Limits, cap: nat, m: nat)
    requires small.Valid() && large.Valid() && cap <= m && p.Overtakes(Normal(small), Normal(large), cap)
    ensures !Nested(small, large, m)
  {
    RunNormal(p.Ops(cap), small);
    RunNormal(p.Ops(cap), large);
    PlanSmall(p, cap, m);
    PlanOvertakes(p, Normal(small), Normal(large), cap);
  }

  lemma LargeRefuses(small: Limits, large: Limits, m: nat)
    requires small.Valid() && large.Valid() && large.maxBytes < small.maxBytes && large.maxBytes < m
    ensures !Nested(small, large, m)
  {
    var op := Put(Key(0), Payload(large.maxBytes + 1));
    RunSnoc([], [], op, small);
    RunSnoc([], [], op, large);
    ApplyKeeps([], op, small);
    assert SmallOps([] + [op], m);
  }

  lemma SmallRefuses(small: Limits, large: Limits, m: nat)
    requires small.Valid() && large.Valid() && small.maxBytes < large.maxBytes && small.maxBytes < m
    ensures !Nested(small, large, m)
  {
    InclusionNeedsRoom(small, large, m);
  }

  lemma Times(k: nat, cap: nat)
    requires k > 0
    ensures k * cap == (k - 1) * cap + cap
  {
  }

  /** One-byte items, one more than the large cache may hold. */
  lemma PlanForMoreEntries(s: Limits, l: Limits, cap: nat) returns (p: Plan)
    requires l.maxEntries < s.maxEntries <= s.maxBytes && 0 < l.maxEntries <= l.maxBytes
    requires 0 < cap <= s.maxBytes && cap <= l.maxBytes
    ensures p.Overtakes(s, l, cap)
  {
    p := Plan(l.maxEntries, l.maxEntries, 0, 0, 0, 1);
    Monotone(1, cap, l.maxEntries);
  }

  lemma Spread(f: nat, c: nat, cap: nat)
    requires 0 < f <= cap
    ensures 1 + c <= f + c <= (1 + c) * cap
  {
    Times(1 + c, cap);
    Monotone(1, cap, c);
  }

  lemma FewerBytes(k: nat, n: nat, small: nat, large: nat, cap: nat, product: nat, f: nat, c: nat)
    requires 2 <= k <= n <= large && k <= small < large && 2 <= cap <= small < product + cap && product >= k - 1
    requires f == Min(cap, small - k + 2) && c == Min(n - k, large - small - 1)
    ensures 2 <= f <= cap && k - 1 <= small + 1 - f <= product && small + 2 - f <= small
    ensures k + c <= n && small + 1 + c <= large && (1 + k + c > n || small + 2 + c > large)
  {
  }

  /** The small byte budget binds first: an item that it drops stays in the large cache and crowds out what it keeps. */
  lemma PlanForFewerBytes(s: Limits, l: Limits, cap: nat) returns (p: Plan)
    requires 2 <= s.maxEntries <= l.maxEntries <= l.maxBytes && s.maxEntries <= s.maxBytes < l.maxBytes
    requires 2 <= cap <= s.maxBytes < s.maxEntries * cap
    ensures p.Overtakes(s, l, cap)
  {
    var k := s.maxEntries;
    var f, c := Min(cap, s.maxBytes - k + 2), Min(l.maxEntries - k, l.maxBytes - s.maxBytes - 1);
    var product := (k - 1) * cap;
    assert s.maxBytes < product + cap && product >= k - 1 by {
      Times(k, cap);
      Monotone(1, cap, k - 1);
    }
    FewerBytes(k, l.maxEntries, s.maxBytes, l.maxBytes, cap, product, f, c);
    p := Plan(k - 1, s.maxBytes + 1 - f, 0, 1 + c, f + c, 1);
    assert p.Valid(cap) by { Spread(f, c, cap); }
  }

  /** The byte budgets are the same and bind, the large cache may hold one item more. */
  lemma PlanForSameBytes(s: Limits, l: Limits, cap: nat) returns (p: Plan)
    requires 2 <= s.maxEntries < l.maxEntries <= l.maxBytes == s.maxBytes
    requires 2 <= cap <= s.maxBytes < s.maxEntries * cap
    ensures p.Overtakes(s, l, cap)
  {
    var k, b := s.maxEntries, s.maxBytes;
    Times(k, cap);
    Monotone(1, cap, k - 1);
    var last := if b - 2 <= (k - 1) * cap then 2 else b - (k - 1) * cap;
    p := Plan(k - 1, b - last, 1, 1, 1, last);
  }

  /** As many items as the small cache may hold, too many bytes for the large one only. */
  lemma PlanForMoreBytes(s: Limits, l: Limits, cap: nat) returns (p: Plan)
    requires 2 <= s.maxEntries <= l.maxEntries <= l.maxBytes < s.maxBytes
    requires 2 <= cap <= l.maxBytes < s.maxEntries * cap
    ensures p.Overtakes(s, l, cap)
  {
    var k, b := s.maxEntries, l.maxBytes;
    var last := Min(cap, b + 2 - k);
    p := Plan(k - 1, b + 1 - last, 0, 0, 0, last);
    Times(k, cap);
    Monotone(1, cap, k - 1);
  }

  /** Only the large byte budget binds: a larger last item in exchange for a small one makes it drop one item more. */
  lemma PlanForMoreItems(s: Limits, l: Limits, cap: nat) returns (p: Plan)
    requires 2 <= s.maxEntries < l.maxEntries <= l.maxBytes && s.maxEntries * cap <= s.maxBytes
    requires 2 <= cap <= l.maxBytes < l.maxEntries * cap
    ensures p.Overtakes(s, l, cap)
  {
    var k, n, b := s.maxEntries, l.maxEntries, l.maxBytes;
    var mine, rest := Products(k, n, cap);
    var both := Min(b - 1, mine + rest);
    var rBytes := Min(mine, both - (n - k));
    MoreItems(k, n, s.maxBytes, b, cap, mine, rest, both, rBytes);
    p := Plan(k - 1, rBytes, 1, n - k, both - rBytes, cap);
  }

  lemma Products(k: nat, n: nat, cap: nat) returns (mine: nat, rest: nat)
    requires 0 < k <= n && 0 < cap
    ensures mine == (k - 1) * cap && rest == (n - k) * cap
    ensures k * cap == mine + cap && n * cap == mine + rest + cap && mine >= k - 1 && rest >= n - k
  {
    mine, rest := (k - 1) * cap, (n - k) * cap;
    assert k * cap == mine + cap by { Times(k, cap); }
    assert n * cap == k * cap + rest by { Distribute(k, n - k, cap); }
    assert mine >= k - 1 by { Monotone(1, cap, k - 1); }
    assert rest >= n - k by { Monotone(1, cap, n - k); }
  }

  lemma Distribute(a: nat, b: nat, cap: nat)
    ensures (a + b) * cap == a * cap + b * cap
  {
  }

  lemma MoreItems(k: nat, n: nat, small: nat, large: nat, cap: nat, mine: nat, rest: nat, both: nat, rBytes: int)
    requires 2 <= k < n <= large && 2 <= cap <= large && mine + cap <= small && mine + rest + cap > large
    requires mine >= k - 1 && rest >= n - k
    requires both == Min(large - 1, mine + rest) && both - (n - k) >= 0 && rBytes == Min(mine, both - (n - k))
    ensures k - 1 <= rBytes <= mine && n - k <= both - rBytes <= rest
    ensures rBytes + 1 <= small && cap + rBytes <= small && both + 1 <= large && cap + both > large
  {
  }

  lemma NotNested(small: Limits, large: Limits, m: nat)
    requires small.Valid() && large.Valid() && !Comparable(small, large, m)
    ensures !Nested(small, large, m)
  {
    var s, l, cap := Normal(small), Normal(large), Min(m, small.maxBytes);
    if cap != Min(m, large.maxBytes) {
      if small.maxBytes < large.maxBytes { SmallRefuses(small, large, m); } else { LargeRefuses(small, large, m); }
    } else {
      var p := PlanFor(s, l, cap);
      PlanEscapes(p, small, large, cap, m);
    }
  }

  lemma PlanFor(s: Limits, l: Limits, cap: nat) returns (p: Plan)
    requires 0 < s.maxEntries <= s.maxBytes && 0 < l.maxEntries <= l.maxBytes
    requires 0 < cap <= s.maxBytes && cap <= l.maxBytes
    requires s.maxEntries > l.maxEntries
      || (&& s.maxEntries > 1 && s != l
          && (s.maxEntries * cap > s.maxBytes || l.maxEntries * cap > l.maxBytes))
    ensures p.Overtakes(s, l, cap)
  {
    if s.maxEntries > l.maxEntries {
      p := PlanForMoreEntries(s, l, cap);
    } else if s.maxEntries * cap > s.maxBytes {
      if s.maxBytes < l.maxBytes {
        p := PlanForFewerBytes(s, l, cap);
      } else if s.maxBytes == l.maxBytes {
        p := PlanForSameBytes(s, l, cap);
      } else {
        p := PlanForMoreBytes(s, l, cap);
      }
    } else if s.maxEntries < l.maxEntries {
      p := PlanForMoreItems(s, l, cap);
    } else {
      p := PlanForMoreBytes(s, l, cap);
    }
  }

  /**
   Inclusion, exactly. Two caches run the same operations from empty, whatever their limits. In every run of puts of at
   most m bytes the small one's list is a subsequence of the large one's, with equal data, if and only if the limits are
   comparable.
   */
  lemma InclusionExactly(small: Limits, large: Limits, m: nat)
    requires small.Valid() && large.Valid()
    ensures Nested(small, large, m) <==> Comparable(small, large, m)
  {
    if Comparable(small, large, m) {
      forall ops | SmallOps(ops, m) ensures Subsequence(Run([], ops, small), Run([], ops, large)) {
        NestedRun(ops, small, large, m);
      }
    } else {
      NotNested(small, large, m);
    }
  }
}
