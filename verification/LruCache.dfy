/** The cache in memory: a doubly linked list with byte and entry counters, refining the list of LruSpec. */
module LruCache {
  import opened Bytes
  import opened LruSpec
  import opened LruRuns

  const SIZE_MAX: nat := 0xFFFF_FFFF_FFFF_FFFF

  /** Subtraction that stops at zero. */
  function Minus(a: nat, b: nat): nat {
    if a >= b then a - b else 0
  }

  class Entry {
    const key: string
    var data: seq<byte>
    var size: nat
    var prev: Entry?
    var next: Entry?

    constructor (key: string, data: seq<byte>)
      ensures this.key == key && this.data == data && size == |data| && prev == null && next == null
    {
      this.key, this.data, size := key, data, |data|;
      prev, next := null, null;
    }
  }

  /** Recursive, so that distinctness stays out of proofs that do not need it. */
  ghost predicate NoRepeats<T>(s: seq<T>) {
    s == [] || (s[0] !in s[1..] && NoRepeats(s[1..]))
  }

  lemma {:induction false} NoRepeatsMeans<T>(s: seq<T>)
    ensures NoRepeats(s) <==> forall i, j :: 0 <= i < j < |s| ==> s[i] != s[j]
  {
    if s != [] {
      NoRepeatsMeans(s[1..]);
      if NoRepeats(s) {
        forall i, j | 0 <= i < j < |s| ensures s[i] != s[j] {
          if i > 0 { assert s[1..][i - 1] == s[i] && s[1..][j - 1] == s[j]; } else { assert s[j] in s[1..]; }
        }
      } else if s[0] in s[1..] {
        var j :| 0 <= j < |s[1..]| && s[1..][j] == s[0];
        assert s[j + 1] == s[0];
      } else {
        var i, j :| 0 <= i < j < |s[1..]| && s[1..][i] == s[1..][j];
        assert s[i + 1] == s[j + 1];
      }
    }
  }

  lemma NoRepeatsRest<T>(s: seq<T>, t: seq<T>, at: nat)
    requires NoRepeats(s) && Removed(s, t, at)
    ensures NoRepeats(t) && s[at] !in t
  {
    NoRepeatsMeans(s);
    NoRepeatsMeans(t);
    forall i, j | 0 <= i < j < |t| ensures t[i] != t[j] {
      assert t[i] == s[if i < at then i else i + 1] && t[j] == s[if j < at then j else j + 1];
    }
  }

  /** t is s with the element at `at` moved to the front. */
  ghost predicate Moved<T>(s: seq<T>, t: seq<T>, at: nat) {
    && at < |s| == |t| && t[0] == s[at]
    && (forall i :: 1 <= i <= at ==> t[i] == s[i - 1])
    && (forall i :: at < i < |s| ==> t[i] == s[i])
  }

  /** t is s without the element at `at`. */
  ghost predicate Removed<T>(s: seq<T>, t: seq<T>, at: nat) {
    && at < |s| == |t| + 1
    && (forall i :: 0 <= i < at ==> t[i] == s[i])
    && (forall i :: at <= i < |t| ==> t[i] == s[i + 1])
  }

  lemma MovedConcat<T>(s: seq<T>, at: nat)
    requires at < |s|
    ensures Moved(s, [s[at]] + s[..at] + s[at + 1..], at)
  {
  }

  lemma RemovedConcat<T>(s: seq<T>, at: nat)
    requires at < |s|
    ensures Removed(s, s[..at] + s[at + 1..], at)
  {
  }

  /** The entries carry the items, one each. */
  ghost predicate Matches(nodes: seq<Entry>, items: seq<Item>)
    reads nodes`data, nodes`size
  {
    && |items| == |nodes|
    && (forall i :: 0 <= i < |nodes| ==>
          items[i] == Item(nodes[i].key, nodes[i].data) && nodes[i].size == |nodes[i].data|)
  }

  lemma MatchesFront(ns: seq<Entry>, ms: seq<Entry>, items: seq<Item>, at: nat)
    requires Matches(ns, items) && Moved(ns, ms, at) && UniqueKeys(items)
    ensures Matches(ms, ToFront(items, items[at]))
  {
    FrontIsReordering(items, at);
    MovedConcat(items, at);
  }

  lemma MatchesRest(ns: seq<Entry>, ms: seq<Entry>, items: seq<Item>, at: nat)
    requires Matches(ns, items) && Removed(ns, ms, at)
    ensures Matches(ms, items[..at] + items[at + 1..])
  {
    RemovedConcat(items, at);
  }

  lemma ReplaceTotals(items: seq<Item>, at: nat, data: seq<byte>)
    requires UniqueKeys(items) && at < |items|
    ensures var changed := items[at := Item(items[at].key, data)];
            UniqueKeys(changed) && Total(changed) == Total(items) - |items[at].data| + |data|
  {
    var changed := items[at := Item(items[at].key, data)];
    TotalAround(items, at);
    TotalAround(changed, at);
    assert changed[..at] + changed[at + 1..] == items[..at] + items[at + 1..];
  }

  lemma ReplaceFront(items: seq<Item>, at: nat, data: seq<byte>)
    requires UniqueKeys(items) && at < |items|
    ensures var it := Item(items[at].key, data); ToFront(items[at := it], it) == ToFront(items, it)
  {
    var it := Item(items[at].key, data);
    ReplaceTotals(items, at, data);
    LookupAt(items, at);
    LookupAt(items[at := it], at);
    assert items[at := it][..at] == items[..at] && items[at := it][at + 1..] == items[at + 1..];
  }

  class LruCache {
    const limits: Limits
    var usedBytes: nat
    var entryCount: nat
    var head: Entry?
    var tail: Entry?
    ghost var nodes: seq<Entry>   // the entries from head to tail
    ghost var items: seq<Item>    // and what they carry
    ghost var Repr: set<object>

    /** Forward and backward pointers describe the same duplicate-free sequence of nodes. */
    ghost predicate Linked()
      reads `head, `tail, `nodes, nodes`prev, nodes`next
    {
      NoRepeats(nodes) && Links()
    }

    ghost predicate Links()
      reads `head, `tail, `nodes, nodes`prev, nodes`next
    {
      && (forall i {:trigger nodes[i].next} :: 0 <= i < |nodes| - 1 ==> nodes[i].next == nodes[i + 1])
      && (forall i {:trigger nodes[i].prev} :: 1 <= i < |nodes| ==> nodes[i].prev == nodes[i - 1])
      && (|nodes| > 0 ==> nodes[0].prev == null && nodes[|nodes| - 1].next == null)
      && head == (if |nodes| > 0 then nodes[0] else null)
      && tail == (if |nodes| > 0 then nodes[|nodes| - 1] else null)
    }

    /** The counters count the items, and no key occurs twice. */
    ghost predicate Counted()
      reads `items, `usedBytes, `entryCount
    {
      usedBytes == Total(items) && entryCount == |items| && UniqueKeys(items)
    }

    /** The structure inside a call, where the limits may be exceeded. */
    ghost predicate Sound()
      reads this, Repr
    {
      this in Repr && (forall n :: n in nodes ==> n in Repr) && Linked() && Matches(nodes, items) && Counted()
    }

    /** The structure between calls. */
    ghost predicate Valid()
      reads this, Repr
    {
      Sound() && Ok(items, limits)
    }

    /** lru_cache_create, for limits that it does not refuse. */
    constructor (limits: Limits)
      requires limits.Valid()
      ensures Valid() && fresh(Repr) && this.limits == limits && items == []
    {
      this.limits := limits;
      usedBytes, entryCount, head, tail, nodes, items := 0, 0, null, null, [], [];
      Repr := {this};
    }

    method Find(key: string) returns (entry: Entry?, ghost at: nat)
      requires Sound()
      ensures entry == null <==> Lookup(items, key).None?
      ensures entry != null ==>
        at < |nodes| && entry == nodes[at] && entry.key == key && Lookup(items, key) == Some(items[at])
    {
      entry, at := head, 0;
      while entry != null
        invariant 0 <= at <= |nodes|
        invariant entry == if at < |nodes| then nodes[at] else null
        invariant forall i :: 0 <= i < at ==> items[i].key != key
        decreases |nodes| - at
      {
        if entry.key == key {
          LookupAt(items, at);
          return;
        }
        assert at < |nodes| - 1 ==> nodes[at].next == nodes[at + 1];
        entry, at := entry.next, at + 1;
      }
      LookupIn(items, key);
    }

    /** The pointer surgery that takes an entry out of the list. */
    method Splice(entry: Entry, ghost at: nat)
      requires Links() && at < |nodes| && entry == nodes[at]
      requires forall i, j :: 0 <= i < j < |nodes| ==> nodes[i] != nodes[j]
      modifies `head, `tail, `nodes, nodes`next, nodes`prev
      ensures Links() && nodes == old(nodes)[..at] + old(nodes)[at + 1..]
    {
      if entry.prev != null { entry.prev.next := entry.next; } else { head := entry.next; }
      if entry.next != null { entry.next.prev := entry.prev; } else { tail := entry.prev; }
      nodes := nodes[..at] + nodes[at + 1..];
    }

    method Unlink(entry: Entry, ghost at: nat)
      requires Linked() && at < |nodes| && entry == nodes[at]
      modifies `head, `tail, `nodes, nodes`next, nodes`prev
      ensures Linked() && Removed(old(nodes), nodes, at) && entry !in nodes
    {
      NoRepeatsMeans(nodes);
      Splice(entry, at);
      RemovedConcat(old(nodes), at);
      NoRepeatsRest(old(nodes), nodes, at);
    }

    method Drop(entry: Entry, ghost at: nat)
      requires Linked() && Matches(nodes, items) && UniqueKeys(items) && at < |nodes| && entry == nodes[at]
      modifies `head, `tail, `nodes, nodes`next, nodes`prev
      ensures Linked() && Matches(nodes, items[..at] + items[at + 1..])
      ensures forall n :: n in nodes ==> n in old(nodes)
    {
      ghost var ns := nodes;
      Unlink(entry, at);
      MatchesRest(ns, nodes, items, at);
    }

    /** lru_cache_remove_entry. */
    method RemoveEntry(entry: Entry, ghost at: nat)
      requires Sound() && at < |nodes| && entry == nodes[at]
      modifies Repr
      ensures Sound() && Repr == old(Repr) && items == old(items)[..at] + old(items)[at + 1..]
    {
      ghost var rest := items[..at] + items[at + 1..];
      assert Total(items) == Total(rest) + entry.size by { TotalAround(items, at); }
      assert UniqueKeys(rest) by { UniqueAround(items, at); }
      Drop(entry, at);
      CountOut(entry.size);
      Settle(rest);
    }

    method CountOut(size: nat)
      requires size <= usedBytes && entryCount > 0
      modifies `entryCount, `usedBytes
      ensures entryCount == old(entryCount) - 1 && usedBytes == old(usedBytes) - size
    {
      usedBytes := Minus(usedBytes, size);
      entryCount := Minus(entryCount, 1);
    }

    method EvictIfNeeded()
      requires Sound()
      modifies Repr
      ensures Sound() && Repr == old(Repr) && items == Evict(old(items), limits)
    {
      while (usedBytes > limits.maxBytes || entryCount > limits.maxEntries) && tail != null
        invariant Sound() && Repr == old(Repr)
        invariant Evict(items, limits) == Evict(old(items), limits)
        decreases |items|
      {
        ghost var last := |items| - 1;
        assert items[..last] + items[last + 1..] == items[..last];
        RemoveEntry(tail, last);
      }
    }

    /** The pointer surgery that puts an entry in front of the list. */
    method LinkFront(entry: Entry)
      requires Linked() && entry !in nodes
      modifies `head, `tail, `nodes, nodes`prev, entry`prev, entry`next
      ensures Linked() && nodes == [entry] + old(nodes)
    {
      entry.prev := null;
      entry.next := head;
      if head != null { head.prev := entry; }
      head := entry;
      if tail == null { tail := entry; }
      nodes := [entry] + nodes;
      assert nodes[1..] == old(nodes);
    }

    /** lru_cache_touch_front: the entry moves to the front, everything else stays in order. */
    method TouchFront(entry: Entry, ghost at: nat)
      requires Linked() && at < |nodes| && entry == nodes[at]
      modifies `head, `tail, `nodes, nodes`next, nodes`prev
      ensures Linked() && Moved(old(nodes), nodes, at)
    {
      if head == entry {
        NoRepeatsMeans(nodes);
        return;
      }
      Unlink(entry, at);
      LinkFront(entry);
    }

    /** The ghost list catches up with the memory. */
    ghost method Settle(its: seq<Item>)
      requires this in Repr && (forall n :: n in nodes ==> n in Repr) && Linked() && Matches(nodes, its)
      requires usedBytes == Total(its) && entryCount == |its| && UniqueKeys(its)
      modifies `items
      ensures Sound() && items == its
    {
      items := its;
    }

    /** A touched entry in the whole structure: its item comes first, nothing else changes. */
    method Promote(entry: Entry, ghost at: nat)
      requires Sound() && at < |nodes| && entry == nodes[at]
      modifies Repr
      ensures Sound() && Repr == old(Repr) && items == ToFront(old(items), old(items)[at])
    {
      ghost var ns, front := nodes, ToFront(items, items[at]);
      TouchFront(entry, at);
      MatchesFront(ns, nodes, items, at);
      assert UniqueKeys(front) && Total(front) == Total(items) && |front| == |items| by {
        FrontIsReordering(items, at);
      }
      Settle(front);
    }

    /**
     lru_cache_get_copy, when malloc has room for `room` more bytes: a hit copies the data and makes the entry the most
     recent; a miss, or no memory for the copy, changes nothing.
     */
    method GetCopy(key: string, room: nat) returns (data: Option<seq<byte>>)
      requires Valid()
      modifies Repr
      ensures Valid() && Repr == old(Repr)
      ensures var t := Touched(old(items), Get(key), limits);
              if t.Some? && |t.value.data| <= room
              then data == Some(t.value.data) && items == Apply(old(items), Get(key), limits)
              else data == None && items == old(items)
    {
      var entry, at := Find(key);
      if entry == null || entry.size == 0 || entry.size > room { return None; }
      HitReorders(items, key, limits);
      ApplyKeeps(items, Get(key), limits);
      data := Some(entry.data);
      Promote(entry, at);
    }

    method Clear()
      requires Valid()
      modifies Repr
      ensures Valid() && Repr == old(Repr) && items == []
    {
      head, tail, usedBytes, entryCount, nodes, items := null, null, 0, 0, [], [];
    }

    method Store(entry: Entry, ghost at: nat, data: seq<byte>)
      requires Linked() && Matches(nodes, items) && at < |nodes| && entry == nodes[at]
      requires entry.size <= usedBytes && usedBytes - entry.size + |data| <= SIZE_MAX
      modifies entry`data, entry`size, `usedBytes
      ensures Linked() && Matches(nodes, items[at := Item(entry.key, data)])
      ensures usedBytes == old(usedBytes) - old(entry.size) + |data|
    {
      NoRepeatsMeans(nodes);
      entry.data := data;
      usedBytes := Minus(usedBytes, entry.size);
      entry.size := |data|;
      usedBytes := (usedBytes + |data|) % (SIZE_MAX + 1);
    }

    /** The entry's payload is replaced in place. */
    method Overwrite(entry: Entry, ghost at: nat, data: seq<byte>)
      requires Sound() && at < |nodes| && entry == nodes[at] && usedBytes + |data| <= SIZE_MAX
      modifies Repr
      ensures Sound() && Repr == old(Repr) && nodes == old(nodes)
      ensures items == old(items)[at := Item(entry.key, data)]
    {
      ghost var changed := items[at := Item(entry.key, data)];
      assert UniqueKeys(changed) && Total(changed) == Total(items) - entry.size + |data| by {
        ReplaceTotals(items, at, data);
      }
      assert entry.size <= Total(items) by { TotalAround(items, at); }
      Store(entry, at, data);
      Settle(changed);
    }

    /** The update branch of lru_cache_put_copy, up to eviction. */
    method Replace(entry: Entry, ghost at: nat, data: seq<byte>)
      requires Sound() && at < |nodes| && entry == nodes[at] && usedBytes + |data| <= SIZE_MAX
      modifies Repr
      ensures Sound() && Repr == old(Repr) && items == ToFront(old(items), Item(entry.key, data))
    {
      ghost var before := items;
      Overwrite(entry, at, data);
      Promote(entry, at);
      assert items == ToFront(before, Item(entry.key, data)) by { ReplaceFront(before, at, data); }
    }

    ghost predicate Holds()
      reads `nodes, `Repr
    {
      this in Repr && forall n :: n in nodes ==> n in Repr
    }

    method Push(key: string, data: seq<byte>)
      requires Holds() && Linked() && Matches(nodes, items)
      modifies `head, `tail, `nodes, `Repr, nodes`prev
      ensures Holds() && fresh(Repr - old(Repr)) && Linked() && Matches(nodes, [Item(key, data)] + items)
    {
      var entry := new Entry(key, data);
      LinkFront(entry);
      Repr := Repr + {entry};
    }

    method CountIn(size: nat)
      requires usedBytes + size <= SIZE_MAX
      modifies `entryCount, `usedBytes
      ensures entryCount == old(entryCount) + 1 && usedBytes == old(usedBytes) + size
    {
      entryCount := entryCount + 1;
      usedBytes := (usedBytes + size) % (SIZE_MAX + 1);
    }

    /** A new entry enters the structure at the front. */
    method Enter(key: string, data: seq<byte>, ghost front: seq<Item>)
      requires Sound() && usedBytes + |data| <= SIZE_MAX
      requires front == [Item(key, data)] + items && UniqueKeys(front) && Total(front) == Total(items) + |data|
      modifies Repr
      ensures Sound() && fresh(Repr - old(Repr)) && items == front
    {
      Push(key, data);
      CountIn(|data|);
      Settle(front);
    }

    /** The insert branch of lru_cache_put_copy, up to eviction. */
    method Insert(key: string, data: seq<byte>)
      requires Sound() && Lookup(items, key).None? && usedBytes + |data| <= SIZE_MAX
      modifies Repr
      ensures Sound() && fresh(Repr - old(Repr)) && items == ToFront(old(items), Item(key, data))
    {
      FrontIsInsertion(items, Item(key, data));
      Enter(key, data, ToFront(items, Item(key, data)));
    }

    /**
     lru_cache_put_copy, when malloc has room for `room` more bytes beside the resident payloads: an empty payload, one
     over the byte budget, or one that cannot be copied is refused and changes nothing.
     */
    method PutCopy(key: string, data: seq<byte>, room: nat) returns (rc: int)
      requires Valid() && usedBytes + room <= SIZE_MAX
      modifies Repr
      ensures Valid() && fresh(Repr - old(Repr))
      ensures rc == (if Storable(data, limits) && |data| <= room then 0 else -1)
      ensures items == if rc == 0 then Apply(old(items), Put(key, data), limits) else old(items)
    {
      if |data| == 0 { return -1; }
      if |data| > limits.maxBytes { return -1; }
      ApplyKeeps(items, Put(key, data), limits);
      var entry, at := Find(key);
      if |data| > room { return -1; }
      if entry != null { Replace(entry, at, data); } else { Insert(key, data); }
      EvictIfNeeded();
      return 0;
    }
  }

  /** lru_cache_create: zero limits are refused. */
  method Create(maxBytes: nat, maxEntries: nat) returns (cache: LruCache?)
    ensures cache == null <==> maxBytes == 0 || maxEntries == 0
    ensures cache != null ==>
      cache.Valid() && fresh(cache.Repr) && cache.limits == Limits(maxBytes, maxEntries) && cache.items == []
  {
    if maxBytes == 0 || maxEntries == 0 { return null; }
    cache := new LruCache(Limits(maxBytes, maxEntries));
  }

  /** Memory holds the resident payloads and the one being put side by side, at every put of the run. */
  ghost predicate Affordable(items: seq<Item>, ops: seq<Op>, l: Limits) {
    ops == [] ||
    var init, op := ops[..|ops| - 1], ops[|ops| - 1];
    && Affordable(items, init, l)
    && (op.Put? && Storable(op.data, l) ==> Total(Run(items, init, l)) + |op.data| <= SIZE_MAX)
  }

  /** It does for every run when twice the byte limit fits in a size_t. */
  lemma {:induction false} AlwaysAffordable(items: seq<Item>, ops: seq<Op>, l: Limits)
    requires Ok(items, l) && 2 * l.maxBytes <= SIZE_MAX
    ensures Affordable(items, ops, l)
  {
    if ops != [] {
      AlwaysAffordable(items, ops[..|ops| - 1], l);
      RunKeeps(items, ops[..|ops| - 1], l);
    }
  }

  lemma {:induction false} AffordablePrefix(items: seq<Item>, ops: seq<Op>, l: Limits, n: nat)
    requires Affordable(items, ops, l) && n <= |ops|
    ensures Affordable(items, ops[..n], l)
  {
    if n < |ops| {
      AffordablePrefix(items, ops[..|ops| - 1], l, n);
      assert ops[..|ops| - 1][..n] == ops[..n];
    } else {
      assert ops[..n] == ops;
    }
  }

  method PerformOne(cache: LruCache, op: Op)
    requires cache.Valid() && cache.limits.maxBytes <= SIZE_MAX
    requires op.Put? && Storable(op.data, cache.limits) ==> cache.usedBytes + |op.data| <= SIZE_MAX
    modifies cache.Repr
    ensures cache.Valid() && fresh(cache.Repr - old(cache.Repr))
    ensures cache.items == Apply(old(cache.items), op, cache.limits)
  {
    match op
    case Put(key, data) => var rc := cache.PutCopy(key, data, SIZE_MAX - cache.usedBytes);
    case Get(key) =>
      if Touched(cache.items, op, cache.limits).Some? { TouchedSize(cache.items, op, cache.limits); }
      var data := cache.GetCopy(key, cache.limits.maxBytes);
    case Clear => cache.Clear();
  }

  /** A run of calls on the structure is the same run on the list, as long as there is memory for each payload put. */
  method Perform(cache: LruCache, ops: seq<Op>)
    requires cache.Valid() && cache.limits.maxBytes <= SIZE_MAX && Affordable(cache.items, ops, cache.limits)
    modifies cache.Repr
    ensures cache.Valid() && fresh(cache.Repr - old(cache.Repr))
    ensures cache.items == Run(old(cache.items), ops, cache.limits)
  {
    for k := 0 to |ops|
      invariant cache.Valid() && fresh(cache.Repr - old(cache.Repr))
      invariant cache.items == Run(old(cache.items), ops[..k], cache.limits)
    {
      AffordablePrefix(old(cache.items), ops, cache.limits, k + 1);
      assert ops[..k + 1][..k] == ops[..k];
      PerformOne(cache, ops[k]);
    }
    assert ops[..|ops|] == ops;
  }

  /** After any run from empty, what a get returns is what was last put under the key. */
  method PerformThenGet(cache: LruCache, ops: seq<Op>, key: string) returns (data: Option<seq<byte>>)
    requires cache.Valid() && cache.items == [] && cache.limits.maxBytes <= SIZE_MAX
    requires Affordable([], ops, cache.limits)
    modifies cache.Repr
    ensures cache.Valid() && (data.Some? ==> data == LastPut(ops, key, cache.limits.maxBytes))
  {
    Perform(cache, ops);
    FoundIsLastPut(ops, key, cache.limits);
    data := cache.GetCopy(key, SIZE_MAX);
  }

  /** A get finds a key, with the data of its last touch, exactly if the key's working set has fitted ever since. */
  method PerformAndGet(cache: LruCache, ops: seq<Op>, it: Item) returns (data: Option<seq<byte>>)
    requires cache.Valid() && cache.limits.maxBytes <= SIZE_MAX && Affordable(cache.items, ops, cache.limits)
    requires NoClear(ops)
    requires |ops| > 0 && Touched(cache.items, ops[0], cache.limits) == Some(it)
    requires Untouched(cache.items, ops, 1, it.key, cache.limits)
    modifies cache.Repr
    ensures cache.Valid()
    ensures data == if WorkingSetFits(old(cache.items), ops, cache.limits) then Some(it.data) else None
  {
    KeyRetained(cache.items, ops, it, cache.limits);
    Perform(cache, ops);
    if Touched(cache.items, Get(it.key), cache.limits).Some? {
      TouchedSize(cache.items, Get(it.key), cache.limits);
    }
    data := cache.GetCopy(it.key, cache.limits.maxBytes);
  }
}
