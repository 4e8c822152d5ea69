/** The LRU cache as a most-recent-first list of items, and what holds over whole runs of it. */
module LruSpec {
  import opened Bytes

  datatype Item = Item(key: string, data: seq<byte>)

  /** The limits given to lru_cache_create, which refuses zero. */
  datatype Limits = Limits(maxBytes: nat, maxEntries: nat) {
    predicate Valid() { maxBytes > 0 && maxEntries > 0 }
  }

  function Total(items: seq<Item>): nat {
    if items == [] then 0 else Total(items[..|items| - 1]) + |items[|items| - 1].data|
  }

  predicate Fits(items: seq<Item>, l: Limits) {
    Total(items) <= l.maxBytes && |items| <= l.maxEntries
  }

  function Lookup(items: seq<Item>, key: string): Option<Item> {
    if items == [] then None
    else if items[0].key == key then Some(items[0])
    else Lookup(items[1..], key)
  }

  function Without(items: seq<Item>, key: string): seq<Item> {
    if items == [] then []
    else if items[0].key == key then items[1..]
    else [items[0]] + Without(items[1..], key)
  }

  predicate UniqueKeys(items: seq<Item>) {
    forall i, j :: 0 <= i < j < |items| ==> items[i].key != items[j].key
  }

  /** Items are dropped from the least recent end until the limits hold. */
  function Evict(items: seq<Item>, l: Limits): seq<Item> {
    if items == [] || Fits(items, l) then items else Evict(items[..|items| - 1], l)
  }

  predicate Storable(data: seq<byte>, l: Limits) {
    0 < |data| <= l.maxBytes
  }

  function ToFront(items: seq<Item>, it: Item): seq<Item> {
    [it] + Without(items, it.key)
  }

  datatype Op = Put(key: string, data: seq<byte>) | Get(key: string) | Clear

  /** The item that an operation makes the most recent one: a successful put's, or a hit. */
  function Touched(items: seq<Item>, op: Op, l: Limits): Option<Item> {
    match op
    case Put(key, data) => if Storable(data, l) then Some(Item(key, data)) else None
    case Get(key) => Lookup(items, key)
    case Clear => None
  }

  function Apply(items: seq<Item>, op: Op, l: Limits): seq<Item> {
    if op.Clear? then [] else
    match Touched(items, op, l)
    case None => items
    case Some(it) => Evict(ToFront(items, it), l)
  }

  ghost predicate Ok(items: seq<Item>, l: Limits) {
    && l.Valid() && UniqueKeys(items) && Fits(items, l)
    && forall i :: 0 <= i < |items| ==> items[i].data != []
  }

  // ---------- lists --------------------------------------------------------

  lemma {:induction false} TotalConcat(a: seq<Item>, b: seq<Item>)
    ensures Total(a + b) == Total(a) + Total(b)
  {
    if b == [] {
      assert a + b == a;
    } else {
      assert (a + b)[..|a + b| - 1] == a + b[..|b| - 1];
      TotalConcat(a, b[..|b| - 1]);
    }
  }

  lemma TotalOne(it: Item)
    ensures Total([it]) == |it.data|
  {
    assert [it][..0] == [];
  }

  lemma {:induction false} LookupIn(items: seq<Item>, key: string)
    ensures Lookup(items, key).Some? ==> Lookup(items, key).value.key == key && Lookup(items, key).value in items
    ensures Lookup(items, key).None? ==> forall i :: 0 <= i < |items| ==> items[i].key != key
  {
    if items != [] {
      LookupIn(items[1..], key);
      if Lookup(items, key).None? {
        forall i | 0 <= i < |items| ensures items[i].key != key {
          if i > 0 { assert items[i] == items[1..][i - 1]; }
        }
      }
    }
  }

  lemma {:induction false} LookupAbsent(items: seq<Item>, key: string)
    requires forall i :: 0 <= i < |items| ==> items[i].key != key
    ensures Lookup(items, key).None?
  {
    if items != [] { LookupAbsent(items[1..], key); }
  }

  lemma AroundRest<T>(s: seq<T>, i: nat)
    requires 0 < i < |s|
    ensures s[1..][i - 1] == s[i] && [s[0]] + (s[1..][..i - 1] + s[1..][i..]) == s[..i] + s[i + 1..]
  {
  }

  /** Where a key stands, and what removing it leaves. */
  lemma {:induction false} LookupAt(items: seq<Item>, i: nat)
    requires UniqueKeys(items) && i < |items|
    ensures Lookup(items, items[i].key) == Some(items[i])
    ensures Without(items, items[i].key) == items[..i] + items[i + 1..]
  {
    if i > 0 {
      LookupAt(items[1..], i - 1);
      AroundRest(items, i);
    }
  }

  lemma {:induction false} WithoutMissing(items: seq<Item>, key: string)
    requires Lookup(items, key).None?
    ensures Without(items, key) == items
  {
    if items != [] {
      WithoutMissing(items[1..], key);
    }
  }

  lemma TotalAround(items: seq<Item>, i: nat)
    requires i < |items|
    ensures Total(items) == Total(items[..i] + items[i + 1..]) + |items[i].data|
  {
    var a, b := items[..i], items[i + 1..];
    assert items == a + ([items[i]] + b);
    TotalConcat(a, [items[i]] + b);
    TotalConcat([items[i]], b);
    TotalOne(items[i]);
    TotalConcat(a, b);
  }

  /** The place of a key that is present. */
  lemma Place(items: seq<Item>, key: string) returns (i: nat)
    requires UniqueKeys(items) && Lookup(items, key).Some?
    ensures i < |items| && items[i].key == key && Lookup(items, key) == Some(items[i])
    ensures Without(items, key) == items[..i] + items[i + 1..]
    ensures Total(items) == Total(Without(items, key)) + |items[i].data|
  {
    LookupIn(items, key);
    i :| 0 <= i < |items| && items[i] == Lookup(items, key).value;
    LookupAt(items, i);
    TotalAround(items, i);
  }

  lemma UniqueAround(items: seq<Item>, i: nat)
    requires UniqueKeys(items) && i < |items|
    ensures var w := items[..i] + items[i + 1..];
            && UniqueKeys(w) && forall j :: 0 <= j < |w| ==> w[j].key != items[i].key && w[j] in items
  {
    var w := items[..i] + items[i + 1..];
    forall j | 0 <= j < |w| ensures w[j].key != items[i].key && w[j] in items {
      assert w[j] == if j < i then items[j] else items[j + 1];
    }
  }

  /** A list without a key: nothing else is lost, and order and uniqueness stay. */
  lemma WithoutKeeps(items: seq<Item>, key: string)
    requires UniqueKeys(items)
    ensures var w := Without(items, key);
            && UniqueKeys(w) && |w| <= |items| && Total(w) <= Total(items)
            && forall j :: 0 <= j < |w| ==> w[j].key != key && w[j] in items
  {
    if Lookup(items, key).None? {
      LookupIn(items, key);
      WithoutMissing(items, key);
    } else {
      var i := Place(items, key);
      UniqueAround(items, i);
    }
  }

  // ---------- eviction -----------------------------------------------------

  /** Eviction keeps the longest most-recent-first prefix that satisfies both limits, and no more. */
  lemma {:induction false} EvictLongest(items: seq<Item>, l: Limits)
    ensures var r := Evict(items, l);
            && r <= items && Total(r) <= l.maxBytes && |r| <= l.maxEntries
            && forall n :: |r| < n <= |items| ==> Total(items[..n]) > l.maxBytes || n > l.maxEntries
  {
    if items == [] || Fits(items, l) {
    } else {
      var init := items[..|items| - 1];
      EvictLongest(init, l);
      forall n | |Evict(init, l)| < n <= |items| ensures Total(items[..n]) > l.maxBytes || n > l.maxEntries {
        if n == |items| { assert items[..n] == items; } else { assert items[..n] == init[..n]; }
      }
    }
  }

  lemma FitsPrefix(items: seq<Item>, rest: seq<Item>, l: Limits)
    requires Fits(items + rest, l)
    ensures Fits(items, l)
  {
    TotalConcat(items, rest);
  }

  lemma EvictBelow(front: seq<Item>, rest: seq<Item>, l: Limits)
    requires !Fits(front, l)
    ensures Evict(front + rest, l) < front
  {
    var r := Evict(front + rest, l);
    EvictLongest(front + rest, l);
    if |r| >= |front| {
      assert r == front + r[|front|..];
      FitsPrefix(front, r[|front|..], l);
      assert false;
    }
  }

  /** What is less than the whole list has lost the last item. */
  lemma LastLost(all: seq<Item>, b: seq<Item>)
    requires UniqueKeys(all) && b < all
    ensures Lookup(b, all[|all| - 1].key).None?
  {
    forall j | 0 <= j < |b| ensures b[j].key != all[|all| - 1].key {
      assert b[j] == all[j];
    }
    LookupAbsent(b, all[|all| - 1].key);
  }

  /** A prefix that satisfies the limits survives. */
  lemma EvictKeepsFitting(items: seq<Item>, w: seq<Item>, l: Limits)
    requires w <= items && Fits(w, l)
    ensures w <= Evict(items, l)
  {
    EvictLongest(items, l);
    assert items[..|w|] == w;
  }

  lemma FrontFits(it: Item, l: Limits)
    requires l.Valid() && |it.data| <= l.maxBytes
    ensures Fits([it], l)
  {
    TotalOne(it);
  }

  lemma TouchedSize(items: seq<Item>, op: Op, l: Limits)
    requires Ok(items, l) && Touched(items, op, l).Some?
    ensures 0 < |Touched(items, op, l).value.data| <= l.maxBytes
  {
    if op.Get? {
      var i := Place(items, op.key);
    }
  }

  lemma ToFrontUnique(items: seq<Item>, it: Item)
    requires UniqueKeys(items)
    ensures UniqueKeys(ToFront(items, it))
  {
    WithoutKeeps(items, it.key);
  }

  lemma FrontTotal(items: seq<Item>, i: nat)
    requires i < |items|
    ensures Total([items[i]] + (items[..i] + items[i + 1..])) == Total(items)
  {
    TotalAround(items, i);
    TotalConcat([items[i]], items[..i] + items[i + 1..]);
    TotalOne(items[i]);
  }

  /** Moving an item to the front is a reordering. */
  lemma FrontIsReordering(items: seq<Item>, i: nat)
    requires UniqueKeys(items) && i < |items|
    ensures var f := ToFront(items, items[i]);
            && f == [items[i]] + items[..i] + items[i + 1..]
            && UniqueKeys(f) && Total(f) == Total(items) && |f| == |items|
  {
    var w := items[..i] + items[i + 1..];
    assert Without(items, items[i].key) == w by { LookupAt(items, i); }
    assert UniqueKeys(ToFront(items, items[i])) by { ToFrontUnique(items, items[i]); }
    FrontTotal(items, i);
    assert [items[i]] + w == [items[i]] + items[..i] + items[i + 1..];
  }

  lemma FrontIsInsertion(items: seq<Item>, it: Item)
    requires UniqueKeys(items) && Lookup(items, it.key).None?
    ensures ToFront(items, it) == [it] + items
    ensures UniqueKeys([it] + items) && Total([it] + items) == |it.data| + Total(items)
  {
    assert Without(items, it.key) == items by { WithoutMissing(items, it.key); }
    assert UniqueKeys(ToFront(items, it)) by { ToFrontUnique(items, it); }
    TotalConcat([it], items);
    TotalOne(it);
  }

  lemma PrefixOk(items: seq<Item>, r: seq<Item>, l: Limits)
    requires r <= items && UniqueKeys(items) && l.Valid() && Fits(r, l)
    requires forall i :: 0 <= i < |items| ==> items[i].data != []
    ensures Ok(r, l)
  {
  }

  /** Every operation keeps keys unique, payloads non-empty and both limits; what it touched is then the front item. */
  lemma ApplyKeeps(items: seq<Item>, op: Op, l: Limits)
    requires Ok(items, l)
    ensures Ok(Apply(items, op, l), l)
    ensures Touched(items, op, l).Some? ==>
      Apply(items, op, l) != [] && Apply(items, op, l)[0] == Touched(items, op, l).value
  {
    var t := Touched(items, op, l);
    if !op.Clear? && t.Some? {
      var it := t.value;
      TouchedSize(items, op, l);
      WithoutKeeps(items, it.key);
      ToFrontUnique(items, it);
      FrontFits(it, l);
      EvictLongest(ToFront(items, it), l);
      EvictKeepsFitting(ToFront(items, it), [it], l);
      PrefixOk(ToFront(items, it), Evict(ToFront(items, it), l), l);
    }
  }

  /** A hit needs no eviction: the list is only reordered. */
  lemma HitReorders(items: seq<Item>, key: string, l: Limits)
    requires Ok(items, l) && Lookup(items, key).Some?
    ensures Apply(items, Get(key), l) == ToFront(items, Lookup(items, key).value)
  {
    var i := Place(items, key);
    TotalConcat([items[i]], Without(items, key));
    TotalOne(items[i]);
  }
}
