/** Whole runs of the cache: what every run keeps, and exactly when a key that was used is retained. */
module LruRuns {
  import opened Bytes
  import opened LruSpec

  function Run(items: seq<Item>, ops: seq<Op>, l: Limits): seq<Item> {
    if ops == [] then items else Apply(Run(items, ops[..|ops| - 1], l), ops[|ops| - 1], l)
  }

  /** The items touched in a run, oldest first: one for each successful put and each hit. */
  function TouchLog(items: seq<Item>, ops: seq<Op>, l: Limits): seq<Item> {
    if ops == [] then [] else
    var init := ops[..|ops| - 1];
    var t := Touched(Run(items, init, l), ops[|ops| - 1], l);
    TouchLog(items, init, l) + if t.Some? then [t.value] else []
  }

  /** The distinct keys of a touch log, each with the data of its last touch, most recent first. */
  function Recent(log: seq<Item>): seq<Item> {
    if log == [] then [] else ToFront(Recent(log[..|log| - 1]), log[|log| - 1])
  }

  lemma {:induction false} RunKeeps(items: seq<Item>, ops: seq<Op>, l: Limits)
    requires Ok(items, l)
    ensures Ok(Run(items, ops, l), l)
  {
    if ops != [] {
      var init := ops[..|ops| - 1];
      RunKeeps(items, init, l);
      ApplyKeeps(Run(items, init, l), ops[|ops| - 1], l);
    }
  }

  // ---------- what a key is found with -------------------------------------

  lemma FirstFound(items: seq<Item>, key: string)
    requires items != [] && items[0].key == key
    ensures Lookup(items, key) == Some(items[0])
  {
  }

  lemma {:induction false} WithoutOther(items: seq<Item>, key: string, other: string)
    requires key != other
    ensures Lookup(Without(items, key), other) == Lookup(items, other)
  {
    if items != [] && items[0].key != key { WithoutOther(items[1..], key, other); }
  }

  lemma {:induction false} LookupPrefix(r: seq<Item>, items: seq<Item>, key: string)
    requires r <= items && Lookup(r, key).Some?
    ensures Lookup(items, key) == Lookup(r, key)
  {
    if r[0].key != key {
      assert r[1..] <= items[1..];
      LookupPrefix(r[1..], items[1..], key);
    }
  }

  /** What is touched is found as it was touched; any other key is found as before, or has been evicted. */
  lemma FoundAfter(items: seq<Item>, op: Op, t: Item, other: string, l: Limits)
    requires Ok(items, l) && !op.Clear? && Touched(items, op, l) == Some(t) && other != t.key
    ensures Lookup(Apply(items, op, l), t.key) == Some(t)
    ensures Lookup(Apply(items, op, l), other).Some? ==> Lookup(items, other) == Lookup(Apply(items, op, l), other)
  {
    var front, after := ToFront(items, t), Apply(items, op, l);
    ApplyKeeps(items, op, l);
    FirstFound(after, t.key);
    EvictLongest(front, l);
    if Lookup(after, other).Some? {
      LookupPrefix(after, front, other);
      WithoutOther(items, t.key, other);
      assert front[1..] == Without(items, t.key);
    }
  }

  /** A put of 1 to maxBytes bytes is found with exactly those bytes; any other put changes nothing. */
  lemma PutThenFound(items: seq<Item>, key: string, data: seq<byte>, l: Limits)
    requires Ok(items, l)
    ensures var after := Apply(items, Put(key, data), l);
      if 0 < |data| <= l.maxBytes then Lookup(after, key) == Some(Item(key, data)) else after == items
  {
    if 0 < |data| <= l.maxBytes { FoundAfter(items, Put(key, data), Item(key, data), key + "k", l); }
  }

  /** The bytes of the last put of a key in a run, of those that a cache of this size stores, since the last clear. */
  function LastPut(ops: seq<Op>, key: string, maxBytes: nat): Option<seq<byte>> {
    if ops == [] then None else
    match ops[|ops| - 1]
    case Clear => None
    case Put(k, data) =>
      if k == key && 0 < |data| <= maxBytes then Some(data) else LastPut(ops[..|ops| - 1], key, maxBytes)
    case Get(_) => LastPut(ops[..|ops| - 1], key, maxBytes)
  }

  /** Over every run: a key that is found is found with the bytes of its last put. */
  lemma {:induction false} FoundIsLastPut(ops: seq<Op>, key: string, l: Limits)
    requires l.Valid()
    ensures var found := Lookup(Run([], ops, l), key);
      found.Some? ==> found.value.key == key && LastPut(ops, key, l.maxBytes) == Some(found.value.data)
  {
    LookupIn(Run([], ops, l), key);
    if ops != [] {
      var init, op := ops[..|ops| - 1], ops[|ops| - 1];
      FoundIsLastPut(init, key, l);
      RunKeeps([], init, l);
      FoundNext(Run([], init, l), op, key, l);
    }
  }

  /** What a step does to what a key is found with. */
  lemma FoundNext(items: seq<Item>, op: Op, key: string, l: Limits)
    requires Ok(items, l)
    ensures Lookup(Apply(items, op, l), key).Some? ==> !op.Clear?
    ensures Lookup(Apply(items, op, l), key).Some? ==>
      Lookup(Apply(items, op, l), key) ==
        if op.Put? && op.key == key && 0 < |op.data| <= l.maxBytes then Some(Item(key, op.data)) else Lookup(items, key)
  {
    var t := Touched(items, op, l);
    if t.Some? {
      if op.Get? { LookupIn(items, op.key); }
      FoundAfter(items, op, t.value, if key == t.value.key then key + "k" else key, l);
    }
  }

  // ---------- retention ----------------------------------------------------

  ghost predicate NoClear(ops: seq<Op>) {
    forall i :: 0 <= i < |ops| ==> !ops[i].Clear?
  }

  /** After every step so far, the distinct keys touched since the start fit both limits together. */
  ghost predicate WorkingSetFits(items: seq<Item>, ops: seq<Op>, l: Limits) {
    Fits(Recent(TouchLog(items, ops, l)), l) && (ops != [] ==> WorkingSetFits(items, ops[..|ops| - 1], l))
  }

  lemma {:induction false} WithoutPrefix(w: seq<Item>, items: seq<Item>, key: string)
    requires w <= items && UniqueKeys(items)
    ensures Without(w, key) <= Without(items, key)
  {
    if w == [] {
    } else if w[0].key == key {
    } else {
      assert items[1..][..|w| - 1] == w[1..];
      WithoutPrefix(w[1..], items[1..], key);
    }
  }

  lemma TouchLogLast(items: seq<Item>, ops: seq<Op>, l: Limits)
    requires ops != []
    ensures var log := TouchLog(items, ops[..|ops| - 1], l);
      var t := Touched(Run(items, ops[..|ops| - 1], l), ops[|ops| - 1], l);
      TouchLog(items, ops, l) == if t.Some? then log + [t.value] else log
  {
  }

  lemma RetentionStep(before: seq<Item>, log: seq<Item>, op: Op, l: Limits)
    requires Ok(before, l) && !op.Clear? && Recent(log) <= before
    requires Touched(before, op, l).Some? ==> Fits(Recent(log + [Touched(before, op, l).value]), l)
    ensures var t := Touched(before, op, l);
      Recent(if t.Some? then log + [t.value] else log) <= Apply(before, op, l)
  {
    var t := Touched(before, op, l);
    if t.Some? {
      var log' := log + [t.value];
      assert log'[..|log|] == log;
      WithoutPrefix(Recent(log), before, t.value.key);
      EvictKeepsFitting(ToFront(before, t.value), Recent(log'), l);
    }
  }

  /**
   As long as the keys touched since some moment have fitted the limits together, they are the head of the list: each
   is still there, in order of last use, with the last data put for it.
   */
  lemma {:induction false} Retention(items: seq<Item>, ops: seq<Op>, l: Limits)
    requires Ok(items, l) && NoClear(ops) && WorkingSetFits(items, ops, l)
    ensures Recent(TouchLog(items, ops, l)) <= Run(items, ops, l)
  {
    if ops != [] {
      var init := ops[..|ops| - 1];
      TouchLogLast(items, ops, l);
      Retention(items, init, l);
      RunKeeps(items, init, l);
      RetentionStep(Run(items, init, l), TouchLog(items, init, l), ops[|ops| - 1], l);
    }
  }

  lemma {:induction false} StillIn(items: seq<Item>, it: Item, key: string)
    requires it in items && it.key != key
    ensures it in Without(items, key)
  {
    if items[0] == it {
      assert Without(items, key)[0] == it;
    } else if items[0].key != key {
      StillIn(items[1..], it, key);
    }
  }

  /** Nothing after position i of the run touches the key. */
  ghost predicate Untouched(items: seq<Item>, ops: seq<Op>, from: nat, key: string, l: Limits) {
    forall i :: from <= i < |ops| ==>
      var t := Touched(Run(items, ops[..i], l), ops[i], l); t.Some? ==> t.value.key != key
  }

  lemma {:induction false} LogTail(items: seq<Item>, ops: seq<Op>, it: Item, l: Limits)
    requires |ops| > 0 && Touched(items, ops[0], l) == Some(it) && Untouched(items, ops, 1, it.key, l)
    ensures var log := TouchLog(items, ops, l);
            |log| > 0 && log[0] == it && forall j :: 0 < j < |log| ==> log[j].key != it.key
  {
    var init := ops[..|ops| - 1];
    if |ops| == 1 {
      assert init == [];
      assert TouchLog(items, ops, l) == [] + [it];
    } else {
      UntouchedInit(items, ops, it.key, l);
      LogTail(items, init, it, l);
      assert ops[..|ops| - 1] == init;
    }
  }

  lemma {:induction false} WithoutEnds(items: seq<Item>, key: string)
    requires items != [] && items[|items| - 1].key != key
    ensures Without(items, key) != [] && Without(items, key)[|Without(items, key)| - 1] == items[|items| - 1]
  {
    if items[0].key != key && |items| > 1 { WithoutEnds(items[1..], key); }
  }

  /** An item touched first and never again is the least recent of those touched. */
  lemma {:induction false} RecentEnds(log: seq<Item>, it: Item)
    requires log != [] && log[0] == it && forall j :: 0 < j < |log| ==> log[j].key != it.key
    ensures Recent(log) != [] && Recent(log)[|Recent(log)| - 1] == it
  {
    var init := log[..|log| - 1];
    if |log| == 1 {
      assert init == [];
      assert Recent(log) == [it];
    } else {
      RecentEnds(init, it);
      WithoutEnds(Recent(init), log[|log| - 1].key);
    }
  }

  /** A key that is gone stays away until it is touched. */
  lemma StaysGone(before: seq<Item>, op: Op, key: string, l: Limits)
    requires Ok(before, l) && Lookup(before, key).None?
    requires var t := Touched(before, op, l); t.Some? ==> t.value.key != key
    ensures Lookup(Apply(before, op, l), key).None?
  {
    var t := Touched(before, op, l);
    if t.Some? {
      var front := ToFront(before, t.value);
      WithoutKeeps(before, t.value.key);
      EvictLongest(front, l);
      LookupIn(before, key);
      LookupAbsent(Apply(before, op, l), key);
    }
  }

  /** The least recent of the touched items goes as soon as they do not fit together any more. */
  lemma DropsLast(before: seq<Item>, log: seq<Item>, t: Item, it: Item, l: Limits)
    requires Ok(before, l) && Recent(log) <= before && t.key != it.key
    requires Recent(log) != [] && Recent(log)[|Recent(log)| - 1] == it && !Fits(Recent(log + [t]), l)
    ensures Lookup(Evict(ToFront(before, t), l), it.key).None?
  {
    assert (log + [t])[..|log|] == log;
    WithoutPrefix(Recent(log), before, t.key);
    WithoutEnds(Recent(log), t.key);
    ToFrontUnique(before, t);
    DropsLastOf(ToFront(before, t), ToFront(Recent(log), t), l);
  }

  lemma DropsLastOf(front: seq<Item>, r: seq<Item>, l: Limits)
    requires UniqueKeys(front) && r <= front && !Fits(r, l) && r != []
    ensures Lookup(Evict(front, l), r[|r| - 1].key).None?
  {
    assert front == r + front[|r|..];
    EvictBelow(r, front[|r|..], l);
    LastLost(r, Evict(front, l));
  }

  lemma FirstLog(items: seq<Item>, ops: seq<Op>, it: Item, l: Limits)
    requires |ops| == 1 && Touched(items, ops[0], l) == Some(it)
    ensures ops[..|ops| - 1] == [] && TouchLog(items, ops, l) == [it] && Run(items, ops, l) == Apply(items, ops[0], l)
  {
    assert ops[..|ops| - 1] == [];
    TouchLogLast(items, ops, l);
  }

  lemma FirstRecent(it: Item)
    ensures Recent([it]) == [it]
  {
    assert [it][..|[it]| - 1] == [];
  }

  lemma FirstFits(items: seq<Item>, ops: seq<Op>, it: Item, l: Limits)
    requires Ok(items, l) && |ops| == 1 && Touched(items, ops[0], l) == Some(it)
    ensures WorkingSetFits(items, ops, l) && Lookup(Run(items, ops, l), it.key) == Some(it)
  {
    FirstLog(items, ops, it, l);
    FirstRecent(it);
    TouchedSize(items, ops[0], l);
    FrontFits(it, l);
    assert WorkingSetFits(items, [], l);
    ApplyKeeps(items, ops[0], l);
    LookupAt(Apply(items, ops[0], l), 0);
  }

  lemma KeptStep(items: seq<Item>, init: seq<Op>, op: Op, it: Item, l: Limits)
    requires Ok(items, l) && NoClear(init) && !op.Clear? && WorkingSetFits(items, init, l)
    requires init != [] && Touched(items, init[0], l) == Some(it) && Untouched(items, init, 1, it.key, l)
    requires Lookup(Run(items, init, l), it.key).Some?
    requires var t := Touched(Run(items, init, l), op, l); t.Some? ==> t.value.key != it.key
    ensures Lookup(Run(items, init + [op], l), it.key).Some? <==> WorkingSetFits(items, init + [op], l)
  {
    var ops, before, log := init + [op], Run(items, init, l), TouchLog(items, init, l);
    var t := Touched(before, op, l);
    assert ops[..|ops| - 1] == init;
    TouchLogLast(items, ops, l);
    Retention(items, init, l);
    RunKeeps(items, init, l);
    LogTail(items, init, it, l);
    RecentEnds(log, it);
    if t.Some? {
      if Fits(Recent(log + [t.value]), l) {
        Retention(items, ops, l);
        KeptItem(items, ops, log + [t.value], it, l);
      } else {
        DropsLast(before, log, t.value, it, l);
      }
    }
  }

  lemma KeptItem(items: seq<Item>, ops: seq<Op>, log: seq<Item>, it: Item, l: Limits)
    requires Ok(items, l) && Recent(log) <= Run(items, ops, l)
    requires log != [] && log[0] == it && forall j :: 0 < j < |log| ==> log[j].key != it.key
    ensures Lookup(Run(items, ops, l), it.key) == Some(it)
  {
    RecentEnds(log, it);
    RunKeeps(items, ops, l);
    var j := |Recent(log)| - 1;
    assert Run(items, ops, l)[j] == it;
    LookupAt(Run(items, ops, l), j);
  }

  lemma UntouchedInit(items: seq<Item>, ops: seq<Op>, key: string, l: Limits)
    requires |ops| > 1 && Untouched(items, ops, 1, key, l)
    ensures var init := ops[..|ops| - 1];
      && Untouched(items, init, 1, key, l)
      && var t := Touched(Run(items, init, l), ops[|ops| - 1], l); t.Some? ==> t.value.key != key
  {
    var init := ops[..|ops| - 1];
    forall i | 1 <= i < |init|
      ensures var t := Touched(Run(items, init[..i], l), init[i], l); t.Some? ==> t.value.key != key
    {
      assert init[..i] == ops[..i];
    }
  }

  /** A key touched once is still there exactly as long as it and the keys touched since have always fitted together. */
  lemma {:induction false} KeptExactly(items: seq<Item>, ops: seq<Op>, it: Item, l: Limits)
    requires Ok(items, l) && NoClear(ops)
    requires |ops| > 0 && Touched(items, ops[0], l) == Some(it) && Untouched(items, ops, 1, it.key, l)
    ensures Lookup(Run(items, ops, l), it.key).Some? <==> WorkingSetFits(items, ops, l)
  {
    if |ops| == 1 {
      FirstFits(items, ops, it, l);
    } else {
      var init, op := ops[..|ops| - 1], ops[|ops| - 1];
      assert init + [op] == ops;
      UntouchedInit(items, ops, it.key, l);
      KeptExactly(items, init, it, l);
      KeptNext(items, init, op, it, l);
    }
  }

  lemma KeptNext(items: seq<Item>, init: seq<Op>, op: Op, it: Item, l: Limits)
    requires Ok(items, l) && NoClear(init) && !op.Clear?
    requires init != [] && Touched(items, init[0], l) == Some(it) && Untouched(items, init, 1, it.key, l)
    requires Lookup(Run(items, init, l), it.key).Some? <==> WorkingSetFits(items, init, l)
    requires var t := Touched(Run(items, init, l), op, l); t.Some? ==> t.value.key != it.key
    ensures Lookup(Run(items, init + [op], l), it.key).Some? <==> WorkingSetFits(items, init + [op], l)
  {
    if WorkingSetFits(items, init, l) {
      KeptStep(items, init, op, it, l);
    } else {
      RunKeeps(items, init, l);
      StaysGone(Run(items, init, l), op, it.key, l);
      assert (init + [op])[..|init|] == init;
    }
  }

  /**
   Retention of one key, exactly: after its last successful put or hit, it is still cached if and only if it and the
   distinct keys touched since have always fitted both limits together; and then it is there with the data of that
   touch, and a get returns it.
   */
  lemma KeyRetained(items: seq<Item>, ops: seq<Op>, it: Item, l: Limits)
    requires Ok(items, l) && NoClear(ops)
    requires |ops| > 0 && Touched(items, ops[0], l) == Some(it) && Untouched(items, ops, 1, it.key, l)
    ensures Lookup(Run(items, ops, l), it.key) == if WorkingSetFits(items, ops, l) then Some(it) else None
    ensures Touched(Run(items, ops, l), Get(it.key), l) == Lookup(Run(items, ops, l), it.key)
  {
    KeptExactly(items, ops, it, l);
    if WorkingSetFits(items, ops, l) {
      Retention(items, ops, l);
      LogTail(items, ops, it, l);
      KeptItem(items, ops, TouchLog(items, ops, l), it, l);
    }
  }
}
