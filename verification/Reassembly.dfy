/** Putting fragmented messages together, section 5.4 of RFC 6455. */
module Reassembly {
  import opened Bytes
  import opened Frames
  import opened Events

  /** The reassembly state: the bytes kept so far and the type of the message they belong to. */
  datatype Frag = Frag(bytes: seq<byte>, isText: bool)

  predicate IsStart(f: Frame) {
    f.opcode == OP_TEXT || f.opcode == OP_BINARY
  }

  predicate IsData(f: Frame) {
    IsStart(f) || f.opcode == OP_CONTINUATION
  }

  /** A text or binary frame drops what was kept; a data frame is then appended. */
  function Appended(g: Frag, f: Frame): Frag {
    if IsStart(f) then Frag(f.payload, f.opcode == OP_TEXT)
    else if IsData(f) then Frag(g.bytes + f.payload, g.isText)
    else g
  }

  /** The state after a frame: a final data frame empties it. */
  function After(g: Frag, f: Frame): Frag {
    if IsData(f) && f.fin then Frag([], Appended(g, f).isText) else Appended(g, f)
  }

  /** The events a frame produces: one for a final data frame, else none. */
  function Produced(g: Frag, f: Frame): seq<Event> {
    if IsData(f) && f.fin then [MessageEvent(Appended(g, f).bytes, Appended(g, f).isText)] else []
  }

  function AfterAll(g: Frag, fs: seq<Frame>): Frag {
    if fs == [] then g else After(AfterAll(g, fs[..|fs| - 1]), fs[|fs| - 1])
  }

  function ProducedAll(g: Frag, fs: seq<Frame>): seq<Event> {
    if fs == [] then [] else
    ProducedAll(g, fs[..|fs| - 1]) + Produced(AfterAll(g, fs[..|fs| - 1]), fs[|fs| - 1])
  }

  lemma Snoc(g: Frag, fs: seq<Frame>, f: Frame)
    ensures AfterAll(g, fs + [f]) == After(AfterAll(g, fs), f)
    ensures ProducedAll(g, fs + [f]) == ProducedAll(g, fs) + Produced(AfterAll(g, fs), f)
  {
    assert (fs + [f])[..|fs|] == fs;
  }

  // ---------- fragmentation is transparent ---------------------------------

  function DataFrames(fs: seq<Frame>): seq<Frame> {
    if fs == [] then [] else
    DataFrames(fs[..|fs| - 1]) + if IsData(fs[|fs| - 1]) then [fs[|fs| - 1]] else []
  }

  function Body(fs: seq<Frame>): seq<byte> {
    if fs == [] then [] else Body(fs[..|fs| - 1]) + fs[|fs| - 1].payload
  }

  /** A message as section 5.4 fragments it: a text or binary frame, then continuations. */
  predicate Fragments(ds: seq<Frame>) {
    |ds| > 0 && IsStart(ds[0]) && forall i :: 0 < i < |ds| ==> ds[i].opcode == OP_CONTINUATION
  }

  predicate NoneFinal(ds: seq<Frame>) {
    forall i :: 0 <= i < |ds| ==> !ds[i].fin
  }

  /** One whole message: only its last frame is final. */
  predicate OneMessage(ds: seq<Frame>) {
    Fragments(ds) && ds[|ds| - 1].fin && NoneFinal(ds[..|ds| - 1])
  }

  /** Opcodes 0, 1 and 2 carry data, of which 1 starts a text and 2 a binary message; no other frame leaves a trace. */
  lemma OpcodesOfData(g: Frag, f: Frame)
    ensures f.opcode != 0 && f.opcode != 1 && f.opcode != 2 ==> After(g, f) == g && Produced(g, f) == []
    ensures f.opcode == 0 && !f.fin ==> After(g, f) == Frag(g.bytes + f.payload, g.isText) && Produced(g, f) == []
    ensures (f.opcode == 1 || f.opcode == 2) && !f.fin ==>
      After(g, f) == Frag(f.payload, f.opcode == 1) && Produced(g, f) == []
  {
  }

  /** Control frames and frames with unknown opcodes are invisible to reassembly. */
  lemma {:induction false} OnlyDataCounts(g: Frag, fs: seq<Frame>)
    ensures AfterAll(g, fs) == AfterAll(g, DataFrames(fs))
    ensures ProducedAll(g, fs) == ProducedAll(g, DataFrames(fs))
  {
    if fs == [] {
    } else {
      var init, f := fs[..|fs| - 1], fs[|fs| - 1];
      OnlyDataCounts(g, init);
      if IsData(f) {
        Snoc(g, DataFrames(init), f);
      } else {
        assert DataFrames(fs) == DataFrames(init);
      }
    }
  }

  lemma {:induction false} BegunState(g: Frag, ds: seq<Frame>)
    requires Fragments(ds) && NoneFinal(ds)
    ensures AfterAll(g, ds) == Frag(Body(ds), ds[0].opcode == OP_TEXT)
    ensures ProducedAll(g, ds) == []
  {
    var init, f := ds[..|ds| - 1], ds[|ds| - 1];
    if |ds| == 1 {
      assert init == [];
      assert Body(ds) == [] + f.payload == f.payload;
    } else {
      BegunState(g, init);
    }
  }

  lemma MessageState(g: Frag, ds: seq<Frame>)
    requires OneMessage(ds)
    ensures AfterAll(g, ds) == Frag([], ds[0].opcode == OP_TEXT)
    ensures ProducedAll(g, ds) == [MessageEvent(Body(ds), ds[0].opcode == OP_TEXT)]
  {
    var init, f := ds[..|ds| - 1], ds[|ds| - 1];
    if |ds| == 1 {
      assert init == [];
      assert Body(ds) == [] + f.payload == f.payload;
    } else {
      BegunState(g, init);
    }
  }

  // ---------- a transcript of many messages --------------------------------

  lemma {:induction false} ProducedConcat(g: Frag, a: seq<Frame>, b: seq<Frame>)
    ensures AfterAll(g, a + b) == AfterAll(AfterAll(g, a), b)
    ensures ProducedAll(g, a + b) == ProducedAll(g, a) + ProducedAll(AfterAll(g, a), b)
  {
    if b == [] {
      assert a + b == a;
    } else {
      var init, f := b[..|b| - 1], b[|b| - 1];
      assert a + b == (a + init) + [f];
      ProducedConcat(g, a, init);
      Snoc(g, a + init, f);
    }
  }

  /** What a stream cut short has produced is the start of what the whole stream produces. */
  lemma ProducedPrefix(g: Frag, fs: seq<Frame>, n: nat)
    requires n <= |fs|
    ensures ProducedAll(g, fs[..n]) <= ProducedAll(g, fs)
  {
    assert fs == fs[..n] + fs[n..];
    ProducedStart(g, fs[..n], fs[n..]);
  }

  lemma ProducedStart(g: Frag, a: seq<Frame>, b: seq<Frame>)
    ensures ProducedAll(g, a) <= ProducedAll(g, a + b)
  {
    ProducedConcat(g, a, b);
  }

  /** Messages one after the other, each in fragments and with other frames in between. */
  predicate AllMessages(groups: seq<seq<Frame>>) {
    forall i :: 0 <= i < |groups| ==> OneMessage(DataFrames(groups[i]))
  }

  /** The one event that a message is to be told as: its bytes and its type. */
  function EventOf(group: seq<Frame>): Event {
    var ds := DataFrames(group);
    MessageEvent(Body(ds), ds != [] && ds[0].opcode == OP_TEXT)
  }

  function AllEvents(groups: seq<seq<Frame>>): seq<Event> {
    seq(|groups|, i requires 0 <= i < |groups| => EventOf(groups[i]))
  }

  lemma MessageTold(g: Frag, group: seq<Frame>)
    requires OneMessage(DataFrames(group))
    ensures ProducedAll(g, group) == [EventOf(group)]
  {
    OnlyDataCounts(g, group);
    MessageState(g, DataFrames(group));
  }

  lemma MessageNext(g: Frag, before: seq<Frame>, group: seq<Frame>)
    requires OneMessage(DataFrames(group))
    ensures ProducedAll(g, before + group) == ProducedAll(g, before) + [EventOf(group)]
  {
    ProducedConcat(g, before, group);
    MessageTold(AfterAll(g, before), group);
  }

  lemma AllEventsNext(groups: seq<seq<Frame>>, last: seq<Frame>)
    ensures AllEvents(groups + [last]) == AllEvents(groups) + [EventOf(last)]
  {
  }

  lemma OrderStep(g: Frag, groups: seq<seq<Frame>>, last: seq<Frame>, t: seq<Frame>)
    requires AllMessages(groups + [last]) && ProducedAll(g, t) == AllEvents(groups)
    ensures ProducedAll(g, t + last) == AllEvents(groups + [last])
  {
    assert (groups + [last])[|groups|] == last;
    MessageNext(g, t, last);
    AllEventsNext(groups, last);
  }

  /** A transcript of messages produces exactly those messages, in order. */
  lemma {:induction false} MessagesInOrder(g: Frag, groups: seq<seq<Frame>>)
    requires AllMessages(groups)
    ensures ProducedAll(g, Flatten(groups)) == AllEvents(groups)
  {
    if groups != [] {
      var init, last := groups[..|groups| - 1], groups[|groups| - 1];
      assert groups == init + [last];
      MessagesInOrder(g, init);
      OrderStep(g, init, last, Flatten(init));
    }
  }

  /**
   A continuation without a start is not refused: it is taken for more of whatever is there, with the type that was last
   begun.
   */
  lemma StrayContinuation(g: Frag, p: seq<byte>)
    ensures ProducedAll(g, [Frame(true, OP_CONTINUATION, p)]) == [MessageEvent(g.bytes + p, g.isText)]
    ensures AfterAll(g, [Frame(true, OP_CONTINUATION, p)]) == Frag([], g.isText)
  {
    var f := Frame(true, OP_CONTINUATION, p);
    assert [f][..0] == [];
  }

  /**
   However a message is cut into fragments, whatever control or unknown frames come in between, and whatever was left
   over from before, it produces the one event that the same bytes in a single final frame produce.
   */
  lemma FragmentationTransparent(g: Frag, h: Frag, fs: seq<Frame>)
    requires OneMessage(DataFrames(fs))
    ensures var ds := DataFrames(fs);
            var whole := [Frame(true, ds[0].opcode, Body(ds))];
            && ProducedAll(g, fs) == ProducedAll(h, whole) == [MessageEvent(Body(ds), ds[0].opcode == OP_TEXT)]
            && AfterAll(g, fs) == AfterAll(h, whole)
            && (|Body(ds)| <= INT_MAX ==>
                  ProducedAll(g, fs) == [Message(Body(ds), |Body(ds)|, ds[0].opcode == OP_TEXT)])
  {
    var ds := DataFrames(fs);
    var whole := [Frame(true, ds[0].opcode, Body(ds))];
    OnlyDataCounts(g, fs);
    MessageState(g, ds);
    MessageState(h, whole);
    assert whole[..0] == [];
    assert Body(whole) == [] + Body(ds) == Body(ds);
    DeliveredWhole(Body(ds), ds[0].opcode == OP_TEXT);
  }
}
