/** The events a client is told about, and the only orders in which they may come. */
module Events {
  import opened Bytes

  const INT_MAX: int := 0x7FFF_FFFF

  datatype Event =
    | Open
    | Error
    | Close(code: int, reason: seq<byte>)
    | Message(data: seq<byte>, len: int, isText: bool)

  /** The cast (int)n of a size_t. */
  function CastToInt(n: nat): (r: int)
    ensures -INT_MAX - 1 <= r <= INT_MAX && r <= n
    ensures r == n <==> n <= INT_MAX
  {
    (n + 0x8000_0000) % 0x1_0000_0000 - 0x8000_0000
  }

  /** The event enqueued for a complete message: nothing is copied unless the cast length is positive. */
  function MessageEvent(bytes: seq<byte>, isText: bool): Event {
    var len := CastToInt(|bytes|);
    Message(if len > 0 then bytes[..len] else [], len, isText)
  }

  /** A message is delivered whole, with its length, exactly when its size fits an int. */
  lemma DeliveredWhole(bytes: seq<byte>, isText: bool)
    ensures var e := MessageEvent(bytes, isText);
            (e.data == bytes && e.len == |bytes|) <==> |bytes| <= INT_MAX
  {
  }

  /** The length reported differs by a multiple of 2^32, and nothing is copied if it is negative. */
  lemma WrappedLength(bytes: seq<byte>, isText: bool)
    ensures var e := MessageEvent(bytes, isText);
      && -0x8000_0000 <= e.len < 0x8000_0000 && (|bytes| - e.len) % 0x1_0000_0000 == 0
      && e.data == (if e.len > 0 then bytes[..e.len] else [])
  {
  }

  // ---------- order --------------------------------------------------------

  /** An automaton for ERROR CLOSE | OPEN MESSAGE* [ERROR] CLOSE. */
  datatype Phase = Fresh | Running | Failing | Done

  function NextPhase(p: Phase, e: Event): Option<Phase> {
    match (p, e)
    case (Fresh, Open) => Some(Running)
    case (Fresh, Error) => Some(Failing)
    case (Running, Message(_, _, _)) => Some(Running)
    case (Running, Error) => Some(Failing)
    case (Running, Close(_, _)) => Some(Done)
    case (Failing, Close(_, _)) => Some(Done)
    case _ => None
  }

  /** The phase after a sequence of events, None when the order is wrong. */
  function PhaseOf(es: seq<Event>): Option<Phase> {
    if es == [] then Some(Fresh) else
    match PhaseOf(es[..|es| - 1])
    case None => None
    case Some(p) => NextPhase(p, es[|es| - 1])
  }

  lemma PhaseOfSnoc(es: seq<Event>, e: Event)
    ensures PhaseOf(es + [e]) == if PhaseOf(es).None? then None else NextPhase(PhaseOf(es).value, e)
  {
    assert (es + [e])[..|es|] == es;
  }

  /** es reads OPEN MESSAGE*. */
  predicate OpenRun(es: seq<Event>) {
    |es| > 0 && es[0] == Open && forall i :: 0 < i < |es| ==> es[i].Message?
  }

  /** es reads ERROR, or OPEN MESSAGE* ERROR. */
  predicate FailedRun(es: seq<Event>) {
    && |es| > 0 && es[|es| - 1] == Error
    && (|es| == 1 || OpenRun(es[..|es| - 1]))
  }

  /** es reads ERROR CLOSE, or OPEN MESSAGE* [ERROR] CLOSE. */
  predicate CompleteRun(es: seq<Event>) {
    && |es| > 0 && es[|es| - 1].Close?
    && (OpenRun(es[..|es| - 1]) || FailedRun(es[..|es| - 1]))
  }

  /** The sequences that each phase stands for. */
  predicate Reads(p: Phase, es: seq<Event>) {
    match p
    case Fresh => es == []
    case Running => OpenRun(es)
    case Failing => FailedRun(es)
    case Done => CompleteRun(es)
  }

  lemma {:induction false} RunningShape(es: seq<Event>)
    ensures PhaseOf(es) == Some(Running) <==> OpenRun(es)
    ensures PhaseOf(es) == Some(Fresh) <==> es == []
  {
    if es == [] {
    } else {
      RunningShape(es[..|es| - 1]);
    }
  }

  /** The automaton accepts the documented order and nothing else. */
  lemma EventGrammar(es: seq<Event>, p: Phase)
    ensures PhaseOf(es) == Some(p) <==> Reads(p, es)
  {
    RunningShape(es);
    if es != [] && (p == Failing || p == Done) {
      var init := es[..|es| - 1];
      RunningShape(init);
      if p == Done {
        EventGrammar(init, Failing);
      }
    }
  }

  /** A complete sequence holds one CLOSE, its last event. */
  lemma OneClose(es: seq<Event>)
    requires CompleteRun(es)
    ensures forall i :: 0 <= i < |es| - 1 ==> !es[i].Close?
  {
    var init := es[..|es| - 1];
    var run := if OpenRun(init) then init else init[..|init| - 1];
    forall i | 0 <= i < |es| - 1 ensures !es[i].Close? {
      assert i < |run| ==> es[i] == run[i];
    }
  }
}
