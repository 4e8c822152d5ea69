/** What every reachable state of the client satisfies, and what every run does. */
module ProtocolSafety {
  import opened Bytes
  import opened Frames
  import opened Events
  import opened Reassembly
  import opened Protocol

  /** The states that some run from the initial state reaches. */
  ghost predicate Reached(inbound: seq<byte>, acts: seq<Action>, s: State) {
    Exec(Init(inbound), acts) == Some(s)
  }

  // ---------- control: flags, program counter, events ----------------------

  predicate InLoop(pc: Pc) {
    !pc.Connecting? && !pc.LoopLeft? && !pc.SockClosing? && !pc.Exited?
  }

  predicate FailureKnown(pc: Pc) {
    pc.SelectFailed? || pc.HeaderFailed? || pc.ReceiveFailed?
  }

  /** The flags agree with the worker's position, and an open sockfd names a live descriptor. */
  ghost predicate Control(s: State) {
    var ws, pc := s.ws, s.worker.pc;
    && (ws.closeEmitted ==> !ws.connected)
    && (!ws.closeEmitted ==> !ws.errorEmitted)
    && (pc.Connecting? ==> !ws.connected && !ws.closeEmitted && !ws.sockOpen && s.sock.fd == Private)
    && (InLoop(pc) ==> ws.connected && ws.sockOpen)
    && (pc.LoopLeft? ==> (ws.connected || ws.closeEmitted) && ws.sockOpen)
    && (pc.SockClosing? || pc.Exited? ==> ws.closeEmitted && !ws.sockOpen)
    && (ws.sockOpen ==> s.sock.fd == Live)
    && (pc.Exited? ==> s.sock.fd == Closed)
  }

  lemma ControlReport(s: State)
    requires Control(s) && FailureKnown(s.worker.pc)
    ensures Control(StepReport(s))
  {
  }

  lemma ControlWorker(s: State, a: Action)
    requires Control(s) && IsWorker(a) && Enabled(s, a)
    ensures Control(Step(s, a))
  {
    if a.Report? { ControlReport(s); }
  }

  lemma ControlStep(s: State, a: Action)
    requires Control(s) && Enabled(s, a)
    ensures Control(Step(s, a))
  {
    if IsWorker(a) { ControlWorker(s, a); }
  }

  // ---------- the order of events ------------------------------------------

  /** The phase that the flags stand for. */
  function FlagPhase(ws: Flags): Phase {
    if ws.closeEmitted then Done else if ws.connected then Running else Fresh
  }

  ghost predicate Ordered(s: State) {
    PhaseOf(s.mail.enqueued) == Some(FlagPhase(s.ws))
  }

  /** Events enqueued by the worker in one critical section, and the phase they lead to. */
  lemma PutOne(m: Mail, e: Event, p: Phase)
    requires PhaseOf(m.enqueued) == Some(p)
    ensures PhaseOf(Put(m, [e]).enqueued) == NextPhase(p, e)
  {
    PhaseOfSnoc(m.enqueued, e);
  }

  lemma OrderedFailure(s: State, code: int, why: seq<byte>)
    requires Ordered(s) && !s.ws.errorEmitted && !s.ws.closeEmitted
    ensures Ordered(EnqueueClose(EnqueueError(s), code, why))
  {
    PutOne(s.mail, Error, FlagPhase(s.ws));
    PutOne(EnqueueError(s).mail, Close(code, why), Failing);
  }

  lemma OrderedLeave(s: State)
    requires Ordered(s) && (s.ws.connected || s.ws.closeEmitted)
    ensures Ordered(StepLeave(s))
  {
    if !s.ws.closeEmitted { PutOne(s.mail, Close(1006, Ascii("connection closed")), Running); }
  }

  lemma OrderedClose(s: State, code: int, reason: seq<byte>)
    requires Ordered(s) && (s.ws.connected || s.ws.closeEmitted)
    ensures Ordered(EnqueueClose(s, code, reason))
  {
    if !s.ws.closeEmitted { PutOne(s.mail, Close(code, reason), Running); }
  }

  lemma OrderedReport(s: State)
    requires Control(s) && Ordered(s) && FailureKnown(s.worker.pc)
    ensures Ordered(StepReport(s))
  {
    var info := FailureInfo(s.ws, s.worker.pc);
    if s.worker.pc.HeaderFailed? { OrderedClose(s, info.0, info.1); } else { OrderedFailure(s, info.0, info.1); }
  }

  lemma OrderedDispatch(s: State, io: Io)
    requires Control(s) && Ordered(s) && s.worker.pc.Dispatching? && |io.key| == 4
    ensures Ordered(StepDispatch(s, io))
  {
    MailOfDispatch(s, io);
    RequestsOfDispatch(s, io);
    PutProduced(s.mail, s.worker.frag, s.worker.pc.frame);
  }

  lemma PutProduced(m: Mail, g: Frag, f: Frame)
    requires PhaseOf(m.enqueued) == Some(Running)
    ensures PhaseOf(Put(m, Produced(g, f)).enqueued) == Some(Running)
  {
    if IsData(f) && f.fin {
      PutOne(m, Produced(g, f)[0], Running);
    } else {
      assert m.enqueued + [] == m.enqueued;
    }
  }

  lemma OrderedStep(s: State, a: Action)
    requires Control(s) && Ordered(s) && Enabled(s, a)
    ensures Ordered(Step(s, a))
  {
    match a
    case ConnectFailed(why) => OrderedFailure(s, 1006, why);
    case Opened(io) => PutOne(s.mail, Open, Fresh);
    case Report => OrderedReport(s);
    case Dispatch(io) => OrderedDispatch(s, io);
    case ReportClose(io) => OrderedClose(SendFrame(s, OP_CLOSE, [], io), s.worker.pc.code, s.worker.pc.reason);
    case Leave => OrderedLeave(s);
    case _ =>
  }

  // ---------- the queue ----------------------------------------------------

  /** Nothing is lost, duplicated or reordered between enqueuing and polling until destroy empties the queue. */
  ghost predicate Delivered(m: Mail) {
    if m.discarded then m.queue == [] && m.taken <= m.enqueued else m.taken + m.queue == m.enqueued
  }

  /** The queue is discarded only when the worker is gone, and the storage freed only after that. */
  ghost predicate Lifetime(s: State) {
    && (s.mail.discarded ==> s.worker.pc.Exited? && s.ws.destroyRequested)
    && (s.freed ==> s.mail.discarded)
  }

  lemma LifetimeStep(s: State, a: Action)
    requires Lifetime(s) && Enabled(s, a)
    ensures Lifetime(Step(s, a))
  {
  }

  lemma PutDelivered(m: Mail, es: seq<Event>)
    requires Delivered(m) && !m.discarded
    ensures Delivered(Put(m, es))
  {
    assert m.taken + (m.queue + es) == m.taken + m.queue + es;
  }

  lemma TakeDelivered(m: Mail)
    requires Delivered(m)
    ensures Delivered(TakeFirst(m))
  {
    if m.queue != [] { assert m.taken + [m.queue[0]] + m.queue[1..] == m.taken + m.queue; }
  }

  lemma ErrorDelivered(s: State)
    requires Delivered(s.mail) && !s.mail.discarded
    ensures Delivered(EnqueueError(s).mail)
  {
    PutDelivered(s.mail, [Error]);
  }

  lemma CloseDelivered(s: State, code: int, reason: seq<byte>)
    requires Delivered(s.mail) && !s.mail.discarded
    ensures Delivered(EnqueueClose(s, code, reason).mail)
  {
    PutDelivered(s.mail, [Close(code, reason)]);
  }

  lemma ReportDelivered(s: State)
    requires Delivered(s.mail) && !s.mail.discarded
    ensures Delivered(StepReport(s).mail)
  {
    var info := FailureInfo(s.ws, s.worker.pc);
    ErrorDelivered(s);
    CloseDelivered(if s.worker.pc.HeaderFailed? then s else EnqueueError(s), info.0, info.1);
  }

  lemma DeliveredStep(s: State, a: Action)
    requires Delivered(s.mail) && Lifetime(s) && Enabled(s, a)
    ensures Delivered(Step(s, a).mail)
  {
    match a
    case ConnectFailed(why) => ErrorDelivered(s); CloseDelivered(EnqueueError(s), 1006, why);
    case Opened(io) => PutDelivered(s.mail, [Open]);
    case Report => ReportDelivered(s);
    case Dispatch(io) => PutDelivered(s.mail, Produced(s.worker.frag, s.worker.pc.frame));
    case ReportClose(io) => CloseDelivered(SendFrame(s, OP_CLOSE, [], io), s.worker.pc.code, s.worker.pc.reason);
    case Leave => CloseDelivered(s.(ws := s.ws.(connected := false)), 1006, Ascii("connection closed"));
    case Poll => TakeDelivered(s.mail);
    case _ =>
  }

  // ---------- the wire -----------------------------------------------------

  /** As long as no send failed, the bytes sent are the encodings of the frames sent, in mutex order. */
  ghost predicate Faithful(o: Outgoing) {
    AllValid(o.sent) && (!o.failed ==> o.bytes == EncodeAll(o.sent))
  }

  lemma TransmitFaithful(o: Outgoing, opcode: byte, payload: seq<byte>, io: Io)
    requires Faithful(o) && Sendable(opcode, payload, io)
    ensures Faithful(Transmit(o, opcode, payload, io))
  {
    EncodeAllSnoc(o.sent, Sent(opcode, payload, io.key));
  }

  /** What one step puts on the wire: nothing, or one frame. */
  datatype Sending = Quiet | Sends(opcode: byte, payload: seq<byte>, io: Io)

  /** The frame that a step hands to ws_send_frame_locked, before that looks whether the connection is up. */
  function FrameOf(s: State, a: Action): (r: Sending)
    requires Enabled(s, a)
    ensures r.Sends? ==> Sendable(r.opcode, r.payload, r.io)
  {
    match a
    case Opened(io) =>
      if s.ws.closeRequested then Sends(OP_CLOSE, ClosePayload(s.ws.code, s.ws.reason), io) else Quiet
    case Dispatch(io) =>
      if s.worker.pc.frame.opcode == OP_PING then Sends(OP_PONG, s.worker.pc.frame.payload, io) else Quiet
    case ReportClose(io) => Sends(OP_CLOSE, [], io)
    case SendData(op, data, io) => if op == OP_BINARY && data == [] then Quiet else Sends(op, data, io)
    case RequestClose(code, reason, io) =>
      Sends(OP_CLOSE, ClosePayload(if code > 0 then code else DEFAULT_CLOSE_CODE, Snprintf(reason, 128)), io)
    case _ => Quiet
  }

  /** A step changes the wire only by transmitting its frame, and only while the connection is up. */
  lemma OutOfStep(s: State, a: Action)
    requires Control(s) && Enabled(s, a)
    ensures var f := FrameOf(s, a);
            Step(s, a).out ==
              if f.Sends? && (s.ws.connected || a.Opened?) then Transmit(s.out, f.opcode, f.payload, f.io) else s.out
  {
  }

  lemma FaithfulStep(s: State, a: Action)
    requires Control(s) && Faithful(s.out) && Enabled(s, a)
    ensures Faithful(Step(s, a).out)
  {
    OutOfStep(s, a);
    var f := FrameOf(s, a);
    if f.Sends? { TransmitFaithful(s.out, f.opcode, f.payload, f.io); }
  }

  // ---------- what the frames say ------------------------------------------

  /** The payload of the last Close frame among fs. */
  function LastClose(fs: seq<Frame>): Option<seq<byte>> {
    if fs == [] then None
    else if fs[|fs| - 1].opcode == OP_CLOSE then Some(fs[|fs| - 1].payload)
    else LastClose(fs[..|fs| - 1])
  }

  /** The payloads of the frames with a given opcode, in order. */
  function Payloads(fs: seq<Frame>, opcode: byte): seq<seq<byte>> {
    if fs == [] then [] else
    Payloads(fs[..|fs| - 1], opcode) + if fs[|fs| - 1].opcode == opcode then [fs[|fs| - 1].payload] else []
  }

  lemma FramesSnoc(fs: seq<Frame>, f: Frame, opcode: byte)
    ensures LastClose(fs + [f]) == if f.opcode == OP_CLOSE then Some(f.payload) else LastClose(fs)
    ensures Payloads(fs + [f], opcode) == Payloads(fs, opcode) + if f.opcode == opcode then [f.payload] else []
  {
    assert (fs + [f])[..|fs|] == fs;
  }

  /** What one transmitted frame adds to the log of frames that went out whole. */
  lemma LogOfTransmit(o: Outgoing, opcode: byte, payload: seq<byte>, io: Io)
    requires Sendable(opcode, payload, io)
    ensures var t := Transmit(o, opcode, payload, io);
            && (o.failed ==> t.failed)
            && (!t.failed ==> ReceivedAll(t.sent) == ReceivedAll(o.sent) + [Frame(true, opcode, payload)])
  {
    var m := Sent(opcode, payload, io.key);
    assert ReceivedAll(o.sent + [m]) == ReceivedAll(o.sent) + [m.Received()];
  }

  /** A close that was asked for has been announced to the peer, with the latest code and reason. */
  ghost predicate Announced(s: State) {
    s.ws.connected && s.ws.closeRequested && !s.out.failed ==>
      LastClose(ReceivedAll(s.out.sent)) == Some(ClosePayload(s.ws.code, s.ws.reason))
  }

  /** The flags by which clients make requests. */
  predicate SameRequests(t: Flags, ws: Flags) {
    && t.closeRequested == ws.closeRequested && t.destroyRequested == ws.destroyRequested
    && t.code == ws.code && t.reason == ws.reason
  }

  lemma RequestsOfEmit(s: State, code: int, reason: seq<byte>)
    ensures SameRequests(EnqueueClose(s, code, reason).ws, s.ws)
    ensures SameRequests(EnqueueClose(EnqueueError(s), code, reason).ws, s.ws)
  {
  }

  lemma RequestsOfReport(s: State)
    ensures SameRequests(StepReport(s).ws, s.ws)
  {
    var info := FailureInfo(s.ws, s.worker.pc);
    RequestsOfEmit(s, info.0, info.1);
  }

  lemma RequestsOfDispatch(s: State, io: Io)
    requires s.worker.pc.Dispatching? && |io.key| == 4
    ensures StepDispatch(s, io).ws == s.ws
  {
  }

  /** The worker never writes what the clients ask for. */
  lemma RequestsOfWorker(s: State, a: Action)
    requires Control(s) && IsWorker(a) && Enabled(s, a)
    ensures SameRequests(Step(s, a).ws, s.ws)
  {
    match a
    case Report => RequestsOfReport(s);
    case Dispatch(io) => RequestsOfDispatch(s, io);
    case ConnectFailed(why) => RequestsOfEmit(s, 1006, why);
    case _ =>
  }

  /** Only websocket_close changes the requested code and reason. */
  lemma RequestOfStep(s: State, a: Action)
    requires Control(s) && Enabled(s, a) && !a.RequestClose?
    ensures var t := Step(s, a).ws;
            t.closeRequested == s.ws.closeRequested && t.code == s.ws.code && t.reason == s.ws.reason
  {
    if IsWorker(a) { RequestsOfWorker(s, a); }
  }

  lemma ConnectedOfStep(s: State, a: Action)
    requires Control(s) && Enabled(s, a)
    ensures Step(s, a).ws.connected ==> a.Opened? || (s.ws.connected && !a.ReportClose?)
  {
  }

  lemma AnnouncedStep(s: State, a: Action)
    requires Control(s) && Announced(s) && Enabled(s, a)
    ensures Announced(Step(s, a))
  {
    OutOfStep(s, a);
    if !a.RequestClose? { RequestOfStep(s, a); }
    ConnectedOfStep(s, a);
    var f := FrameOf(s, a);
    if f.Sends? {
      LogOfTransmit(s.out, f.opcode, f.payload, f.io);
      FramesSnoc(ReceivedAll(s.out.sent), Frame(true, f.opcode, f.payload), OP_PONG);
    }
  }

  /** Every PING dispatched so far was answered by one PONG with its payload, in order. */
  ghost predicate Answered(s: State) {
    !s.out.failed ==> Payloads(ReceivedAll(s.out.sent), OP_PONG) == Payloads(s.worker.got, OP_PING)
  }

  /** Only a dispatch changes what the worker has seen. */
  lemma WorkerOfStep(s: State, a: Action)
    requires Control(s) && Enabled(s, a)
    ensures var t := Step(s, a);
            && t.worker.got == (if a.Dispatch? then s.worker.got + [s.worker.pc.frame] else s.worker.got)
            && t.worker.frag == (if a.Dispatch? then After(s.worker.frag, s.worker.pc.frame) else s.worker.frag)
  {
  }

  lemma AnsweredStep(s: State, a: Action)
    requires Control(s) && Answered(s) && Enabled(s, a)
    ensures Answered(Step(s, a))
  {
    OutOfStep(s, a);
    WorkerOfStep(s, a);
    var f := FrameOf(s, a);
    if f.Sends? {
      LogOfTransmit(s.out, f.opcode, f.payload, f.io);
      FramesSnoc(ReceivedAll(s.out.sent), Frame(true, f.opcode, f.payload), OP_PONG);
    }
    if a.Dispatch? { FramesSnoc(s.worker.got, s.worker.pc.frame, OP_PING); }
  }

  function Messages(es: seq<Event>): seq<Event> {
    if es == [] then [] else
    Messages(es[..|es| - 1]) + if es[|es| - 1].Message? then [es[|es| - 1]] else []
  }

  /** The MESSAGE events are the messages that the dispatched frames carry. */
  ghost predicate Told(s: State) {
    && Messages(s.mail.enqueued) == ProducedAll(INITIAL_FRAG, s.worker.got)
    && s.worker.frag == AfterAll(INITIAL_FRAG, s.worker.got)
  }

  lemma MessagesSnoc(es: seq<Event>, e: Event)
    ensures Messages(es + [e]) == Messages(es) + if e.Message? then [e] else []
  {
    assert (es + [e])[..|es|] == es;
  }

  lemma MessagesTwo(es: seq<Event>, e: Event, f: Event)
    requires !e.Message? && !f.Message?
    ensures Messages(es + [e] + [f]) == Messages(es) == Messages(es + [f])
  {
    MessagesSnoc(es, e);
    MessagesSnoc(es, f);
    MessagesSnoc(es + [e], f);
  }

  lemma CloseTold(s: State, code: int, reason: seq<byte>)
    ensures Messages(EnqueueClose(s, code, reason).mail.enqueued) == Messages(s.mail.enqueued)
    ensures Messages(EnqueueClose(EnqueueError(s), code, reason).mail.enqueued) == Messages(s.mail.enqueued)
  {
    MessagesTwo(s.mail.enqueued, Error, Close(code, reason));
    MessagesSnoc(s.mail.enqueued, Error);
  }

  lemma ReportTold(s: State)
    ensures Messages(StepReport(s).mail.enqueued) == Messages(s.mail.enqueued)
  {
    var info := FailureInfo(s.ws, s.worker.pc);
    CloseTold(s, info.0, info.1);
  }

  lemma ProducedTold(es: seq<Event>, g: Frag, f: Frame)
    ensures Messages(es + Produced(g, f)) == Messages(es) + Produced(g, f)
  {
    if IsData(f) && f.fin {
      MessagesSnoc(es, Produced(g, f)[0]);
      assert Produced(g, f) == [Produced(g, f)[0]];
    } else {
      assert es + Produced(g, f) == es;
    }
  }

  lemma ToldNext(es: seq<Event>, w: Worker, f: Frame)
    requires Messages(es) == ProducedAll(INITIAL_FRAG, w.got) && w.frag == AfterAll(INITIAL_FRAG, w.got)
    ensures Messages(es + Produced(w.frag, f)) == ProducedAll(INITIAL_FRAG, w.got + [f])
    ensures After(w.frag, f) == AfterAll(INITIAL_FRAG, w.got + [f])
  {
    ProducedTold(es, w.frag, f);
    Snoc(INITIAL_FRAG, w.got, f);
  }

  lemma MailOfDispatch(s: State, io: Io)
    requires s.worker.pc.Dispatching? && |io.key| == 4
    ensures StepDispatch(s, io).mail == Put(s.mail, Produced(s.worker.frag, s.worker.pc.frame))
  {
  }

  /** Only a dispatch enqueues a MESSAGE. */
  lemma MessagesOfStep(s: State, a: Action)
    requires IsWorker(a) && Enabled(s, a) && !a.Dispatch?
    ensures Messages(Step(s, a).mail.enqueued) == Messages(s.mail.enqueued)
  {
    match a
    case ConnectFailed(why) => CloseTold(s, 1006, why);
    case Opened(io) => MessagesSnoc(s.mail.enqueued, Open);
    case Report => ReportTold(s);
    case ReportClose(io) => CloseTold(SendFrame(s, OP_CLOSE, [], io), s.worker.pc.code, s.worker.pc.reason);
    case Leave => CloseTold(s.(ws := s.ws.(connected := false)), 1006, Ascii("connection closed"));
    case _ =>
  }

  lemma ToldStep(s: State, a: Action)
    requires Control(s) && Told(s) && Enabled(s, a)
    ensures Told(Step(s, a))
  {
    WorkerOfStep(s, a);
    if a.Dispatch? {
      MailOfDispatch(s, a.io);
      ToldNext(s.mail.enqueued, s.worker, s.worker.pc.frame);
    } else if IsWorker(a) {
      MessagesOfStep(s, a);
    } else {
      ClientMail(s, a);
    }
  }

  // ---------- the incoming stream ------------------------------------------

  /** The frames of the whole incoming stream: dispatched, being dispatched, still to arrive. */
  ghost predicate Consumed(s: State, inbound: seq<byte>) {
    ParseAll(inbound, RECEIVE_CAP).0 ==
      s.worker.got + (if s.worker.pc.Dispatching? then [s.worker.pc.frame] else [])
      + ParseAll(s.sock.inbound, RECEIVE_CAP).0
  }

  /** Where the worker goes, and what it has taken from the stream. */
  lemma InboundOfStep(s: State, a: Action)
    requires Control(s) && Enabled(s, a) && !a.Receive?
    ensures Step(s, a).sock.inbound == s.sock.inbound
    ensures Step(s, a).worker.pc.Dispatching? ==> !a.Dispatch? && Step(s, a).worker.pc == s.worker.pc
    ensures s.worker.pc.Dispatching? && !a.Dispatch? ==> Step(s, a).worker.pc == s.worker.pc
  {
  }

  lemma ConsumedReceive(s: State, inbound: seq<byte>)
    requires Consumed(s, inbound) && s.worker.pc.Waiting?
    ensures Consumed(StepReceive(s), inbound)
  {
    var got, rest := s.worker.got, ParseAll(s.sock.inbound, RECEIVE_CAP).0;
    assert got + [] == got;
    var p := Parse(s.sock.inbound, RECEIVE_CAP);
    if p.Whole? {
      var after := ParseAll(s.sock.inbound[p.used..], RECEIVE_CAP).0;
      assert rest == [p.frame] + after;
      assert got + [p.frame] + after == got + ([p.frame] + after);
    }
  }

  lemma ConsumedStep(s: State, a: Action, inbound: seq<byte>)
    requires Control(s) && Consumed(s, inbound) && Enabled(s, a)
    ensures Consumed(Step(s, a), inbound)
  {
    if a.Receive? {
      ConsumedReceive(s, inbound);
    } else {
      InboundOfStep(s, a);
      WorkerOfStep(s, a);
      var got := s.worker.got;
      if a.Dispatch? {
        var f := s.worker.pc.frame;
        assert got + [f] + [] == got + [f];
      }
    }
  }

  // ---------- shutdown -----------------------------------------------------

  /** Once destroy has been requested, no worker position past the check finds the socket still up. */
  ghost predicate ShutDown(s: State) {
    s.ws.destroyRequested && InLoop(s.worker.pc) && !s.worker.pc.LoopTop? ==> s.sock.shut
  }

  lemma ShutDownStep(s: State, a: Action)
    requires Control(s) && ShutDown(s) && Enabled(s, a)
    ensures ShutDown(Step(s, a))
  {
  }

  /** How many steps the worker can still take once destroy has been requested. */
  function Rank(pc: Pc): nat {
    match pc
    case Waiting => 5
    case Connecting => 4
    case Dispatching(_) => 4
    case LoopTop => 3
    case LoopLeft => 2
    case SockClosing => 1
    case Exited => 0
    case _ => 3
  }

  function WorkerSteps(acts: seq<Action>): nat {
    if acts == [] then 0 else WorkerSteps(acts[..|acts| - 1]) + if IsWorker(acts[|acts| - 1]) then 1 else 0
  }

  lemma RankWorker(s: State, a: Action)
    requires s.ws.destroyRequested && IsWorker(a) && Enabled(s, a)
    ensures Rank(Step(s, a).worker.pc) < Rank(s.worker.pc)
  {
  }

  /** What clients do leaves the worker where it is, and its stream alone. */
  lemma ClientStep(s: State, a: Action)
    requires !IsWorker(a) && Enabled(s, a)
    ensures Step(s, a).worker == s.worker && Step(s, a).sock.inbound == s.sock.inbound
  {
  }

  lemma DestroyStays(s: State, a: Action)
    requires Control(s) && s.ws.destroyRequested && Enabled(s, a)
    ensures Step(s, a).ws.destroyRequested
  {
    if IsWorker(a) { RequestsOfWorker(s, a); }
  }

  /** The requested reason is what a 128-byte buffer can hold. */
  ghost predicate Trimmed(ws: Flags) {
    Snprintf(ws.reason, 128) == ws.reason
  }

  lemma TrimmedStep(s: State, a: Action)
    requires Control(s) && Trimmed(s.ws) && Enabled(s, a)
    ensures Trimmed(Step(s, a).ws)
  {
    if a.RequestClose? {
      SnprintfKeeps(a.newReason, 128);
      SnprintfKeeps(Snprintf(a.newReason, 128), 128);
    } else {
      RequestOfStep(s, a);
    }
  }

  // ---------- all of it, over every run ------------------------------------

  ghost predicate Safe(s: State, inbound: seq<byte>) {
    && Control(s) && Ordered(s) && Lifetime(s) && Delivered(s.mail) && Faithful(s.out)
    && Announced(s) && Answered(s) && Told(s) && Consumed(s, inbound) && ShutDown(s) && Trimmed(s.ws)
  }

  lemma SafeInit(inbound: seq<byte>)
    ensures Safe(Init(inbound), inbound)
  {
    AsciiFits("client closing", 128);
    var fs := ParseAll(inbound, RECEIVE_CAP).0;
    assert [] + [] + fs == fs;
  }

  lemma SafeStep(s: State, a: Action, inbound: seq<byte>)
    requires Safe(s, inbound) && Enabled(s, a)
    ensures Safe(Step(s, a), inbound)
  {
    ControlStep(s, a);
    OrderedStep(s, a);
    LifetimeStep(s, a);
    DeliveredStep(s, a);
    FaithfulStep(s, a);
    AnnouncedStep(s, a);
    AnsweredStep(s, a);
    ToldStep(s, a);
    ConsumedStep(s, a, inbound);
    ShutDownStep(s, a);
    TrimmedStep(s, a);
  }

  lemma {:induction false} SafeReached(inbound: seq<byte>, acts: seq<Action>, s: State)
    requires Reached(inbound, acts, s)
    ensures Safe(s, inbound)
  {
    if acts == [] {
      SafeInit(inbound);
    } else {
      var init := acts[..|acts| - 1];
      var u := Exec(Init(inbound), init).value;
      SafeReached(inbound, init, u);
      SafeStep(u, acts[|acts| - 1], inbound);
    }
  }

  /** A run that goes on from a reached state is a run from the start. */
  lemma {:induction false} ReachedOn(inbound: seq<byte>, acts: seq<Action>, s: State, more: seq<Action>, t: State)
    requires Reached(inbound, acts, s) && Exec(s, more) == Some(t)
    ensures Reached(inbound, acts + more, t)
  {
    if more == [] {
      assert acts + more == acts;
    } else {
      var init := more[..|more| - 1];
      ReachedOn(inbound, acts, s, init, Exec(s, init).value);
      assert (acts + more)[..|acts + more| - 1] == acts + init;
    }
  }

  lemma SafeOn(inbound: seq<byte>, acts: seq<Action>, s: State, more: seq<Action>, t: State)
    requires Reached(inbound, acts, s) && Exec(s, more) == Some(t)
    ensures Safe(t, inbound)
  {
    ReachedOn(inbound, acts, s, more, t);
    SafeReached(inbound, acts + more, t);
  }

  /** The run init, which has led from s to u, goes on with a. */
  ghost predicate Continues(s: State, init: seq<Action>, u: State, a: Action) {
    Exec(s, init) == Some(u) && Enabled(u, a)
  }

  /** What holds of the empty run from s and is kept by every step that continues a run from s holds of all of them. */
  ghost predicate KeptFrom(s: State, path: (seq<Action>, State) -> bool) {
    && path([], s)
    && forall init: seq<Action>, u: State, a: Action {:trigger Continues(s, init, u, a)} ::
         Continues(s, init, u, a) && path(init, u) ==> path(init + [a], Step(u, a))
  }

  lemma InductionStep(s: State, init: seq<Action>, u: State, a: Action, path: (seq<Action>, State) -> bool)
    requires KeptFrom(s, path) && path(init, u) && Continues(s, init, u, a)
    ensures path(init + [a], Step(u, a))
  {
  }

  lemma {:induction false} RunInduction(s: State, more: seq<Action>, t: State, path: (seq<Action>, State) -> bool)
    requires Exec(s, more) == Some(t) && KeptFrom(s, path)
    ensures path(more, t)
  {
    if more != [] {
      var init, u, a := ExecLast(s, more, t);
      RunInduction(s, init, u, path);
      InductionStep(s, init, u, a, path);
    }
  }

  /**
   Events. Whenever the mutex is free the client has enqueued nothing, or OPEN MESSAGE*, or a complete sequence; the
   connection is up exactly in the second case, and a worker that has exited has completed the sequence. What poll
   took out followed by what is still queued is what was enqueued, until destroy discards the queue.
   */
  lemma EventTheorem(inbound: seq<byte>, acts: seq<Action>, s: State)
    requires Reached(inbound, acts, s)
    ensures s.mail.enqueued == [] || OpenRun(s.mail.enqueued) || CompleteRun(s.mail.enqueued)
    ensures s.ws.connected <==> OpenRun(s.mail.enqueued)
    ensures s.worker.pc.Exited? ==> CompleteRun(s.mail.enqueued)
    ensures !s.mail.discarded ==> s.mail.taken + s.mail.queue == s.mail.enqueued
    ensures s.mail.taken <= s.mail.enqueued
  {
    SafeReached(inbound, acts, s);
    EventGrammar(s.mail.enqueued, FlagPhase(s.ws));
    EventGrammar(s.mail.enqueued, Running);
  }

  /** The wire. Unless a send failed midway, decoding it yields the frames sent, in mutex order, and nothing else. */
  lemma WireTheorem(inbound: seq<byte>, acts: seq<Action>, s: State)
    requires Reached(inbound, acts, s) && !s.out.failed
    ensures ParseAll(s.out.bytes, SIZE_LIMIT) == (ReceivedAll(s.out.sent), [])
  {
    SafeReached(inbound, acts, s);
    ParseAllEncodeAll(s.out.sent);
  }

  /**
   Pongs. The worker dispatches the frames of the incoming stream in order, and the PONG frames on the decoded wire
   carry exactly the payloads of the PING frames dispatched so far, whatever the clients send in between.
   */
  lemma PongTheorem(inbound: seq<byte>, acts: seq<Action>, s: State)
    requires Reached(inbound, acts, s) && !s.out.failed
    ensures s.worker.got <= ParseAll(inbound, RECEIVE_CAP).0
    ensures Payloads(ParseAll(s.out.bytes, SIZE_LIMIT).0, OP_PONG) == Payloads(s.worker.got, OP_PING)
  {
    SafeReached(inbound, acts, s);
    WireTheorem(inbound, acts, s);
  }

  /** Messages. The MESSAGE events are the reassembled messages of a prefix of the incoming frames. */
  lemma MessageTheorem(inbound: seq<byte>, acts: seq<Action>, s: State)
    requires Reached(inbound, acts, s)
    ensures s.worker.got <= ParseAll(inbound, RECEIVE_CAP).0
    ensures Messages(s.mail.enqueued) == ProducedAll(INITIAL_FRAG, s.worker.got)
  {
    SafeReached(inbound, acts, s);
  }

  /**
   End to end. When the peer sends well-formed frames within the cap, final or not, masked or not, the worker dispatches
   those frames in order, and the MESSAGE events are the messages in the frames dispatched so far.
   */
  lemma StreamTheorem(ws: seq<Wire>, acts: seq<Action>, s: State)
    requires forall i :: 0 <= i < |ws| ==> ws[i].Valid() && |ws[i].frame.payload| <= RECEIVE_CAP
    requires Reached(StreamOf(ws), acts, s)
    ensures s.worker.got <= FramesOf(ws)
    ensures Messages(s.mail.enqueued) == ProducedAll(INITIAL_FRAG, FramesOf(ws)[..|s.worker.got|])
  {
    ParseStream(ws, RECEIVE_CAP);
    MessageTheorem(StreamOf(ws), acts, s);
    assert FramesOf(ws)[..|s.worker.got|] == s.worker.got;
  }

  /**
   Messages, end to end. When the peer's frames are the messages of `groups` one after the other, each cut into any
   fragments with any control or unknown frames in between, the MESSAGE events are the first of exactly those messages,
   in order, and all of them once all frames have been dispatched.
   */
  lemma TranscriptTheorem(ws: seq<Wire>, groups: seq<seq<Frame>>, acts: seq<Action>, s: State)
    requires forall i :: 0 <= i < |ws| ==> ws[i].Valid() && |ws[i].frame.payload| <= RECEIVE_CAP
    requires FramesOf(ws) == Flatten(groups) && AllMessages(groups)
    requires Reached(StreamOf(ws), acts, s)
    ensures Messages(s.mail.enqueued) <= AllEvents(groups)
    ensures |s.worker.got| == |ws| ==> Messages(s.mail.enqueued) == AllEvents(groups)
  {
    StreamTheorem(ws, acts, s);
    MessagesInOrder(INITIAL_FRAG, groups);
    ProducedPrefix(INITIAL_FRAG, FramesOf(ws), |s.worker.got|);
    assert FramesOf(ws)[..|FramesOf(ws)|] == FramesOf(ws);
  }

  // ---------- what the clients asked for -----------------------------------

  /** The characters before the first NUL, at most `room` of them. */
  function TextWithin(s: seq<byte>, room: nat): (r: seq<byte>)
    decreases room
  {
    if room == 0 || s == [] || s[0] == 0 then [] else [s[0]] + TextWithin(s[1..], room - 1)
  }

  lemma {:induction false} TextIsSnprintf(s: seq<byte>, room: nat)
    ensures TextWithin(s, room) == Snprintf(s, room + 1)
    decreases room
  {
    if room > 0 && s != [] && s[0] != 0 {
      TextIsSnprintf(s[1..], room - 1);
      TextNext(s[0], UpToNul(s[1..]), room);
    }
  }

  lemma TextNext(b: byte, c: seq<byte>, room: nat)
    requires room > 0
    ensures ([b] + c)[..Min(|[b] + c|, room)] == [b] + c[..Min(|c|, room - 1)]
  {
  }

  datatype Request = Request(code: int, reason: seq<byte>)

  /** The code and text of the last websocket_close in a run, or those that websocket_create sets. */
  function LastRequest(acts: seq<Action>): Request {
    if acts == [] then Request(1000, Ascii("client closing")) else
    match acts[|acts| - 1]
    case RequestClose(code, reason, _) => Request(if code > 0 then code else 1000, TextWithin(reason, 127))
    case _ => LastRequest(acts[..|acts| - 1])
  }

  ghost predicate CloseAsked(acts: seq<Action>) {
    exists i :: 0 <= i < |acts| && acts[i].RequestClose?
  }

  ghost predicate DestroyAsked(acts: seq<Action>) {
    exists i :: 0 <= i < |acts| && acts[i].RequestDestroy?
  }

  lemma AskedLast(acts: seq<Action>)
    requires acts != []
    ensures var init, a := acts[..|acts| - 1], acts[|acts| - 1];
      && (CloseAsked(acts) <==> CloseAsked(init) || a.RequestClose?)
      && (DestroyAsked(acts) <==> DestroyAsked(init) || a.RequestDestroy?)
  {
    var init, a := acts[..|acts| - 1], acts[|acts| - 1];
    assert forall i :: 0 <= i < |init| ==> init[i] == acts[i];
    assert forall i :: 0 <= i < |acts| ==> acts[i] == if i < |init| then init[i] else a;
  }

  lemma RequestStep(s: State, a: Action)
    requires Control(s) && Enabled(s, a)
    ensures var t := Step(s, a).ws;
      && (t.destroyRequested <==> s.ws.destroyRequested || a.RequestDestroy?)
      && (t.closeRequested <==> s.ws.closeRequested || a.RequestClose?)
      && Request(t.code, t.reason) ==
           if a.RequestClose?
           then Request(if a.newCode > 0 then a.newCode else 1000, TextWithin(a.newReason, 127))
           else Request(s.ws.code, s.ws.reason)
  {
    if a.RequestClose? {
      TextIsSnprintf(a.newReason, 127);
    } else if IsWorker(a) {
      RequestsOfWorker(s, a);
    }
  }

  /** The flags, the code and the text that the structure holds are those that the calls of the run have asked for. */
  lemma {:induction false} RequestTheorem(inbound: seq<byte>, acts: seq<Action>, s: State)
    requires Reached(inbound, acts, s)
    ensures Request(s.ws.code, s.ws.reason) == LastRequest(acts)
    ensures (s.ws.closeRequested <==> CloseAsked(acts)) && (s.ws.destroyRequested <==> DestroyAsked(acts))
  {
    if acts != [] {
      var init := acts[..|acts| - 1];
      var u := Exec(Init(inbound), init).value;
      RequestTheorem(inbound, init, u);
      SafeReached(inbound, init, u);
      RequestStep(u, acts[|acts| - 1]);
      AskedLast(acts);
    }
  }

  /**
   Closing. While the connection is up and some call has asked for a close, even before it came up, the last Close frame
   on the decoded wire carries the code and text of the last such call.
   */
  lemma CloseTheorem(inbound: seq<byte>, acts: seq<Action>, s: State)
    requires Reached(inbound, acts, s) && !s.out.failed && s.ws.connected && CloseAsked(acts)
    ensures var asked := LastRequest(acts);
      LastClose(ParseAll(s.out.bytes, SIZE_LIMIT).0) == Some(ClosePayload(asked.code, asked.reason))
  {
    SafeReached(inbound, acts, s);
    RequestTheorem(inbound, acts, s);
    WireTheorem(inbound, acts, s);
  }

  /** A step that hands over a frame puts it on the decoded wire exactly when a connection is up and takes all of it. */
  lemma FrameOnWire(s: State, a: Action)
    requires Control(s) && Faithful(s.out) && !s.out.failed && Enabled(s, a) && !IsWorker(a) && FrameOf(s, a).Sends?
    ensures var t, f := Step(s, a), FrameOf(s, a);
      s.ws.connected && |Encode(f.opcode, f.payload, f.io.key)| <= f.io.accepted <==>
        && !t.out.failed
        && ParseAll(t.out.bytes, SIZE_LIMIT).0 ==
             ParseAll(s.out.bytes, SIZE_LIMIT).0 + [Frame(true, f.opcode, f.payload)]
  {
    var t, f := Step(s, a), FrameOf(s, a);
    ParseAllEncodeAll(s.out.sent);
    OutOfStep(s, a);
    FaithfulStep(s, a);
    if s.ws.connected {
      LogOfTransmit(s.out, f.opcode, f.payload, f.io);
      if !t.out.failed { ParseAllEncodeAll(t.out.sent); }
    }
  }

  /** Once sent, a frame stands last on the decoded wire; and ws_send_frame_locked returns 0 exactly then. */
  ghost predicate Stands(s: State, t: State, opcode: byte, payload: seq<byte>) {
    && !t.out.failed
    && ParseAll(t.out.bytes, SIZE_LIMIT).0 == ParseAll(s.out.bytes, SIZE_LIMIT).0 + [Frame(true, opcode, payload)]
  }

  lemma SendResult(s: State, op: byte, data: seq<byte>, io: Io)
    requires Control(s) && Faithful(s.out) && !s.out.failed && Enabled(s, SendData(op, data, io))
    ensures (op == OP_TEXT || data != []) && SendOk(s, op, data, io) <==>
      Stands(s, Step(s, SendData(op, data, io)), op, data)
  {
    if op == OP_TEXT || data != [] { FrameOnWire(s, SendData(op, data, io)); }
  }

  /**
   A requested close does not stop data. A send puts its frame on the decoded wire if and only if it is not an empty
   binary one, the connection is up and the socket takes all of it; a close that was requested makes no difference,
   although its frame is then already on the wire.
   */
  lemma DataAfterClose(inbound: seq<byte>, acts: seq<Action>, s: State, op: byte, data: seq<byte>, io: Io)
    requires Reached(inbound, acts, s) && !s.out.failed && Enabled(s, SendData(op, data, io))
    ensures var t := Step(s, SendData(op, data, io));
      var before := ParseAll(s.out.bytes, SIZE_LIMIT).0;
      && (s.ws.connected && CloseAsked(acts) ==> LastClose(before).Some?)
      && ((op == OP_TEXT || data != []) && s.ws.connected && |Encode(op, data, io.key)| <= io.accepted <==>
            !t.out.failed && ParseAll(t.out.bytes, SIZE_LIMIT).0 == before + [Frame(true, op, data)])
  {
    var a := SendData(op, data, io);
    SafeReached(inbound, acts, s);
    if s.ws.connected && CloseAsked(acts) { CloseTheorem(inbound, acts, s); }
    if op == OP_TEXT || data != [] { FrameOnWire(s, a); }
  }

  /** Nor does it stop another Close frame, which goes out under the same conditions, with the new code and reason. */
  lemma CloseAfterClose(inbound: seq<byte>, acts: seq<Action>, s: State, code: int, reason: seq<byte>, io: Io)
    requires Reached(inbound, acts, s) && !s.out.failed && Enabled(s, RequestClose(code, reason, io))
    ensures var t := Step(s, RequestClose(code, reason, io));
      var p := ClosePayload(if code > 0 then code else 1000, TextWithin(reason, 127));
      var before := ParseAll(s.out.bytes, SIZE_LIMIT).0;
      && (s.ws.connected && CloseAsked(acts) ==> LastClose(before).Some?)
      && (s.ws.connected && |Encode(OP_CLOSE, p, io.key)| <= io.accepted <==>
            !t.out.failed && ParseAll(t.out.bytes, SIZE_LIMIT).0 == before + [Frame(true, OP_CLOSE, p)])
  {
    SafeReached(inbound, acts, s);
    if s.ws.connected && CloseAsked(acts) { CloseTheorem(inbound, acts, s); }
    TextIsSnprintf(reason, 127);
    FrameOnWire(s, RequestClose(code, reason, io));
  }

  /** A connection that is up and on which nothing has failed, and what its peer can read. */
  ghost predicate Shown(inbound: seq<byte>, acts: seq<Action>, s: State, fs: seq<Frame>) {
    && Reached(inbound, acts, s) && s.ws.connected && !s.out.failed && !s.freed
    && ParseAll(s.out.bytes, SIZE_LIMIT).0 == fs
  }

  lemma ComesUp(inbound: seq<byte>, io: Io) returns (acts: seq<Action>, s: State)
    requires |io.key| == 4
    ensures Shown(inbound, acts, s, [])
  {
    acts, s := [] + [Opened(io)], Step(Init(inbound), Opened(io));
    ExecSnoc(Init(inbound), [], Opened(io));
  }

  /** A client hands a frame to a socket that takes it, and the connection stays up. */
  lemma GoesOut(inbound: seq<byte>, acts: seq<Action>, s: State, fs: seq<Frame>, a: Action) returns (t: State)
    requires Shown(inbound, acts, s, fs) && (a.SendData? || a.RequestClose?) && Enabled(s, a) && FrameOf(s, a).Sends?
    requires var f := FrameOf(s, a); |Encode(f.opcode, f.payload, f.io.key)| <= f.io.accepted
    ensures var f := FrameOf(s, a); Shown(inbound, acts + [a], t, fs + [Frame(true, f.opcode, f.payload)])
  {
    t := Step(s, a);
    SafeReached(inbound, acts, s);
    FrameOnWire(s, a);
    ExecSnoc(Init(inbound), acts, a);
  }

  lemma CloseGoesOut(inbound: seq<byte>, acts: seq<Action>, s: State, fs: seq<Frame>, io: Io) returns (t: State)
    requires Shown(inbound, acts, s, fs) && |io.key| == 4
    requires |Encode(OP_CLOSE, ClosePayload(DEFAULT_CLOSE_CODE, []), io.key)| <= io.accepted
    ensures Shown(inbound, acts + [RequestClose(DEFAULT_CLOSE_CODE, [], io)], t,
                  fs + [Frame(true, OP_CLOSE, ClosePayload(DEFAULT_CLOSE_CODE, []))])
  {
    t := GoesOut(inbound, acts, s, fs, RequestClose(DEFAULT_CLOSE_CODE, [], io));
  }

  lemma TextGoesOut(inbound: seq<byte>, acts: seq<Action>, s: State, fs: seq<Frame>, io: Io) returns (t: State)
    requires Shown(inbound, acts, s, fs) && |io.key| == 4 && |Encode(OP_TEXT, [], io.key)| <= io.accepted
    ensures Shown(inbound, acts + [SendData(OP_TEXT, [], io)], t, fs + [Frame(true, OP_TEXT, [])])
  {
    t := GoesOut(inbound, acts, s, fs, SendData(OP_TEXT, [], io));
  }

  /** A run that shows both: after a Close frame come a data frame and another Close frame. */
  lemma FramesAfterClose(inbound: seq<byte>, key: seq<byte>) returns (acts: seq<Action>, s: State)
    requires |key| == 4
    ensures Reached(inbound, acts, s) && !s.out.failed
    ensures var p := ClosePayload(DEFAULT_CLOSE_CODE, []);
      ParseAll(s.out.bytes, SIZE_LIMIT).0 ==
        [Frame(true, OP_CLOSE, p)] + [Frame(true, OP_TEXT, [])] + [Frame(true, OP_CLOSE, p)]
  {
    var p := ClosePayload(DEFAULT_CLOSE_CODE, []);
    var io := Io(key, |Encode(OP_CLOSE, p, key)| + |Encode(OP_TEXT, [], key)|);
    var close, text := RequestClose(DEFAULT_CLOSE_CODE, [], io), SendData(OP_TEXT, [], io);
    acts, s := ComesUp(inbound, io);
    s := CloseGoesOut(inbound, acts, s, [], io);
    s := TextGoesOut(inbound, acts + [close], s, [Frame(true, OP_CLOSE, p)], io);
    s := CloseGoesOut(inbound, acts + [close] + [text], s, [Frame(true, OP_CLOSE, p)] + [Frame(true, OP_TEXT, [])], io);
    acts := acts + [close] + [text] + [close];
  }

  lemma SilentStep(s: State, a: Action)
    requires Control(s) && s.ws.closeEmitted && Enabled(s, a)
    ensures Step(s, a).out == s.out && Step(s, a).ws.closeEmitted
    ensures Step(s, a).mail.enqueued == s.mail.enqueued
  {
    OutOfStep(s, a);
  }

  // ---------- what a Close frame leads to ----------------------------------

  /** The event a Close frame leads to: the peer's code and reason, else the ones requested, else the defaults. */
  function CloseVerdict(ws: Flags, payload: seq<byte>): (e: Event)
    ensures e.Close?
  {
    if |payload| >= 2 then Close(256 * payload[0] as int + payload[1] as int, TextWithin(payload[2..], 127))
    else if ws.closeRequested then Close(ws.code, ws.reason)
    else Close(1000, [])
  }

  lemma {:induction false} TextOfStart(s: seq<byte>, room: nat)
    ensures TextWithin(s[..Min(|s|, room)], room) == TextWithin(s, room)
    decreases room
  {
    if room > 0 && s != [] && s[0] != 0 {
      assert s[..Min(|s|, room)][1..] == s[1..][..Min(|s[1..]|, room - 1)];
      TextOfStart(s[1..], room - 1);
    }
  }

  lemma PeerVerdict(payload: seq<byte>)
    requires |payload| >= 2
    ensures CloseCode(payload) == 256 * payload[0] as int + payload[1] as int
    ensures Snprintf(CloseReason(payload), 128) == TextWithin(payload[2..], 127)
  {
    ValueSnoc([], payload[0]);
    ValueSnoc([payload[0]], payload[1]);
    assert [] + [payload[0]] == [payload[0]] && [payload[0]] + [payload[1]] == payload[..2];
    TextOfStart(payload[2..], 127);
    assert payload[2..][..Min(|payload[2..]|, 127)] == CloseReason(payload);
    TextIsSnprintf(CloseReason(payload), 127);
  }

  lemma ClientMail(s: State, a: Action)
    requires !IsWorker(a) && Enabled(s, a)
    ensures Step(s, a).mail.enqueued == s.mail.enqueued && Step(s, a).ws.closeEmitted == s.ws.closeEmitted
  {
  }

  lemma DispatchClose(s: State, io: Io)
    requires s.worker.pc.Dispatching? && s.worker.pc.frame.opcode == OP_CLOSE && |io.key| == 4
    ensures var t, e := StepDispatch(s, io), CloseVerdict(s.ws, s.worker.pc.frame.payload);
      t.worker.pc == ClosingBy(e.code, e.reason) && t.mail.enqueued == s.mail.enqueued
  {
    MailOfDispatch(s, io);
    assert s.mail.enqueued + [] == s.mail.enqueued;
    if |s.worker.pc.frame.payload| >= 2 { PeerVerdict(s.worker.pc.frame.payload); }
  }

  /** The Close frame in hand has been dispatched by step k of the run, and e is the event decided on there. */
  ghost predicate DispatchedAt(s: State, more: seq<Action>, k: nat, e: Event) {
    && k < |more| && more[k].Dispatch? && Exec(s, more[..k]).Some?
    && var r := Exec(s, more[..k]).value;
    && r.worker.pc == s.worker.pc && s.worker.pc.Dispatching?
    && e == CloseVerdict(r.ws, s.worker.pc.frame.payload)
  }

  /** After the dispatch: e is about to be enqueued, or has been as the one more event. */
  ghost predicate Closing(s: State, t: State, e: Event) {
    if InLoop(t.worker.pc)
    then e.Close? && t.worker.pc == ClosingBy(e.code, e.reason) && t.mail.enqueued == s.mail.enqueued
    else t.ws.closeEmitted && t.mail.enqueued == s.mail.enqueued + [e]
  }

  lemma ClosingStep(s: State, u: State, a: Action, e: Event)
    requires Control(u) && Enabled(u, a) && Closing(s, u, e) && u.worker.pc != s.worker.pc && InLoop(s.worker.pc)
    requires !s.worker.pc.LoopTop?
    ensures Closing(s, Step(u, a), e) && Step(u, a).worker.pc != s.worker.pc
  {
    ControlStep(u, a);
    if u.ws.closeEmitted {
      SilentStep(u, a);
    } else if !IsWorker(a) {
      ClientStep(u, a);
      ClientMail(u, a);
    }
  }

  lemma HeldStep(s: State, u: State, a: Action)
    requires s.worker.pc.Dispatching? && s.worker.pc.frame.opcode == OP_CLOSE && Enabled(u, a)
    requires u.worker.pc == s.worker.pc && u.mail.enqueued == s.mail.enqueued
    ensures var t := Step(u, a);
      if IsWorker(a)
      then a.Dispatch? && t.worker.pc != s.worker.pc && Closing(s, t, CloseVerdict(u.ws, s.worker.pc.frame.payload))
      else t.worker.pc == s.worker.pc && t.mail.enqueued == s.mail.enqueued
  {
    if IsWorker(a) {
      DispatchClose(u, a.io);
    } else {
      ClientStep(u, a);
      ClientMail(u, a);
    }
  }

  /** What a run from the Close frame in hand at s has done by the time it is at t. */
  ghost predicate ClosePath(s: State, more: seq<Action>, t: State, k: nat, e: Event) {
    if t.worker.pc == s.worker.pc then t.mail.enqueued == s.mail.enqueued
    else DispatchedAt(s, more, k, e) && Closing(s, t, e)
  }

  lemma ClosePathStep(s: State, init: seq<Action>, u: State, a: Action, k: nat, e: Event) returns (k': nat, e': Event)
    requires s.worker.pc.Dispatching? && s.worker.pc.frame.opcode == OP_CLOSE
    requires Exec(s, init) == Some(u) && Control(u) && Enabled(u, a) && ClosePath(s, init, u, k, e)
    ensures ClosePath(s, init + [a], Step(u, a), k', e')
  {
    assert (init + [a])[..|init|] == init;
    k', e' := k, e;
    if u.worker.pc != s.worker.pc {
      assert (init + [a])[..k] == init[..k];
      ClosingStep(s, u, a, e);
    } else {
      HeldStep(s, u, a);
      if IsWorker(a) { k', e' := |init|, CloseVerdict(u.ws, s.worker.pc.frame.payload); }
    }
  }

  /**
   From a Close frame in hand to the end of the loop, whatever other threads do. Nothing is enqueued until the frame has
   been dispatched and the worker has the mutex again; then comes one CLOSE, with the peer's code and reason if the
   frame has them, else those requested when it was dispatched, else 1000 and no text; and nothing comes after it.
   */
  lemma CloseFrameTheorem(inbound: seq<byte>, acts: seq<Action>, s: State, more: seq<Action>, t: State)
    returns (k: nat, e: Event)
    requires Reached(inbound, acts, s) && Exec(s, more) == Some(t)
    requires s.worker.pc.Dispatching? && s.worker.pc.frame.opcode == OP_CLOSE
    ensures if t.worker.pc == s.worker.pc then t.mail.enqueued == s.mail.enqueued
            else DispatchedAt(s, more, k, e) && Closing(s, t, e)
  {
    var path := (run: seq<Action>, u: State) => exists k: nat, e: Event :: ClosePath(s, run, u, k, e);
    assert ClosePath(s, [], s, 0, Open);
    forall init: seq<Action>, u: State, a: Action
      | Continues(s, init, u, a) && path(init, u)
      ensures path(init + [a], Step(u, a))
    {
      var k: nat, e: Event :| ClosePath(s, init, u, k, e);
      SafeOn(inbound, acts, s, init, u);
      k, e := ClosePathStep(s, init, u, a, k, e);
    }
    RunInduction(s, more, t, path);
    k, e :| ClosePath(s, more, t, k, e);
  }

  lemma OwnVerdict(code: int, reason: seq<byte>)
    requires 0 < code < 0x1_0000 && 0 !in reason
    ensures forall ws :: CloseVerdict(ws, ClosePayload(code, reason)) == Close(code, reason[..Min(|reason|, 123)])
  {
    var p := ClosePayload(code, reason);
    CloseCodeTrip(code, reason);
    CloseReasonTrip(code, reason);
    PeerVerdict(p);
  }

  /**
   Close, end to end. A peer's Close frame, built as this client builds its own from a 16-bit code and a NUL-free
   reason, heads the stream that the worker reads next. Whatever other threads do, when the worker has left the loop the
   events are those enqueued before and a CLOSE with that code and the reason cut to 123 octets.
   */
  lemma PeerCloseTheorem(inbound: seq<byte>, acts: seq<Action>, s: State, code: int, reason: seq<byte>, key: seq<byte>,
                         rest: seq<byte>, more: seq<Action>, t: State)
    requires Reached(inbound, acts, s) && s.worker.pc.Waiting? && |key| == 4
    requires 0 < code < 0x1_0000 && 0 !in reason
    requires s.sock.inbound == Encode(OP_CLOSE, ClosePayload(code, reason), key) + rest
    requires Exec(Step(s, Receive), more) == Some(t) && !InLoop(t.worker.pc)
    ensures t.mail.enqueued == s.mail.enqueued + [Close(code, reason[..Min(|reason|, 123)])]
  {
    var p := ClosePayload(code, reason);
    var u := Step(s, Receive);
    CloseFrameTrip(code, reason, key);
    assert Delimits(Encode(OP_CLOSE, p, key), Frame(true, OP_CLOSE, p), RECEIVE_CAP);
    assert u.worker.pc == Dispatching(Frame(true, OP_CLOSE, p));
    OwnVerdict(code, reason);
    ExecSnoc(Init(inbound), acts, Receive);
    var k, e := CloseFrameTheorem(inbound, acts + [Receive], u, more, t);
  }

  // ---------- what a failure leads to --------------------------------------

  /** The events that report a failure at pc: only CLOSE when the stream ended between two frames. */
  function Verdict(ws: Flags, pc: Pc): seq<Event>
    requires FailureKnown(pc)
  {
    if pc.SelectFailed? then [Error, Close(1006, Ascii("select failed"))]
    else if pc.ReceiveFailed? then [Error, Close(1006, Ascii("receive failed"))]
    else if ws.closeRequested then [Close(ws.code, ws.reason)]
    else [Close(1006, Ascii("connection closed"))]
  }

  lemma ReportVerdict(t: State)
    requires Control(t) && FailureKnown(t.worker.pc)
    ensures StepReport(t).ws.closeEmitted
    ensures StepReport(t).mail.enqueued == t.mail.enqueued + Verdict(t.ws, t.worker.pc)
  {
  }

  /** The failure at which s stands is reported by step k of the run, from a state r that is still there. */
  ghost predicate ReportedAt(s: State, more: seq<Action>, k: nat, r: State) {
    k < |more| && more[k].Report? && Exec(s, more[..k]) == Some(r) && r.worker.pc == s.worker.pc
  }

  /** The failure at which s stands has been told, as it was to be told in r. */
  ghost predicate FailureTold(s: State, t: State, r: State) {
    && FailureKnown(s.worker.pc) && !InLoop(t.worker.pc) && t.ws.closeEmitted
    && t.mail.enqueued == s.mail.enqueued + Verdict(r.ws, s.worker.pc)
  }

  lemma FailureToldStep(s: State, u: State, a: Action, r: State)
    requires Control(u) && Enabled(u, a) && FailureTold(s, u, r)
    ensures FailureTold(s, Step(u, a), r)
  {
    ControlStep(u, a);
    SilentStep(u, a);
  }

  lemma FailureStep(s: State, u: State, a: Action)
    requires Control(u) && FailureKnown(s.worker.pc) && Enabled(u, a)
    requires u.worker.pc == s.worker.pc && u.mail.enqueued == s.mail.enqueued
    ensures var t := Step(u, a);
      if IsWorker(a) then a.Report? && FailureTold(s, t, u)
      else t.worker.pc == s.worker.pc && t.mail.enqueued == s.mail.enqueued
  {
    if IsWorker(a) {
      ReportVerdict(u);
    } else {
      ClientStep(u, a);
      ClientMail(u, a);
    }
  }

  /** What a run from the failure at s has done by the time it is at t. */
  ghost predicate FailurePath(s: State, more: seq<Action>, t: State, k: nat, r: State) {
    if t.worker.pc == s.worker.pc then t.mail.enqueued == s.mail.enqueued
    else ReportedAt(s, more, k, r) && FailureTold(s, t, r)
  }

  lemma FailurePathStep(s: State, init: seq<Action>, u: State, a: Action, k: nat, r: State) returns (k': nat, r': State)
    requires FailureKnown(s.worker.pc) && Exec(s, init) == Some(u) && Control(u) && Enabled(u, a)
    requires FailurePath(s, init, u, k, r)
    ensures FailurePath(s, init + [a], Step(u, a), k', r')
  {
    assert (init + [a])[..|init|] == init;
    k', r' := k, r;
    if u.worker.pc != s.worker.pc {
      assert (init + [a])[..k] == init[..k];
      FailureToldStep(s, u, a, r);
    } else {
      FailureStep(s, u, a);
      if IsWorker(a) { k', r' := |init|, u; }
    }
  }

  /**
   Failures, end to end, whatever other threads do. A failed select or reception is told as ERROR and CLOSE 1006. A
   stream that ends between two frames is told as CLOSE alone: with the code and reason of the close that has been
   requested by the time the worker has the mutex, if one has, even after the reception failed, and else 1006. No other
   event comes in between or after.
   */
  lemma FailureTheorem(inbound: seq<byte>, acts: seq<Action>, s: State, more: seq<Action>, t: State)
    returns (k: nat, r: State)
    requires Reached(inbound, acts, s) && FailureKnown(s.worker.pc) && Exec(s, more) == Some(t)
    ensures if t.worker.pc == s.worker.pc then t.mail.enqueued == s.mail.enqueued
            else ReportedAt(s, more, k, r) && FailureTold(s, t, r)
  {
    var path := (run: seq<Action>, u: State) => exists k: nat, r: State :: FailurePath(s, run, u, k, r);
    assert FailurePath(s, [], s, 0, s);
    forall init: seq<Action>, u: State, a: Action
      | Continues(s, init, u, a) && path(init, u)
      ensures path(init + [a], Step(u, a))
    {
      var k: nat, r: State :| FailurePath(s, init, u, k, r);
      SafeOn(inbound, acts, s, init, u);
      k, r := FailurePathStep(s, init, u, a, k, r);
    }
    RunInduction(s, more, t, path);
    k, r :| FailurePath(s, more, t, k, r);
  }

  /** Silence. Once CLOSE is enqueued, no run adds a byte to the wire or an event to the log. */
  lemma {:induction false} SilenceTheorem(inbound: seq<byte>, acts: seq<Action>, s: State, more: seq<Action>, t: State)
    requires Reached(inbound, acts, s) && s.ws.closeEmitted && Exec(s, more) == Some(t)
    ensures t.out == s.out && t.mail.enqueued == s.mail.enqueued && t.ws.closeEmitted
  {
    if more != [] {
      var init := more[..|more| - 1];
      var u := Exec(s, init).value;
      SilenceTheorem(inbound, acts, s, init, u);
      SafeOn(inbound, acts, s, init, u);
      SilentStep(u, more[|more| - 1]);
    }
  }

  /**
   No lost shutdown. When destroy has been requested and the worker may block in select or recv, the socket is already
   shut down; an open sockfd names a live descriptor; and the storage is freed only after the worker's last step.
   */
  lemma ShutdownTheorem(inbound: seq<byte>, acts: seq<Action>, s: State)
    requires Reached(inbound, acts, s)
    ensures s.worker.pc.Waiting? && s.ws.destroyRequested ==> s.sock.shut
    ensures s.ws.sockOpen ==> s.sock.fd == Live
    ensures s.freed ==> forall a :: IsWorker(a) ==> !Enabled(s, a)
  {
    SafeReached(inbound, acts, s);
  }

  /** After a destroy request the worker takes at most Rank more steps, five at worst, whatever the clients do. */
  lemma {:induction false} ExitTheorem(inbound: seq<byte>, acts: seq<Action>, s: State, more: seq<Action>, t: State)
    requires Reached(inbound, acts, s) && s.ws.destroyRequested && Exec(s, more) == Some(t)
    ensures t.ws.destroyRequested
    ensures WorkerSteps(more) + Rank(t.worker.pc) <= Rank(s.worker.pc) <= 5
  {
    if more != [] {
      var init := more[..|more| - 1];
      var u := Exec(s, init).value;
      ExitTheorem(inbound, acts, s, init, u);
      SafeOn(inbound, acts, s, init, u);
      var a := more[|more| - 1];
      DestroyStays(u, a);
      if IsWorker(a) { RankWorker(u, a); } else { ClientStep(u, a); }
    }
  }

  /** Where the worker may have to wait for the network: while it connects, and for data on a socket that is up. */
  predicate MayBlock(s: State) {
    s.worker.pc.Connecting? || (s.worker.pc.Waiting? && !s.sock.shut)
  }

  /** A step that the worker can take now, given that shutting a socket down unblocks select and recv. */
  predicate Ready(s: State, a: Action) {
    IsWorker(a) && Enabled(s, a) && !MayBlock(s)
  }

  /** The worker is held up only where the network may hold it up, and for good only at its exit. */
  lemma StuckMeans(s: State)
    ensures (forall a :: !Ready(s, a)) <==> s.worker.pc.Exited? || MayBlock(s)
  {
    var io := Io([0, 0, 0, 0], 0);
    var a := match s.worker.pc
      case Connecting => ConnectFailed([])
      case LoopTop => CheckDestroy
      case Waiting => Receive
      case Dispatching(_) => Dispatch(io)
      case ClosingBy(_, _) => ReportClose(io)
      case LoopLeft => Leave
      case SockClosing => Release
      case _ => Report;
    assert !s.worker.pc.Exited? && !MayBlock(s) ==> Ready(s, a);
  }

  /** Once destroy is requested, a worker past the connection attempt can always go on until it has exited. */
  lemma WorkerProgress(inbound: seq<byte>, acts: seq<Action>, s: State)
    requires Reached(inbound, acts, s) && s.ws.destroyRequested && !s.worker.pc.Connecting?
    ensures s.worker.pc.Exited? <==> forall a :: !Ready(s, a)
  {
    ShutdownTheorem(inbound, acts, s);
    StuckMeans(s);
  }
}
