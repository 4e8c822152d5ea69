/**
 The WebSocket client as a state machine. A worker thread and any number of client threads share one mutex; every
 critical section is one atomic step, and steps interleave freely. What the network does is chosen by the
 environment: how many bytes of a frame a send accepts, when select is interrupted or fails, and which bytes arrive.
 */
module Protocol {
  import opened Bytes
  import opened Frames
  import opened Events
  import opened Reassembly

  /** A frame as the receiver delivers it. */
  type Received = f: Frame | |f.payload| <= RECEIVE_CAP && f.opcode < 16 witness Frame(true, 0, [])

  /** Where the worker is, between two critical sections. */
  datatype Pc =
    | Connecting                                   // URL, DNS, connect, handshake; the socket is not yet published
    | LoopTop                                      // about to look at destroy_requested
    | Waiting                                      // in select, or receiving a frame
    | SelectFailed | HeaderFailed | ReceiveFailed  // about to report the failure
    | Dispatching(frame: Received)                 // a whole frame has arrived
    | ClosingBy(code: int, reason: seq<byte>)      // a Close frame has been read
    | LoopLeft | SockClosing | Exited

  datatype Descriptor = Private | Live | Closed

  /** The scalar fields of the shared structure. */
  datatype Flags = Flags(
    connected: bool, sockOpen: bool, closeRequested: bool, destroyRequested: bool,
    closeEmitted: bool, errorEmitted: bool, code: int, reason: seq<byte>)

  /** The event queue, with what was ever put in, what was taken out, and whether destroy has thrown it away. */
  datatype Mail = Mail(queue: seq<Event>, enqueued: seq<Event>, taken: seq<Event>, discarded: bool)

  /** The outgoing stream: its bytes, the frames that went out whole, and whether a send ever failed midway. */
  datatype Outgoing = Outgoing(bytes: seq<byte>, sent: seq<Sent>, failed: bool)

  /** The worker thread: its position, its reassembly state, and every frame it has dispatched. */
  datatype Worker = Worker(pc: Pc, frag: Frag, got: seq<Frame>)

  /** The kernel's view: the descriptor, whether it was shut down, and the bytes still to arrive on it. */
  datatype Socket = Socket(fd: Descriptor, shut: bool, inbound: seq<byte>)

  datatype State = State(ws: Flags, mail: Mail, out: Outgoing, worker: Worker, sock: Socket, freed: bool)

  const INITIAL_FRAG := Frag([], false)

  function Init(inbound: seq<byte>): State {
    State(Flags(false, false, false, false, false, false, DEFAULT_CLOSE_CODE, Ascii("client closing")),
          Mail([], [], [], false), Outgoing([], [], false), Worker(Connecting, INITIAL_FRAG, []),
          Socket(Private, false, inbound), false)
  }

  // ---------- the functions that run under the mutex -----------------------

  function Put(m: Mail, es: seq<Event>): Mail {
    m.(queue := m.queue + es, enqueued := m.enqueued + es)
  }

  function EnqueueError(s: State): State {
    if s.ws.errorEmitted then s else s.(ws := s.ws.(errorEmitted := true), mail := Put(s.mail, [Error]))
  }

  /** reason is the text as the event's 128-byte buffer holds it. */
  function EnqueueClose(s: State, code: int, reason: seq<byte>): State {
    if s.ws.closeEmitted then s
    else s.(ws := s.ws.(closeEmitted := true, connected := false),
            mail := Put(s.mail, [Close(code, reason)]))
  }

  /** The environment's part in sending a frame: the mask key, and how many bytes get out if not all do. */
  datatype Io = Io(key: seq<byte>, accepted: nat)

  predicate Sendable(opcode: byte, payload: seq<byte>, io: Io) {
    |payload| < SIZE_LIMIT && |io.key| == 4 && opcode < 16
  }

  function Transmit(o: Outgoing, opcode: byte, payload: seq<byte>, io: Io): Outgoing
    requires Sendable(opcode, payload, io)
  {
    var e := Encode(opcode, payload, io.key);
    if |e| <= io.accepted then Outgoing(o.bytes + e, o.sent + [Sent(opcode, payload, io.key)], o.failed)
    else Outgoing(o.bytes + e[..io.accepted], o.sent, true)
  }

  function SendFrame(s: State, opcode: byte, payload: seq<byte>, io: Io): State
    requires Sendable(opcode, payload, io)
  {
    if s.ws.sockOpen && s.ws.connected then s.(out := Transmit(s.out, opcode, payload, io)) else s
  }

  /** Whether ws_send_frame_locked returns 0. */
  predicate SendOk(s: State, opcode: byte, payload: seq<byte>, io: Io)
    requires Sendable(opcode, payload, io)
  {
    s.ws.sockOpen && s.ws.connected && |Encode(opcode, payload, io.key)| <= io.accepted
  }

  function SendClose(s: State, io: Io): State
    requires |io.key| == 4
  {
    SendFrame(s, OP_CLOSE, ClosePayload(s.ws.code, s.ws.reason), io)
  }

  // ---------- steps --------------------------------------------------------

  datatype Action =
    // worker
    | ConnectFailed(why: seq<byte>) | Opened(io: Io) | CheckDestroy
    | Interrupted | FailSelect | Receive | Report
    | Dispatch(io: Io) | ReportClose(io: Io) | Leave | Release
    // clients
    | SendData(opcode: byte, data: seq<byte>, io: Io)
    | RequestClose(newCode: int, newReason: seq<byte>, io: Io)
    | Poll | RequestDestroy | Discard | Free

  predicate IsWorker(a: Action) {
    a.ConnectFailed? || a.Opened? || a.CheckDestroy? || a.Interrupted? || a.FailSelect? || a.Receive? || a.Report?
    || a.Dispatch? || a.ReportClose? || a.Leave? || a.Release?
  }

  predicate WorkerEnabled(pc: Pc, a: Action)
    requires IsWorker(a)
  {
    match a
    case ConnectFailed(_) => pc.Connecting?
    case Opened(io) => pc.Connecting? && |io.key| == 4
    case CheckDestroy => pc.LoopTop?
    case Interrupted => pc.Waiting?
    case FailSelect => pc.Waiting?
    case Receive => pc.Waiting?
    case Report => pc.SelectFailed? || pc.HeaderFailed? || pc.ReceiveFailed?
    case Dispatch(io) => pc.Dispatching? && |io.key| == 4
    case ReportClose(io) => pc.ClosingBy? && |io.key| == 4
    case Leave => pc.LoopLeft?
    case Release => pc.SockClosing?
  }

  /** A client may call as long as the structure is not freed; destroy joins the worker before it discards and frees. */
  predicate ClientEnabled(s: State, a: Action)
    requires !IsWorker(a)
  {
    match a
    case SendData(op, data, io) => !s.freed && (op == OP_TEXT || op == OP_BINARY) && Sendable(op, data, io)
    case RequestClose(_, _, io) => !s.freed && |io.key| == 4
    case Poll => !s.freed
    case RequestDestroy => !s.freed
    case Discard => !s.freed && s.ws.destroyRequested && s.worker.pc.Exited?
    case Free => !s.freed && s.mail.discarded
  }

  predicate Enabled(s: State, a: Action) {
    if IsWorker(a) then WorkerEnabled(s.worker.pc, a) else ClientEnabled(s, a)
  }

  function Goto(s: State, pc: Pc): State {
    s.(worker := s.worker.(pc := pc))
  }

  function StepConnectFailed(s: State, why: seq<byte>): State {
    var s := s.(sock := s.sock.(fd := Closed));
    Goto(EnqueueClose(EnqueueError(s), 1006, why), Exited)
  }

  function StepOpened(s: State, io: Io): State
    requires |io.key| == 4
  {
    var s := s.(ws := s.ws.(sockOpen := true, connected := true), sock := s.sock.(fd := Live),
                mail := Put(s.mail, [Open]));
    Goto(if s.ws.closeRequested then SendClose(s, io) else s, LoopTop)
  }

  function StepReceive(s: State): State {
    match Parse(s.sock.inbound, RECEIVE_CAP)
    case NoHeader => Goto(s, HeaderFailed)
    case Broken => Goto(s, ReceiveFailed)
    case Whole(f, used) => Goto(s, Dispatching(f)).(sock := s.sock.(inbound := s.sock.inbound[used..]))
  }

  /** Code and reason of the CLOSE event that a failure in the loop leads to. */
  function FailureInfo(ws: Flags, pc: Pc): (int, seq<byte>) {
    if pc.HeaderFailed? && ws.closeRequested then (ws.code, ws.reason)
    else (1006, Ascii(if pc.HeaderFailed? then "connection closed"
                      else if pc.SelectFailed? then "select failed" else "receive failed"))
  }

  function StepReport(s: State): State {
    var info := FailureInfo(s.ws, s.worker.pc);
    Goto(EnqueueClose(if s.worker.pc.HeaderFailed? then s else EnqueueError(s), info.0, info.1), LoopLeft)
  }

  /** A failure other than the end of the stream between two frames, spelled out. */
  lemma ReportSpelled(s: State)
    requires s.worker.pc.SelectFailed? || s.worker.pc.ReceiveFailed?
    ensures var why := Ascii(if s.worker.pc.SelectFailed? then "select failed" else "receive failed");
      StepReport(s) == Goto(EnqueueClose(EnqueueError(s), 1006, why), LoopLeft)
  {
  }

  /** Code and reason for the CLOSE event: the peer's, else the ones requested, else the defaults. */
  function CloseInfo(ws: Flags, payload: seq<byte>): Pc {
    if |payload| >= 2 then ClosingBy(CloseCode(payload), Snprintf(CloseReason(payload), 128))
    else if ws.closeRequested then ClosingBy(ws.code, ws.reason)
    else ClosingBy(DEFAULT_CLOSE_CODE, [])
  }

  function StepDispatch(s: State, io: Io): State
    requires s.worker.pc.Dispatching? && |io.key| == 4
  {
    var f := s.worker.pc.frame;
    var s := s.(worker := Worker(LoopTop, After(s.worker.frag, f), s.worker.got + [f]),
                mail := Put(s.mail, Produced(s.worker.frag, f)));
    if f.opcode == OP_PING then SendFrame(s, OP_PONG, f.payload, io)
    else if f.opcode == OP_CLOSE then Goto(s, CloseInfo(s.ws, f.payload))
    else s
  }

  /** The Close frame is echoed with an empty payload, and the CLOSE event enqueued. */
  function StepReportClose(s: State, io: Io): State
    requires s.worker.pc.ClosingBy? && |io.key| == 4
  {
    Goto(EnqueueClose(SendFrame(s, OP_CLOSE, [], io), s.worker.pc.code, s.worker.pc.reason), LoopLeft)
  }

  function StepLeave(s: State): State {
    var s := EnqueueClose(s.(ws := s.ws.(connected := false)), 1006, Ascii("connection closed"));
    Goto(s.(ws := s.ws.(sockOpen := false)), SockClosing)
  }

  function StepRequestClose(s: State, code: int, reason: seq<byte>, io: Io): State
    requires |io.key| == 4
  {
    var s := s.(ws := s.ws.(closeRequested := true, code := if code > 0 then code else DEFAULT_CLOSE_CODE,
                            reason := Snprintf(reason, 128)));
    if s.ws.connected then SendClose(s, io) else s
  }

  function TakeFirst(m: Mail): Mail {
    if m.queue == [] then m else m.(queue := m.queue[1..], taken := m.taken + [m.queue[0]])
  }

  function Step(s: State, a: Action): State
    requires Enabled(s, a)
  {
    match a
    case ConnectFailed(why) => StepConnectFailed(s, why)
    case Opened(io) => StepOpened(s, io)
    case CheckDestroy => Goto(s, if s.ws.destroyRequested then LoopLeft else Waiting)
    case Interrupted => Goto(s, LoopTop)
    case FailSelect => Goto(s, SelectFailed)
    case Receive => StepReceive(s)
    case Report => StepReport(s)
    case Dispatch(io) => StepDispatch(s, io)
    case ReportClose(io) => StepReportClose(s, io)
    case Leave => StepLeave(s)
    case Release => Goto(s, Exited).(sock := s.sock.(fd := Closed))
    case SendData(op, data, io) => if op == OP_BINARY && data == [] then s else SendFrame(s, op, data, io)
    case RequestClose(code, reason, io) => StepRequestClose(s, code, reason, io)
    case Poll => s.(mail := TakeFirst(s.mail))
    case RequestDestroy =>
      s.(ws := s.ws.(destroyRequested := true), sock := s.sock.(shut := s.sock.shut || s.ws.sockOpen))
    case Discard => s.(mail := s.mail.(queue := [], discarded := true))
    case Free => s.(freed := true)
  }

  // ---------- runs ---------------------------------------------------------

  /** The state after a run, None when some step of it could not be taken. */
  function Exec(s: State, acts: seq<Action>): Option<State> {
    if acts == [] then Some(s) else
    match Exec(s, acts[..|acts| - 1])
    case None => None
    case Some(t) => var a := acts[|acts| - 1]; if Enabled(t, a) then Some(Step(t, a)) else None
  }

  lemma ExecLast(s: State, acts: seq<Action>, t: State) returns (init: seq<Action>, u: State, a: Action)
    requires acts != [] && Exec(s, acts) == Some(t)
    ensures acts == init + [a] && Exec(s, init) == Some(u) && Enabled(u, a) && t == Step(u, a)
  {
    init, a := acts[..|acts| - 1], acts[|acts| - 1];
    u := Exec(s, init).value;
  }

  lemma ExecSnoc(s: State, acts: seq<Action>, a: Action)
    requires Exec(s, acts).Some? && Enabled(Exec(s, acts).value, a)
    ensures Exec(s, acts + [a]) == Some(Step(Exec(s, acts).value, a))
  {
    assert (acts + [a])[..|acts|] == acts;
  }
}
