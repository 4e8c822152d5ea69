/**
 The client's structure and its socket in memory. Each critical section of the source is one method, proved to be one
 step of the state machine; the worker is a loop of such steps between which other threads call freely.
 */
module Websocket {
  import opened Bytes
  import opened Frames
  import opened Events
  import opened Reassembly
  import opened Protocol
  import opened ProtocolSafety
  import IO = SocketIO
  import Q = EventQueue
  import R = Reassembler

  datatype Outcome = Proceed | Again | Left

  /** A property that holds initially, that every step keeps, and that is at least as strong as Safe. */
  ghost predicate Inductive(inv: State -> bool, stream: seq<byte>) {
    && inv(Init(stream))
    && (forall s: State, a: Action {:trigger Step(s, a)} :: inv(s) && Enabled(s, a) ==> inv(Step(s, a)))
    && (forall s: State {:trigger Safe(s, stream)} :: inv(s) ==> Safe(s, stream))
  }

  class Websocket {
    var sockfd: IO.Connection?   // null is WS_INVALID_SOCK
    var connected: bool
    var closeRequested: bool
    var destroyRequested: bool
    var closeEmitted: bool
    var errorEmitted: bool
    var requestedCloseCode: int
    var requestedCloseReason: seq<byte>
    const events: Q.EventQueue    // event_head and event_tail

    const fd: IO.Connection       // the worker's own descriptor
    ghost const stream: seq<byte> // what was to arrive on it
    ghost const inv: State -> bool // any property that all steps keep, such as being reachable
    ghost var st: State           // the state that the run so far leads to
    ghost var Repr: set<object>

    /** The scalar fields as one value. */
    ghost function Scalars(): Flags
      reads `connected, `sockfd, `closeRequested, `destroyRequested, `closeEmitted, `errorEmitted
      reads `requestedCloseCode, `requestedCloseReason
    {
      Flags(connected, sockfd != null, closeRequested, destroyRequested, closeEmitted, errorEmitted,
            requestedCloseCode, requestedCloseReason)
    }

    ghost predicate SocketIs(o: Outgoing, k: Socket)
      reads fd`outbound, fd`shut, fd`closed
    {
      fd.outbound == o.bytes && fd.shut == k.shut && fd.closed == (k.fd == Closed)
    }

    /** The memory shows the parts of s that every thread shares. */
    ghost predicate Shows(s: State)
      reads `connected, `sockfd, `closeRequested, `destroyRequested, `closeEmitted, `errorEmitted
      reads `requestedCloseCode, `requestedCloseReason, events`Contents, fd`outbound, fd`shut, fd`closed
    {
      && Scalars() == s.ws && (sockfd == null || sockfd == fd)
      && events.Contents == s.mail.queue && SocketIs(s.out, s.sock)
    }

    ghost predicate InRepr()
      reads `Repr, events, events.Repr
    {
      && this in Repr && fd in Repr && events.Repr <= Repr && this !in events.Repr && fd !in events.Repr
      && events.Valid()
    }

    /** Between critical sections the memory shows a state that has every property that all steps keep. */
    ghost predicate Valid()
      reads this, Repr, events, events.Repr
    {
      InRepr() && Shows(st) && Inductive(inv, stream) && inv(st)
    }

    /** The step a, and no other, has been taken. */
    twostate predicate Did(a: Action)
      reads this
    {
      Enabled(old(st), a) && st == Step(old(st), a) && fresh(Repr - old(Repr))
    }

    /** websocket_create, once the mutex and the worker thread exist. */
    constructor (fd: IO.Connection, ghost inv: State -> bool)
      requires fd.outbound == [] && !fd.shut && !fd.closed && Inductive(inv, fd.inbound)
      ensures Valid() && this.fd == fd && this.inv == inv && stream == fd.inbound && fresh(Repr - {fd})
      ensures st == Init(fd.inbound)
    {
      this.fd, this.stream, this.inv := fd, fd.inbound, inv;
      sockfd := null;
      connected, closeRequested, destroyRequested, closeEmitted, errorEmitted := false, false, false, false, false;
      requestedCloseCode, requestedCloseReason := DEFAULT_CLOSE_CODE, Ascii("client closing");
      events := new Q.EventQueue();
      st := Init(fd.inbound);
      new;
      Repr := {this, fd} + events.Repr;
    }

    /** The end of a critical section: the run is extended by the step just carried out. */
    ghost method Commit(a: Action)
      requires Enabled(st, a) && Inductive(inv, stream) && inv(st)
      modifies `st
      ensures st == Step(old(st), a) && inv(st)
    {
      st := Step(st, a);
    }

    /** What the worker relies on between its critical sections. */
    lemma Facts()
      requires Inductive(inv, stream) && inv(st)
      ensures Trimmed(st.ws)
      ensures st.worker.pc.Connecting? ==> st.sock.fd == Private
      ensures if st.worker.pc.Exited? then st.sock.fd == Closed else !st.freed
    {
      assert Safe(st, stream);
    }

    // ---------- under the mutex --------------------------------------------

    method EnqueueLocked(e: Event, ghost s: State)
      requires InRepr() && Shows(s)
      modifies `Repr, events.Repr
      ensures InRepr() && fresh(Repr - old(Repr)) && fresh(events.Repr - old(events.Repr))
      ensures Shows(s.(mail := Put(s.mail, [e])))
    {
      events.Enqueue(e);
      Repr := Repr + events.Repr;
    }

    method EnqueueErrorLocked(ghost s: State)
      requires InRepr() && Shows(s)
      modifies `errorEmitted, `Repr, events.Repr
      ensures InRepr() && fresh(Repr - old(Repr)) && fresh(events.Repr - old(events.Repr))
      ensures Shows(EnqueueError(s))
    {
      if errorEmitted { return; }
      errorEmitted := true;
      EnqueueLocked(Error, s.(ws := s.ws.(errorEmitted := true)));
    }

    method EnqueueCloseLocked(code: int, reason: seq<byte>, ghost s: State)
      requires InRepr() && Shows(s)
      modifies `closeEmitted, `connected, `Repr, events.Repr
      ensures InRepr() && fresh(Repr - old(Repr)) && fresh(events.Repr - old(events.Repr))
      ensures Shows(EnqueueClose(s, code, Snprintf(reason, 128)))
    {
      if closeEmitted { return; }
      closeEmitted := true;
      connected := false;
      EnqueueLocked(Event.Close(code, Snprintf(reason, 128)),
                    s.(ws := s.ws.(closeEmitted := true, connected := false)));
    }

    method SendFrameLocked(data: seq<byte>, opcode: byte, key: seq<byte>, ghost s: State)
      returns (rc: int, ghost io: Io)
      requires Shows(s) && |data| <= INT_MAX && |key| == 4 && opcode < 16
      modifies fd`outbound
      ensures io.key == key && Shows(SendFrame(s, opcode, data, io))
      ensures rc == (if SendOk(s, opcode, data, io) then 0 else -1)
    {
      if sockfd == null || !connected { return -1, Io(key, 0); }
      ghost var accepted;
      rc, accepted := IO.SendFrame(sockfd, data, opcode, key);
      io := Io(key, accepted);
      ghost var e := Encode(opcode, data, key);
      assert e[..|e|] == e;
    }

    method SendCloseFrameLocked(key: seq<byte>, ghost s: State) returns (ghost io: Io)
      requires Shows(s) && |key| == 4
      modifies fd`outbound
      ensures io.key == key && Shows(SendClose(s, io))
    {
      var rc;
      rc, io := SendFrameLocked(ClosePayload(requestedCloseCode, requestedCloseReason), OP_CLOSE, key, s);
    }

    method CloseLocked(code: int, reason: seq<byte>, key: seq<byte>, ghost s: State) returns (ghost io: Io)
      requires Shows(s) && |key| == 4
      modifies `closeRequested, `requestedCloseCode, `requestedCloseReason, fd`outbound
      ensures io.key == key && Shows(StepRequestClose(s, code, reason, io))
    {
      RecordRequestLocked(code, reason, s);
      ghost var ws := s.ws.(closeRequested := true, code := requestedCloseCode, reason := requestedCloseReason);
      ghost var t := s.(ws := ws);
      io := Io(key, 0);
      if connected { io := SendCloseFrameLocked(key, t); }
    }

    method RecordRequestLocked(code: int, reason: seq<byte>, ghost s: State)
      requires Shows(s)
      modifies `closeRequested, `requestedCloseCode, `requestedCloseReason
      ensures Shows(s.(ws := s.ws.(closeRequested := true, code := requestedCloseCode, reason := requestedCloseReason)))
      ensures requestedCloseCode == (if code > 0 then code else DEFAULT_CLOSE_CODE)
      ensures requestedCloseReason == Snprintf(reason, 128)
    {
      closeRequested := true;
      requestedCloseCode := if code > 0 then code else DEFAULT_CLOSE_CODE;
      requestedCloseReason := Snprintf(reason, 128);
    }

    // ---------- the public calls -------------------------------------------

    /** What only the worker and the network touch. */
    twostate predicate NetworkKept()
      reads fd
    {
      fd.inbound == old(fd.inbound) && fd.interrupts == old(fd.interrupts)
    }

    lemma SendTold(s: State, op: byte, data: seq<byte>, io: Io)
      requires Inductive(inv, stream) && inv(s) && Enabled(s, SendData(op, data, io))
      ensures !s.out.failed ==>
        ((op == OP_TEXT || data != []) && SendOk(s, op, data, io) <==>
           Stands(s, Step(s, SendData(op, data, io)), op, data))
    {
      assert Safe(s, stream);
      if !s.out.failed { SendResult(s, op, data, io); }
    }

    method SendText(text: seq<byte>, key: seq<byte>) returns (rc: int, ghost io: Io)
      requires Valid() && !st.freed && |text| <= INT_MAX && |key| == 4
      modifies Repr
      ensures Valid() && Did(SendData(OP_TEXT, UpToNul(text), io)) && NetworkKept()
      ensures rc == (if SendOk(old(st), OP_TEXT, UpToNul(text), io) then 0 else -1)
      ensures !old(st).out.failed ==> (rc == 0 <==> Stands(old(st), st, OP_TEXT, UpToNul(text)))
    {
      UpToNulPrefix(text);
      rc, io := SendFrameLocked(UpToNul(text), OP_TEXT, key, st);
      Commit(SendData(OP_TEXT, UpToNul(text), io));
      SendTold(old(st), OP_TEXT, UpToNul(text), io);
    }

    method SendBinary(data: seq<byte>, key: seq<byte>) returns (rc: int, ghost io: Io)
      requires Valid() && !st.freed && |data| <= INT_MAX && |key| == 4
      modifies Repr
      ensures Valid() && Did(SendData(OP_BINARY, data, io)) && NetworkKept()
      ensures rc == (if data != [] && SendOk(old(st), OP_BINARY, data, io) then 0 else -1)
      ensures !old(st).out.failed ==> (rc == 0 <==> Stands(old(st), st, OP_BINARY, data))
    {
      if |data| == 0 {
        rc, io := -1, Io(key, 0);
      } else {
        rc, io := SendFrameLocked(data, OP_BINARY, key, st);
      }
      Commit(SendData(OP_BINARY, data, io));
      SendTold(old(st), OP_BINARY, data, io);
    }

    method Close(code: int, reason: seq<byte>, key: seq<byte>) returns (ghost io: Io)
      requires Valid() && !st.freed && |key| == 4
      modifies Repr
      ensures Valid() && Did(RequestClose(code, reason, io)) && NetworkKept()
    {
      io := CloseLocked(code, reason, key, st);
      Commit(RequestClose(code, reason, io));
    }

    /** One round of websocket_poll: the oldest event, if there is one. */
    method PollOne() returns (e: Option<Event>)
      requires Valid() && !st.freed
      modifies Repr
      ensures Valid() && Did(Action.Poll) && NetworkKept()
      ensures e == if old(st.mail.queue) == [] then None else Some(old(st.mail.queue)[0])
    {
      e := events.Dequeue();
      Commit(Action.Poll);
    }

    method RequestDestroy()
      requires Valid() && !st.freed
      modifies Repr
      ensures Valid() && Did(Action.RequestDestroy) && NetworkKept()
    {
      destroyRequested := true;
      if sockfd != null { sockfd.shut := true; }
      Commit(Action.RequestDestroy);
    }

    /** The rest of websocket_destroy, once pthread_join has returned. */
    method Discard()
      requires Valid() && !st.freed && destroyRequested && st.worker.pc.Exited?
      modifies Repr
      ensures Valid() && Did(Action.Discard) && NetworkKept()
    {
      events.Clear();
      Commit(Action.Discard);
    }

    /**
     What is left of websocket_destroy when the worker has exited: its first two critical sections, unless they came
     before the exit, and then, pthread_join having returned, the queue and the storage.
     */
    method Destroy(key: seq<byte>)
      requires Valid() && !st.freed && st.worker.pc.Exited? && |key| == 4
      modifies Repr
      ensures Valid() && st.freed && st.mail.queue == [] && st.mail.enqueued == old(st.mail.enqueued)
      ensures st.worker.pc.Exited?
      ensures fd.closed && fresh(Repr - old(Repr))
    {
      var late: bool := *;
      if late || !destroyRequested { AskToDestroy(key); }
      DiscardAndFree();
    }

    method DiscardAndFree()
      requires Valid() && !st.freed && destroyRequested && st.worker.pc.Exited?
      modifies Repr
      ensures Valid() && st.freed && st.mail.queue == [] && st.mail.enqueued == old(st.mail.enqueued)
      ensures st.worker.pc.Exited?
      ensures fd.closed && fresh(Repr - old(Repr))
    {
      Discard();
      Commit(Action.Free);
      Facts();
    }

    method AskToDestroy(key: seq<byte>)
      requires Valid() && !st.freed && |key| == 4
      modifies Repr
      ensures Valid() && !st.freed && destroyRequested && WorkerKept() && st.mail.enqueued == old(st.mail.enqueued)
    {
      AskToClose(key);
      ghost var s := st;
      RequestDestroy();
      ClientStep(s, Action.RequestDestroy);
      ClientMail(s, Action.RequestDestroy);
    }

    method AskToClose(key: seq<byte>)
      requires Valid() && !st.freed && |key| == 4
      modifies Repr
      ensures Valid() && !st.freed && WorkerKept() && st.mail.enqueued == old(st.mail.enqueued)
    {
      var io := Close(DEFAULT_CLOSE_CODE, Ascii("Client closing"), key);
      ghost var a := RequestClose(DEFAULT_CLOSE_CODE, Ascii("Client closing"), io);
      ClientStep(old(st), a);
      ClientMail(old(st), a);
    }

    // ---------- other threads ----------------------------------------------

    /** The worker's part of the state, which no client call touches. */
    twostate predicate WorkerKept()
      reads this, fd
    {
      && st.worker == old(st.worker) && st.sock.inbound == old(st.sock.inbound) && NetworkKept()
      && fresh(Repr - old(Repr))
    }

    /** ws_xorshift: any four octets. */
    method AnyKey() returns (key: seq<byte>)
      ensures |key| == 4
    {
      var k: seq<byte> := *;
      key := if |k| == 4 then k else [0, 0, 0, 0];
    }

    /** One call by some other thread, with any arguments. */
    method AnyCall()
      requires Valid() && !st.freed
      modifies Repr
      ensures Valid() && !st.freed && WorkerKept()
    {
      var which: int := *;
      if which == 0 { AnySend(); } else if which == 1 { AnyClose(); } else { AnyOther(); }
    }

    method AnySend()
      requires Valid() && !st.freed
      modifies Repr
      ensures Valid() && !st.freed && WorkerKept()
    {
      var isText: bool := *;
      var any: seq<byte> := *;
      var data := any[..Min(|any|, INT_MAX)];
      var key := AnyKey();
      if isText {
        var rc, io := SendText(data, key);
        ClientStep(old(st), SendData(OP_TEXT, UpToNul(data), io));
      } else {
        var rc, io := SendBinary(data, key);
        ClientStep(old(st), SendData(OP_BINARY, data, io));
      }
    }

    method AnyClose()
      requires Valid() && !st.freed
      modifies Repr
      ensures Valid() && !st.freed && WorkerKept()
    {
      var code: int := *;
      var reason: seq<byte> := *;
      var key := AnyKey();
      var io := Close(code, reason, key);
      ClientStep(old(st), RequestClose(code, reason, io));
    }

    method AnyOther()
      requires Valid() && !st.freed
      modifies Repr
      ensures Valid() && !st.freed && WorkerKept()
    {
      var polls: bool := *;
      if polls {
        var e := PollOne();
        ClientStep(old(st), Action.Poll);
      } else {
        RequestDestroy();
        ClientStep(old(st), Action.RequestDestroy);
      }
    }

    /** Any number of calls by other threads, as between two critical sections of the worker. */
    method OtherThreads()
      requires Valid() && !st.freed
      modifies Repr
      ensures Valid() && !st.freed && WorkerKept()
    {
      var calls: int := *;
      for i := 0 to if calls < 0 then 0 else calls
        invariant Valid() && !st.freed && WorkerKept()
      {
        AnyCall();
      }
    }

    // ---------- the worker -------------------------------------------------

    /** ERROR and CLOSE in one critical section. */
    method FailLocked(why: seq<byte>, ghost s: State)
      requires InRepr() && Shows(s)
      modifies `errorEmitted, `closeEmitted, `connected, `Repr, events.Repr
      ensures InRepr() && fresh(Repr - old(Repr)) && fresh(events.Repr - old(events.Repr))
      ensures Shows(EnqueueClose(EnqueueError(s), 1006, Snprintf(why, 128)))
    {
      EnqueueErrorLocked(s);
      EnqueueCloseLocked(1006, why, EnqueueError(s));
    }

    /** The early exits, before the socket is published. */
    method FailConnect(why: seq<byte>)
      requires Valid() && st.worker.pc.Connecting?
      modifies Repr
      ensures Valid() && Did(ConnectFailed(Snprintf(why, 128)))
    {
      fd.closed := true;
      FailLocked(why, st.(sock := st.sock.(fd := Closed)));
      Commit(ConnectFailed(Snprintf(why, 128)));
    }

    method SetOpenLocked(ghost s: State)
      requires Shows(s) && s.sock.fd == Private
      modifies `sockfd, `connected
      ensures Shows(s.(ws := s.ws.(sockOpen := true, connected := true), sock := s.sock.(fd := Live)))
    {
      sockfd := fd;
      connected := true;
    }

    method PublishLocked(key: seq<byte>, ghost s: State) returns (ghost io: Io)
      requires InRepr() && Shows(s) && |key| == 4 && s.sock.fd == Private
      modifies `sockfd, `connected, `Repr, events.Repr, fd`outbound
      ensures io.key == key && Shows(StepOpened(s, io))
      ensures InRepr() && fresh(Repr - old(Repr)) && fresh(events.Repr - old(events.Repr))
    {
      ghost var t := s.(ws := s.ws.(sockOpen := true, connected := true), sock := s.sock.(fd := Live));
      SetOpenLocked(s);
      EnqueueLocked(Open, t);
      io := Io(key, 0);
      if closeRequested { io := SendCloseFrameLocked(key, t.(mail := Put(t.mail, [Open]))); }
    }

    method Publish(key: seq<byte>) returns (ghost io: Io)
      requires Valid() && st.worker.pc.Connecting? && |key| == 4
      modifies Repr
      ensures Valid() && Did(Opened(io)) && NetworkKept()
    {
      Facts();
      io := PublishLocked(key, st);
      Commit(Opened(io));
    }

    method CheckDestroyed() returns (leave: bool)
      requires Valid() && st.worker.pc.LoopTop?
      modifies Repr
      ensures Valid() && Did(CheckDestroy) && NetworkKept()
      ensures leave == old(destroyRequested) && st.worker.pc == if leave then LoopLeft else Waiting
    {
      leave := destroyRequested;
      Commit(CheckDestroy);
    }

    /** The stream ended between two frames: only CLOSE, with what was asked for if a close was. */
    method ReportEndLocked(ghost s: State)
      requires InRepr() && Shows(s) && s.worker.pc.HeaderFailed?
      requires Snprintf(FailureInfo(s.ws, s.worker.pc).1, 128) == FailureInfo(s.ws, s.worker.pc).1
      modifies `closeEmitted, `connected, `Repr, events.Repr
      ensures InRepr() && fresh(Repr - old(Repr)) && fresh(events.Repr - old(events.Repr))
      ensures Shows(StepReport(s))
    {
      if !closeEmitted {
        EnqueueCloseLocked(if closeRequested then requestedCloseCode else 1006,
                           if closeRequested then requestedCloseReason else Ascii("connection closed"), s);
      }
    }

    method ReportErrorLocked(why: string, ghost s: State)
      requires InRepr() && Shows(s) && (s.worker.pc.SelectFailed? || s.worker.pc.ReceiveFailed?)
      requires why == if s.worker.pc.SelectFailed? then "select failed" else "receive failed"
      modifies `errorEmitted, `closeEmitted, `connected, `Repr, events.Repr
      ensures InRepr() && fresh(Repr - old(Repr)) && fresh(events.Repr - old(events.Repr))
      ensures Shows(StepReport(s))
    {
      AsciiFits(why, 128);
      FailLocked(Ascii(why), s);
      ReportSpelled(s);
    }

    method ReportCloseLocked(code: int, reason: seq<byte>, key: seq<byte>, ghost s: State) returns (ghost io: Io)
      requires InRepr() && Shows(s) && |key| == 4
      requires s.worker.pc == ClosingBy(code, Snprintf(reason, 128))
      modifies `closeEmitted, `connected, `Repr, events.Repr, fd`outbound
      ensures InRepr() && fresh(Repr - old(Repr)) && fresh(events.Repr - old(events.Repr))
      ensures io.key == key && Shows(StepReportClose(s, io))
    {
      var rc;
      rc, io := SendFrameLocked([], OP_CLOSE, key, s);
      EnqueueCloseLocked(code, reason, SendFrame(s, OP_CLOSE, [], io));
    }

    method DisconnectLocked(ghost s: State)
      requires Shows(s)
      modifies `connected
      ensures Shows(s.(ws := s.ws.(connected := false)))
    {
      connected := false;
    }

    method InvalidateLocked(ghost s: State)
      requires Shows(s)
      modifies `sockfd
      ensures Shows(s.(ws := s.ws.(sockOpen := false)))
    {
      sockfd := null;
    }

    method EnsureCloseLocked(reason: seq<byte>, ghost s: State)
      requires InRepr() && Shows(s)
      modifies `closeEmitted, `connected, `Repr, events.Repr
      ensures InRepr() && fresh(Repr - old(Repr)) && fresh(events.Repr - old(events.Repr))
      ensures Shows(EnqueueClose(s, 1006, Snprintf(reason, 128)))
    {
      if !closeEmitted { EnqueueCloseLocked(1006, reason, s); }
    }

    method LeaveLocked(ghost s: State)
      requires InRepr() && Shows(s)
      modifies `closeEmitted, `connected, `sockfd, `Repr, events.Repr
      ensures InRepr() && fresh(Repr - old(Repr)) && fresh(events.Repr - old(events.Repr))
      ensures Shows(StepLeave(s))
    {
      AsciiFits("connection closed", 128);
      ghost var t := s.(ws := s.ws.(connected := false));
      DisconnectLocked(s);
      EnsureCloseLocked(Ascii("connection closed"), t);
      InvalidateLocked(EnqueueClose(t, 1006, Ascii("connection closed")));
    }

    // ---------- the worker's critical sections and the moves between them --

    method ReportEnd()
      requires Valid() && st.worker.pc.HeaderFailed?
      modifies Repr
      ensures Valid() && Did(Report)
    {
      Facts();
      AsciiFits("connection closed", 128);
      ReportEndLocked(st);
      Commit(Report);
    }

    method ReportError(why: string)
      requires Valid() && (st.worker.pc.SelectFailed? || st.worker.pc.ReceiveFailed?)
      requires why == if st.worker.pc.SelectFailed? then "select failed" else "receive failed"
      modifies Repr
      ensures Valid() && Did(Report)
    {
      ReportErrorLocked(why, st);
      Commit(Report);
    }

    method ReportClose(code: int, reason: seq<byte>, key: seq<byte>) returns (ghost io: Io)
      requires Valid() && st.worker.pc == ClosingBy(code, Snprintf(reason, 128)) && |key| == 4
      modifies Repr
      ensures Valid() && Did(Action.ReportClose(io))
    {
      io := ReportCloseLocked(code, reason, key, st);
      Commit(Action.ReportClose(io));
    }

    method Leave()
      requires Valid() && st.worker.pc.LoopLeft?
      modifies Repr
      ensures Valid() && Did(Action.Leave)
    {
      LeaveLocked(st);
      Commit(Action.Leave);
    }

    method Release()
      requires Valid() && st.worker.pc.SockClosing?
      modifies Repr
      ensures Valid() && Did(Action.Release)
    {
      fd.closed := true;
      Commit(Action.Release);
    }

    /** A PING is answered under the mutex. */
    method AnswerPing(f: Frame, key: seq<byte>) returns (ghost io: Io)
      requires Valid() && |f.payload| <= RECEIVE_CAP && f.opcode == OP_PING && st.worker.pc == Dispatching(f)
      requires |key| == 4
      modifies Repr
      ensures Valid() && Did(Dispatch(io)) && NetworkKept()
    {
      var rc;
      rc, io := SendFrameLocked(f.payload, OP_PONG, key, st);
      assert Produced(st.worker.frag, f) == [];
      assert st.mail.queue + [] == st.mail.queue;
      Commit(Dispatch(io));
    }

    /** A finished message is enqueued under the mutex; any other data frame, or an ignored one, needs no lock. */
    method DeliverMessage(f: Frame, e: Option<Event>)
      requires Valid() && |f.payload| <= RECEIVE_CAP && f.opcode < 16 && st.worker.pc == Dispatching(f)
      requires f.opcode != OP_PING && f.opcode != OP_CLOSE
      requires Produced(st.worker.frag, f) == if e.Some? then [e.value] else []
      modifies Repr
      ensures Valid() && Did(Dispatch(Io([0, 0, 0, 0], 0))) && NetworkKept()
    {
      if e.Some? { EnqueueLocked(e.value, st); }
      assert st.mail.queue + [] == st.mail.queue;
      Commit(Dispatch(Io([0, 0, 0, 0], 0)));
    }

    /** The code and reason of a Close frame, or the ones requested, read without the lock. */
    method ReadCloseInfo(f: Frame) returns (code: int, reason: seq<byte>)
      requires Valid() && |f.payload| <= RECEIVE_CAP && f.opcode == OP_CLOSE && st.worker.pc == Dispatching(f)
      modifies Repr
      ensures Valid() && Did(Dispatch(Io([0, 0, 0, 0], 0))) && NetworkKept()
      ensures st.worker.pc == ClosingBy(code, Snprintf(reason, 128))
    {
      Facts();
      code, reason := DEFAULT_CLOSE_CODE, [];
      if |f.payload| >= 2 {
        code, reason := CloseCode(f.payload), CloseReason(f.payload);
      } else if closeRequested {
        code, reason := requestedCloseCode, requestedCloseReason;
      }
      assert st.mail.queue + [] == st.mail.queue;
      Commit(Dispatch(Io([0, 0, 0, 0], 0)));
    }

    /** select, between two critical sections. */
    method Await() returns (sel: IO.Readiness)
      requires Valid() && st.worker.pc.Waiting?
      modifies Repr
      ensures Valid() && !st.freed && fresh(Repr - old(Repr)) && fd.inbound == old(fd.inbound)
      ensures fd.interrupts <= old(fd.interrupts) && (sel == IO.WasInterrupted ==> fd.interrupts < old(fd.interrupts))
      ensures st.worker.frag == old(st.worker.frag) && st.sock.inbound == old(st.sock.inbound)
      ensures st.worker.pc ==
        if sel == IO.Ready then Waiting else if sel == IO.WasInterrupted then LoopTop else SelectFailed
    {
      sel := fd.Select();
      if sel == IO.WasInterrupted { Commit(Interrupted); }
      if sel == IO.Failed { Commit(FailSelect); }
      Facts();
    }

    /** The reception of one frame, between two critical sections. */
    method ReceiveNext() returns (r: IO.Reception)
      requires Valid() && st.worker.pc.Waiting? && fd.inbound == st.sock.inbound
      modifies Repr
      ensures Valid() && !st.freed && fresh(Repr - old(Repr))
      ensures fd.interrupts == old(fd.interrupts) && |fd.inbound| <= old(|fd.inbound|)
      ensures st.worker.frag == old(st.worker.frag)
      ensures match r
              case HeaderMissing => st.worker.pc.HeaderFailed?
              case Damaged => st.worker.pc.ReceiveFailed?
              case Delivery(f) =>
                && |f.payload| <= RECEIVE_CAP && f.opcode < 16 && st.worker.pc == Dispatching(f)
                && fd.inbound == st.sock.inbound && |fd.inbound| < old(|fd.inbound|)
    {
      ghost var p := Parse(fd.inbound, RECEIVE_CAP);
      r := IO.ReceiveFrame(fd);
      Commit(Receive);
      Facts();
    }

    /** The worker is about to look at destroy_requested, its buffer and its stream as the state machine has them. */
    ghost predicate AtLoopTop(r: R.Reassembler)
      reads this, Repr, events, events.Repr, r, r.frag
    {
      && Valid() && st.worker.pc.LoopTop? && fd.inbound == st.sock.inbound
      && r !in Repr && r.frag !in Repr && r.Valid() && r.View() == st.worker.frag
    }

    method HandlePing(f: Frame, ghost r: R.Reassembler)
      requires Holding(f, r) && f.opcode == OP_PING
      modifies Repr
      ensures AtLoopTop(r) && StreamKept()
    {
      OtherThreads();
      var key := AnyKey();
      ghost var g := st.worker.frag;
      var io := AnswerPing(f, key);
      assert After(g, f) == g;
    }

    method HandleClose(f: Frame)
      requires Valid() && !st.freed
      requires |f.payload| <= RECEIVE_CAP && f.opcode == OP_CLOSE && st.worker.pc == Dispatching(f)
      modifies Repr
      ensures Valid() && st.worker.pc.LoopLeft? && fresh(Repr - old(Repr))
    {
      var code, reason := ReadUnlocked(f);
      EmitClose(code, reason);
    }

    /** The unlocked read, with other threads calling before it. */
    method ReadUnlocked(f: Frame) returns (code: int, reason: seq<byte>)
      requires Valid() && !st.freed
      requires |f.payload| <= RECEIVE_CAP && f.opcode == OP_CLOSE && st.worker.pc == Dispatching(f)
      modifies Repr
      ensures Valid() && fresh(Repr - old(Repr)) && st.worker.pc == ClosingBy(code, Snprintf(reason, 128))
    {
      OtherThreads();
      code, reason := ReadCloseInfo(f);
    }

    method EmitClose(code: int, reason: seq<byte>)
      requires Valid() && st.worker.pc == ClosingBy(code, Snprintf(reason, 128))
      modifies Repr
      ensures Valid() && st.worker.pc.LoopLeft? && fresh(Repr - old(Repr))
    {
      Facts();
      OtherThreads();
      var key := AnyKey();
      var io := ReportClose(code, reason, key);
    }

    method HandleOther(f: Frame, r: R.Reassembler)
      requires Holding(f, r) && f.opcode != OP_PING && f.opcode != OP_CLOSE
      modifies Repr, r, r.frag
      ensures AtLoopTop(r) && StreamKept() && (r.frag == old(r.frag) || fresh(r.frag))
    {
      OtherThreads();
      var e := r.Take(f);
      DeliverMessage(f, e);
    }

    /** A received frame is in hand, the buffer and the stream as the state machine has them. */
    ghost predicate Holding(f: Frame, r: R.Reassembler)
      reads this, Repr, events, events.Repr, r, r.frag
    {
      && Valid() && !st.freed && |f.payload| <= RECEIVE_CAP && f.opcode < 16 && st.worker.pc == Dispatching(f)
      && fd.inbound == st.sock.inbound
      && r !in Repr && r.frag !in Repr && r.Valid() && r.View() == st.worker.frag
    }

    twostate predicate StreamKept()
      reads this, fd
    {
      fresh(Repr - old(Repr)) && fd.interrupts == old(fd.interrupts) && |fd.inbound| == old(|fd.inbound|)
    }

    /** From the top of the loop to select; false once destroy_requested is seen. */
    method Check() returns (again: bool)
      requires Valid() && st.worker.pc.LoopTop?
      modifies Repr
      ensures Valid() && !st.freed && StreamKept() && fd.inbound == old(fd.inbound)
      ensures st.worker.frag == old(st.worker.frag) && st.sock.inbound == old(st.sock.inbound)
      ensures st.worker.pc == if again then Waiting else LoopLeft
      ensures again == !st.ws.destroyRequested
    {
      Facts();
      OtherThreads();
      var leave := CheckDestroyed();
      Facts();
      again := !leave;
    }

    method ReportSelect()
      requires Valid() && !st.freed && st.worker.pc.SelectFailed?
      modifies Repr
      ensures Valid() && st.worker.pc.LoopLeft? && fresh(Repr - old(Repr))
    {
      OtherThreads();
      ReportError("select failed");
    }

    method ReportReceive()
      requires Valid() && !st.freed && st.worker.pc.ReceiveFailed?
      modifies Repr
      ensures Valid() && st.worker.pc.LoopLeft? && fresh(Repr - old(Repr))
    {
      OtherThreads();
      ReportError("receive failed");
    }

    method ReportMissing()
      requires Valid() && !st.freed && st.worker.pc.HeaderFailed?
      modifies Repr
      ensures Valid() && st.worker.pc.LoopLeft? && fresh(Repr - old(Repr))
    {
      OtherThreads();
      ReportEnd();
    }

    /** A frame, or a failure reported and the loop left. */
    method ReceiveOrReport() returns (got: Option<Frame>)
      requires Valid() && st.worker.pc.Waiting? && fd.inbound == st.sock.inbound
      modifies Repr
      ensures Valid() && fresh(Repr - old(Repr))
      ensures if got.None? then st.worker.pc.LoopLeft? else
                && |got.value.payload| <= RECEIVE_CAP && got.value.opcode < 16 && st.worker.pc == Dispatching(got.value)
                && !st.freed && fd.inbound == st.sock.inbound && st.worker.frag == old(st.worker.frag)
                && |fd.inbound| + fd.interrupts < old(|fd.inbound| + fd.interrupts)
    {
      Facts();
      OtherThreads();
      var r := ReceiveNext();
      match r
      case HeaderMissing => ReportMissing(); return None;
      case Damaged => ReportReceive(); return None;
      case Delivery(f) => return Some(f);
    }

    /** What the worker does with a frame; false when a Close frame ends the loop. */
    method Handle(f: Frame, r: R.Reassembler) returns (again: bool)
      requires Holding(f, r)
      modifies Repr, r, r.frag
      ensures if again then AtLoopTop(r) && StreamKept() else Valid() && st.worker.pc.LoopLeft?
      ensures fresh(Repr - old(Repr)) && (r.frag == old(r.frag) || fresh(r.frag))
    {
      if f.opcode == OP_CLOSE {
        HandleClose(f);
        return false;
      }
      if f.opcode == OP_PING { HandlePing(f, r); } else { HandleOther(f, r); }
      return true;
    }

    /** select, with other threads calling before it. */
    method AwaitUnlocked() returns (sel: IO.Readiness)
      requires Valid() && !st.freed && st.worker.pc.Waiting?
      modifies Repr
      ensures Valid() && !st.freed && fresh(Repr - old(Repr)) && fd.inbound == old(fd.inbound)
      ensures fd.interrupts <= old(fd.interrupts) && (sel == IO.WasInterrupted ==> fd.interrupts < old(fd.interrupts))
      ensures st.worker.frag == old(st.worker.frag) && st.sock.inbound == old(st.sock.inbound)
      ensures st.worker.pc ==
        if sel == IO.Ready then Waiting else if sel == IO.WasInterrupted then LoopTop else SelectFailed
    {
      OtherThreads();
      sel := Await();
    }

    /** The first half of a round, up to the point where the stream has something to read. */
    method UntilReady() returns (o: Outcome)
      requires Valid() && st.worker.pc.LoopTop?
      modifies Repr
      ensures Valid() && fresh(Repr - old(Repr))
      ensures st.worker.pc == match o case Proceed => Waiting case Again => LoopTop case Left => LoopLeft
      ensures o != Left ==>
        && st.worker.frag == old(st.worker.frag)
        && st.sock.inbound == old(st.sock.inbound) && fd.inbound == old(fd.inbound)
        && fd.interrupts <= old(fd.interrupts) && (o == Again ==> fd.interrupts < old(fd.interrupts))
    {
      var again := Check();
      if !again { return Left; }
      var sel := AwaitUnlocked();
      if sel == IO.Failed {
        ReportSelect();
        return Left;
      }
      return if sel == IO.Ready then Proceed else Again;
    }

    /** One round of the frame loop, other threads calling in between; false once the loop is left. */
    method LoopRound(r: R.Reassembler) returns (again: bool)
      requires AtLoopTop(r)
      modifies Repr, r, r.frag
      ensures if again then AtLoopTop(r) else Valid() && st.worker.pc.LoopLeft?
      ensures fresh(Repr - old(Repr)) && (r.frag == old(r.frag) || fresh(r.frag))
      ensures again ==> |fd.inbound| + fd.interrupts < old(|fd.inbound| + fd.interrupts)
    {
      var ready := UntilReady();
      if ready != Proceed { return ready == Again; }
      var got := ReceiveOrReport();
      if got.None? { return false; }
      again := Handle(got.value, r);
    }

    /** Everything before the frame loop: a failure that ends the thread, or an open connection. */
    method Connect() returns (up: bool)
      requires Valid() && st.worker.pc.Connecting? && fd.inbound == st.sock.inbound
      modifies Repr
      ensures Valid() && fresh(Repr - old(Repr))
      ensures if up then st.worker.pc.LoopTop? && st.worker.frag == old(st.worker.frag) && fd.inbound == st.sock.inbound
              else st.worker.pc.Exited? && !st.freed
    {
      Facts();
      OtherThreads();
      up := *;
      if up {
        var key := AnyKey();
        var io := Publish(key);
      } else {
        var why: seq<byte> := *;
        FailConnect(why);
      }
    }

    method LeaveLoop()
      requires Valid() && st.worker.pc.LoopLeft?
      modifies Repr
      ensures Valid() && st.worker.pc.SockClosing? && fresh(Repr - old(Repr))
    {
      Facts();
      OtherThreads();
      Leave();
    }

    method CloseSocket()
      requires Valid() && st.worker.pc.SockClosing?
      modifies Repr
      ensures Valid() && st.worker.pc.Exited? && !st.freed && fresh(Repr - old(Repr))
    {
      Facts();
      OtherThreads();
      Release();
    }

    /** The frame loop with its reassembly buffer. */
    method FrameLoop()
      requires Valid() && st.worker.pc.LoopTop? && st.worker.frag == INITIAL_FRAG && fd.inbound == st.sock.inbound
      modifies Repr
      ensures Valid() && st.worker.pc.LoopLeft? && fresh(Repr - old(Repr))
    {
      var r := new R.Reassembler();
      var again := true;
      while again
        invariant fresh(Repr - old(Repr)) && fresh(r) && fresh(r.frag)
        invariant if again then AtLoopTop(r) else Valid() && st.worker.pc.LoopLeft?
        decreases again, |fd.inbound| + fd.interrupts
      {
        again := LoopRound(r);
      }
    }

    /** Everything after the frame loop. */
    method Finish()
      requires Valid() && st.worker.pc.LoopLeft?
      modifies Repr
      ensures Valid() && st.worker.pc.Exited? && !st.freed && fresh(Repr - old(Repr))
    {
      LeaveLoop();
      CloseSocket();
    }

    /** websocket_worker_main: whatever the network and other threads do, it runs to its exit. */
    method WorkerMain()
      requires Valid() && st.worker.pc.Connecting? && st.worker.frag == INITIAL_FRAG && fd.inbound == st.sock.inbound
      modifies Repr
      ensures Valid() && st.worker.pc.Exited? && !st.freed && fresh(Repr - old(Repr))
    {
      var up := Connect();
      if up {
        FrameLoop();
        Finish();
      }
    }
  }

  /** Some run from the initial state leads to s. */
  ghost predicate Reachable(stream: seq<byte>, s: State) {
    exists acts :: Reached(stream, acts, s)
  }

  lemma ReachableInductive(stream: seq<byte>)
    ensures Inductive(s => Reachable(stream, s), stream)
  {
    assert Reached(stream, [], Init(stream));
    forall s: State, a: Action | Reachable(stream, s) && Enabled(s, a) ensures Reachable(stream, Step(s, a)) {
      var acts :| Reached(stream, acts, s);
      ExecSnoc(Init(stream), acts, a);
      assert Reached(stream, acts + [a], Step(s, a));
    }
    forall s: State | Reachable(stream, s) ensures Safe(s, stream) {
      var acts :| Reached(stream, acts, s);
      SafeReached(stream, acts, s);
    }
  }

  /**
   The whole client: a connection is created, the worker runs to its exit while other threads call as they please, and
   the events left in the end are a complete sequence, reached by a run of the state machine.
   */
  method Session(fd: IO.Connection) returns (ws: Websocket)
    requires fd.outbound == [] && !fd.shut && !fd.closed
    modifies fd
    ensures ws.Valid() && fresh(ws.Repr - {fd}) && ws.fd == fd
    ensures Reachable(old(fd.inbound), ws.st) && CompleteRun(ws.st.mail.enqueued) && fd.closed
    ensures ws.st.worker.pc.Exited? && !ws.st.freed && forall s :: ws.inv(s) ==> Reachable(old(fd.inbound), s)
  {
    ghost var stream := fd.inbound;
    ReachableInductive(stream);
    ws := new Websocket(fd, s => Reachable(stream, s));
    ws.WorkerMain();
    ghost var acts :| Reached(stream, acts, ws.st);
    SafeReached(stream, acts, ws.st);
    EventTheorem(stream, acts, ws.st);
  }

  /** More calls once the worker has exited, such as polling the last events, and then destroy. */
  method End(ws: Websocket)
    requires ws.Valid() && !ws.st.freed && ws.st.worker.pc.Exited?
    modifies ws.Repr
    ensures ws.Valid() && ws.st.freed && ws.st.worker.pc.Exited? && ws.st.mail.queue == [] && ws.fd.closed
    ensures fresh(ws.Repr - old(ws.Repr))
  {
    ws.OtherThreads();
    var key := ws.AnyKey();
    ws.Destroy(key);
  }

  lemma FinalEvents(stream: seq<byte>, s: State)
    requires Reachable(stream, s) && s.worker.pc.Exited?
    ensures CompleteRun(s.mail.enqueued) && s.mail.taken <= s.mail.enqueued
  {
    var acts :| Reached(stream, acts, s);
    EventTheorem(stream, acts, s);
  }

  /**
   And its end: once the worker is gone there may be more calls, and then websocket_destroy empties the queue and frees.
   The events are still one complete sequence, and those polled are the start of it.
   */
  method Lifetime(fd: IO.Connection) returns (ws: Websocket)
    requires fd.outbound == [] && !fd.shut && !fd.closed
    modifies fd
    ensures Reachable(old(fd.inbound), ws.st) && ws.st.freed && fd.closed
    ensures CompleteRun(ws.st.mail.enqueued) && ws.st.mail.queue == [] && ws.st.mail.taken <= ws.st.mail.enqueued
  {
    ghost var stream := fd.inbound;
    ws := Session(fd);
    End(ws);
    assert ws.inv(ws.st);
    FinalEvents(stream, ws.st);
  }
}
