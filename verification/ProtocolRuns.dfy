/** What whole runs lead to, told by the calls made and the octets received alone. */
module ProtocolRuns {
  import opened Bytes
  import opened Frames
  import opened Events
  import opened Reassembly
  import opened Protocol
  import opened ProtocolSafety

  // ---------- how the stream ends ------------------------------------------

  lemma ReachedReceive(inbound: seq<byte>, acts: seq<Action>, s: State)
    requires Reached(inbound, acts, s) && s.worker.pc.Waiting?
    ensures Reached(inbound, acts + [Receive], Step(s, Receive))
  {
    ExecSnoc(Init(inbound), acts, Receive);
  }

  lemma ReachedWithin(inbound: seq<byte>, acts: seq<Action>, s: State, more: seq<Action>, k: nat, r: State)
    requires Reached(inbound, acts, s) && ReportedAt(s, more, k, r)
    ensures Reached(inbound, acts + more[..k], r)
  {
    ReachedOn(inbound, acts, s, more[..k], r);
  }

  /**
   The end of the stream. When fewer than two octets are left and the worker goes to receive, then in every run, once
   the worker has left the loop, exactly one event has been added: CLOSE, with the code and text of the last close asked
   for by the time of the report, at step k, or with 1006 if none had been.
   */
  lemma EndOfStream(inbound: seq<byte>, acts: seq<Action>, s: State, more: seq<Action>, t: State) returns (k: nat)
    requires Reached(inbound, acts, s) && s.worker.pc.Waiting? && |s.sock.inbound| < 2
    requires Exec(Step(s, Receive), more) == Some(t) && !InLoop(t.worker.pc)
    ensures k < |more| && more[k].Report?
    ensures var before := acts + [Receive] + more[..k];
      var asked := LastRequest(before);
      t.mail.enqueued == s.mail.enqueued +
        [if CloseAsked(before) then Close(asked.code, asked.reason) else Close(1006, Ascii("connection closed"))]
  {
    var u, r := Step(s, Receive), s;
    assert u.worker.pc == HeaderFailed;
    ReachedReceive(inbound, acts, s);
    k, r := FailureTheorem(inbound, acts + [Receive], u, more, t);
    ReachedWithin(inbound, acts + [Receive], u, more, k, r);
    RequestTheorem(inbound, acts + [Receive] + more[..k], r);
  }

  /** Octets that are the start of a frame but not all of it, or that hold a frame above 16 MB. */
  ghost predicate Unreadable(s: seq<byte>, w: Wire) {
    w.Valid() && 2 <= |s| && (s < w.Octets() || (|w.frame.payload| > 16777216 && w.Octets() <= s))
  }

  lemma UnreadableBroken(s: seq<byte>, w: Wire)
    requires Unreadable(s, w)
    ensures Parse(s, RECEIVE_CAP) == Broken
  {
    if s < w.Octets() {
      ParseCut(w, s, RECEIVE_CAP);
    } else {
      assert s == w.Octets() + s[|w.Octets()|..];
      ParseTooLong(w, s[|w.Octets()|..], RECEIVE_CAP);
    }
  }

  /** A stream that ends inside a frame, or a frame above the cap, is told as ERROR and CLOSE 1006, in every run. */
  lemma BrokenStream(inbound: seq<byte>, acts: seq<Action>, s: State, w: Wire, more: seq<Action>, t: State)
    requires Reached(inbound, acts, s) && s.worker.pc.Waiting? && Unreadable(s.sock.inbound, w)
    requires Exec(Step(s, Receive), more) == Some(t) && !InLoop(t.worker.pc)
    ensures t.mail.enqueued == s.mail.enqueued + [Error, Close(1006, Ascii("receive failed"))]
  {
    UnreadableBroken(s.sock.inbound, w);
    ReachedReceive(inbound, acts, s);
    var k, r := FailureTheorem(inbound, acts + [Receive], Step(s, Receive), more, t);
  }

  /** A select that fails is told as ERROR and CLOSE 1006, in every run. */
  lemma FailedSelect(inbound: seq<byte>, acts: seq<Action>, s: State, more: seq<Action>, t: State)
    requires Reached(inbound, acts, s) && s.worker.pc.Waiting?
    requires Exec(Step(s, FailSelect), more) == Some(t) && !InLoop(t.worker.pc)
    ensures t.mail.enqueued == s.mail.enqueued + [Error, Close(1006, Ascii("select failed"))]
  {
    ExecSnoc(Init(inbound), acts, FailSelect);
    var k, r := FailureTheorem(inbound, acts + [FailSelect], Step(s, FailSelect), more, t);
  }

  /** A select that is interrupted leaves no trace: unless destroy was asked for, the worker is back where it was. */
  lemma InterruptedSelect(inbound: seq<byte>, acts: seq<Action>, s: State)
    requires Reached(inbound, acts, s) && s.worker.pc.Waiting? && !DestroyAsked(acts)
    ensures Exec(s, [Interrupted, CheckDestroy]) == Some(s)
  {
    RequestTheorem(inbound, acts, s);
    var t := Step(s, Interrupted);
    assert Exec(s, []) == Some(s);
    ExecSnoc(s, [], Interrupted);
    ExecSnoc(s, [Interrupted], CheckDestroy);
    assert [] + [Interrupted] == [Interrupted] && [Interrupted] + [CheckDestroy] == [Interrupted, CheckDestroy];
  }

  // ---------- why the worker leaves ----------------------------------------

  predicate EndsLoop(a: Action) {
    a.ConnectFailed? || a.Report? || a.ReportClose?
  }

  ghost predicate Ended(acts: seq<Action>) {
    exists i :: 0 <= i < |acts| && EndsLoop(acts[i])
  }

  lemma EndedLast(acts: seq<Action>)
    requires acts != []
    ensures Ended(acts) <==> Ended(acts[..|acts| - 1]) || EndsLoop(acts[|acts| - 1])
  {
    var init, a := acts[..|acts| - 1], acts[|acts| - 1];
    assert forall i :: 0 <= i < |acts| ==> acts[i] == if i < |init| then init[i] else a;
  }

  predicate Gone(pc: Pc) {
    pc.LoopLeft? || pc.SockClosing? || pc.Exited?
  }

  lemma GoneStep(s: State, a: Action)
    requires Enabled(s, a) && Gone(Step(s, a).worker.pc)
    ensures Gone(s.worker.pc) || EndsLoop(a) || (a.CheckDestroy? && s.ws.destroyRequested)
  {
    if !IsWorker(a) { ClientStep(s, a); }
  }

  /** The worker leaves its loop only if destroy was asked for, the connection failed, or a failure or a Close came. */
  lemma {:induction false} LeavesOnlyIf(inbound: seq<byte>, acts: seq<Action>, s: State)
    requires Reached(inbound, acts, s) && Gone(s.worker.pc)
    ensures DestroyAsked(acts) || Ended(acts)
  {
    if acts != [] {
      var init, a := acts[..|acts| - 1], acts[|acts| - 1];
      var u := Exec(Init(inbound), init).value;
      GoneStep(u, a);
      AskedLast(acts);
      EndedLast(acts);
      if Gone(u.worker.pc) {
        LeavesOnlyIf(inbound, init, u);
      } else if !EndsLoop(a) {
        RequestTheorem(inbound, init, u);
      }
    }
  }

  // ---------- a run that reads everything ----------------------------------

  /** The worker is at the top of its loop, has dispatched n frames, and nobody has asked for anything. */
  ghost predicate Going(inbound: seq<byte>, acts: seq<Action>, s: State, n: nat, rest: seq<byte>) {
    && Reached(inbound, acts, s) && s.worker.pc.LoopTop? && |s.worker.got| == n && s.sock.inbound == rest
    && !CloseAsked(acts) && !DestroyAsked(acts)
  }

  lemma QuietNext(acts: seq<Action>, a: Action)
    requires !CloseAsked(acts) && !DestroyAsked(acts) && IsWorker(a)
    ensures !CloseAsked(acts + [a]) && !DestroyAsked(acts + [a])
  {
    assert (acts + [a])[..|acts|] == acts;
    AskedLast(acts + [a]);
  }

  lemma ComesUpQuietly(inbound: seq<byte>, io: Io) returns (acts: seq<Action>, s: State)
    requires |io.key| == 4
    ensures Going(inbound, acts, s, 0, inbound)
  {
    acts, s := [] + [Opened(io)], Step(Init(inbound), Opened(io));
    ExecSnoc(Init(inbound), [], Opened(io));
    QuietNext([], Opened(io));
  }

  /** To select: nobody has asked for destroy. */
  lemma GoesToSelect(inbound: seq<byte>, acts: seq<Action>, s: State, n: nat, rest: seq<byte>) returns (t: State)
    requires Going(inbound, acts, s, n, rest)
    ensures var more := acts + [CheckDestroy];
      && Reached(inbound, more, t) && t.worker.pc.Waiting? && |t.worker.got| == n && t.sock.inbound == rest
      && !CloseAsked(more) && !DestroyAsked(more) && t.mail.enqueued == s.mail.enqueued
  {
    t := Step(s, CheckDestroy);
    RequestTheorem(inbound, acts, s);
    ExecSnoc(Init(inbound), acts, CheckDestroy);
    QuietNext(acts, CheckDestroy);
  }

  lemma ReadsFrame(inbound: seq<byte>, acts: seq<Action>, s: State, w: Wire, rest: seq<byte>) returns (t: State)
    requires w.Valid() && |w.frame.payload| <= RECEIVE_CAP
    requires Reached(inbound, acts, s) && s.worker.pc.Waiting? && s.sock.inbound == w.Octets() + rest
    ensures Reached(inbound, acts + [Receive], t) && t.worker.pc == Dispatching(w.frame)
    ensures t.worker.got == s.worker.got && t.sock.inbound == rest
  {
    t := Step(s, Receive);
    ReachedReceive(inbound, acts, s);
    ParseOctets(w, rest, RECEIVE_CAP);
    assert (w.Octets() + rest)[|w.Octets()|..] == rest;
  }

  lemma HandlesFrame(inbound: seq<byte>, acts: seq<Action>, s: State, f: Received, io: Io) returns (t: State)
    requires Reached(inbound, acts, s) && s.worker.pc == Dispatching(f) && f.opcode != OP_CLOSE && |io.key| == 4
    ensures Reached(inbound, acts + [Dispatch(io)], t) && t.worker.pc.LoopTop?
    ensures |t.worker.got| == |s.worker.got| + 1 && t.sock.inbound == s.sock.inbound
  {
    t := Step(s, Dispatch(io));
    ExecSnoc(Init(inbound), acts, Dispatch(io));
  }

  lemma ReadsOne(inbound: seq<byte>, acts: seq<Action>, s: State, n: nat, w: Wire, all: seq<byte>, rest: seq<byte>,
                 io: Io)
    returns (more: seq<Action>, t: State)
    requires w.Valid() && |w.frame.payload| <= RECEIVE_CAP && w.frame.opcode != OP_CLOSE
    requires Going(inbound, acts, s, n, all) && all == w.Octets() + rest && |io.key| == 4
    ensures Going(inbound, more, t, n + 1, rest)
  {
    t := GoesToSelect(inbound, acts, s, n, all);
    more := acts + [CheckDestroy];
    t := ReadsFrame(inbound, more, t, w, rest);
    QuietNext(more, Receive);
    more := more + [Receive];
    t := HandlesFrame(inbound, more, t, w.frame, io);
    QuietNext(more, Dispatch(io));
    more := more + [Dispatch(io)];
  }

  ghost predicate Readable(ws: seq<Wire>) {
    forall i :: 0 <= i < |ws| ==>
      ws[i].Valid() && |ws[i].frame.payload| <= RECEIVE_CAP && ws[i].frame.opcode != OP_CLOSE
  }

  lemma OctetsRest(ws: seq<Wire>)
    requires Readable(ws) && ws != []
    ensures seq(|ws|, i requires 0 <= i < |ws| => ws[i].Octets())[1..]
         == seq(|ws[1..]|, i requires 0 <= i < |ws[1..]| => ws[1..][i].Octets())
  {
  }

  lemma StreamNext(ws: seq<Wire>)
    requires Readable(ws) && ws != []
    ensures StreamOf(ws) == ws[0].Octets() + StreamOf(ws[1..])
  {
    FlattenCons(seq(|ws|, i requires 0 <= i < |ws| => ws[i].Octets()));
    OctetsRest(ws);
  }

  lemma {:induction false} ReadsAll(inbound: seq<byte>, acts: seq<Action>, s: State, n: nat, ws: seq<Wire>,
                                    rest: seq<byte>, io: Io)
    returns (more: seq<Action>, t: State)
    requires Readable(ws) && Going(inbound, acts, s, n, StreamOf(ws) + rest) && |io.key| == 4
    ensures Going(inbound, more, t, n + |ws|, rest)
    decreases |ws|
  {
    more, t := acts, s;
    if ws == [] {
      assert StreamOf(ws) + rest == rest;
    } else {
      more, t := ReadsFirst(inbound, acts, s, n, ws, rest, io);
      more, t := ReadsAll(inbound, more, t, n + 1, ws[1..], rest, io);
    }
  }

  lemma ReadsFirst(inbound: seq<byte>, acts: seq<Action>, s: State, n: nat, ws: seq<Wire>, rest: seq<byte>, io: Io)
    returns (more: seq<Action>, t: State)
    requires Readable(ws) && ws != [] && Going(inbound, acts, s, n, StreamOf(ws) + rest) && |io.key| == 4
    ensures Going(inbound, more, t, n + 1, StreamOf(ws[1..]) + rest)
  {
    StreamSplit(ws, rest);
    more, t := ReadsOne(inbound, acts, s, n, ws[0], StreamOf(ws) + rest, StreamOf(ws[1..]) + rest, io);
  }

  lemma StreamSplit(ws: seq<Wire>, rest: seq<byte>)
    requires Readable(ws) && ws != []
    ensures StreamOf(ws) + rest == ws[0].Octets() + (StreamOf(ws[1..]) + rest)
  {
    StreamNext(ws);
    Reassociate(StreamOf(ws), ws[0].Octets(), StreamOf(ws[1..]), rest);
  }

  lemma Reassociate(all: seq<byte>, a: seq<byte>, b: seq<byte>, c: seq<byte>)
    requires all == a + b
    ensures all + c == a + (b + c)
  {
  }

  /** Whatever frames within the cap a peer sends, short of a Close frame, some run dispatches all of them. */
  lemma AllDispatched(ws: seq<Wire>, io: Io) returns (acts: seq<Action>, s: State)
    requires Readable(ws) && |io.key| == 4
    ensures Going(StreamOf(ws), acts, s, |ws|, []) && s.worker.got == FramesOf(ws)
  {
    acts, s := ComesUpQuietly(StreamOf(ws), io);
    assert StreamOf(ws) + [] == StreamOf(ws);
    acts, s := ReadsAll(StreamOf(ws), acts, s, 0, ws, [], io);
    StreamTheorem(ws, acts, s);
  }

  lemma {:induction false} OpenThenMessages(es: seq<Event>)
    requires OpenRun(es)
    ensures es == [Open] + Messages(es)
  {
    var init, e := es[..|es| - 1], es[|es| - 1];
    if |es| == 1 {
      assert Messages(init) == [];
    } else {
      OpenThenMessages(init);
      assert es == init + [e];
    }
  }

  /**
   A whole session: the peer sends messages, in fragments and with other frames in between, and then ends the stream.
   There is a run to the worker's exit that tells OPEN, each message, and CLOSE 1006, and nothing else.
   */
  lemma WholeSession(ws: seq<Wire>, groups: seq<seq<Frame>>, io: Io) returns (acts: seq<Action>, s: State)
    requires Readable(ws) && FramesOf(ws) == Flatten(groups) && AllMessages(groups) && |io.key| == 4
    ensures Reached(StreamOf(ws), acts, s) && s.worker.pc.Exited?
    ensures s.mail.enqueued == [Open] + AllEvents(groups) + [Close(1006, Ascii("connection closed"))]
  {
    var before, u := AllTold(ws, groups, io);
    u := GoesToSelect(StreamOf(ws), before, u, |ws|, []);
    before := before + [CheckDestroy];
    s := EndsRun(StreamOf(ws), before, u);
    acts := before + [Receive] + [Report] + [Leave] + [Release];
    QuietEnd(StreamOf(ws), before, u, s);
  }

  lemma AllTold(ws: seq<Wire>, groups: seq<seq<Frame>>, io: Io) returns (acts: seq<Action>, s: State)
    requires Readable(ws) && FramesOf(ws) == Flatten(groups) && AllMessages(groups) && |io.key| == 4
    ensures Going(StreamOf(ws), acts, s, |ws|, []) && s.mail.enqueued == [Open] + AllEvents(groups)
  {
    acts, s := AllDispatched(ws, io);
    TranscriptTheorem(ws, groups, acts, s);
    SafeReached(StreamOf(ws), acts, s);
    EventTheorem(StreamOf(ws), acts, s);
    OpenThenMessages(s.mail.enqueued);
  }

  lemma QuietEnd(inbound: seq<byte>, acts: seq<Action>, s: State, t: State)
    requires Reached(inbound, acts, s) && s.worker.pc.Waiting? && s.sock.inbound == [] && !CloseAsked(acts)
    requires !DestroyAsked(acts)
    requires Exec(Step(s, Receive), [Report] + [Leave] + [Release]) == Some(t) && t.worker.pc.Exited?
    ensures t.mail.enqueued == s.mail.enqueued + [Close(1006, Ascii("connection closed"))]
  {
    var more := [Report] + [Leave] + [Release];
    var k := EndOfStream(inbound, acts, s, more, t);
    QuietNext(acts, Receive);
    assert more[1] == Leave && more[2] == Release && k == 0;
    assert acts + [Receive] + more[..0] == acts + [Receive];
  }

  lemma EndsRun(inbound: seq<byte>, acts: seq<Action>, s: State) returns (t: State)
    requires Reached(inbound, acts, s) && s.worker.pc.Waiting? && s.sock.inbound == []
    ensures Reached(inbound, acts + [Receive] + [Report] + [Leave] + [Release], t) && t.worker.pc.Exited?
    ensures Exec(Step(s, Receive), [Report] + [Leave] + [Release]) == Some(t)
  {
    var u := Step(s, Receive);
    ReachedReceive(inbound, acts, s);
    assert Exec(u, []) == Some(u) && [] + [Report] == [Report];
    ExecSnoc(u, [], Report);
    ExecSnoc(u, [Report], Leave);
    ExecSnoc(u, [Report] + [Leave], Release);
    t := Step(Step(Step(u, Report), Leave), Release);
    ReachedOn(inbound, acts + [Receive], u, [Report] + [Leave] + [Release], t);
    assert acts + [Receive] + ([Report] + [Leave] + [Release]) == acts + [Receive] + [Report] + [Leave] + [Release];
  }

  // ---------- a connection that never comes up -----------------------------

  ghost predicate Failed(acts: seq<Action>, why: seq<byte>) {
    exists i :: 0 <= i < |acts| && acts[i] == ConnectFailed(why)
  }

  lemma FailedLast(acts: seq<Action>, why: seq<byte>)
    requires acts != []
    ensures Failed(acts, why) <==> Failed(acts[..|acts| - 1], why) || acts[|acts| - 1] == ConnectFailed(why)
  {
    var init, a := acts[..|acts| - 1], acts[|acts| - 1];
    assert forall i :: 0 <= i < |acts| ==> acts[i] == if i < |init| then init[i] else a;
  }

  lemma ConnectingQuiet(inbound: seq<byte>, acts: seq<Action>, s: State)
    requires Reached(inbound, acts, s) && s.worker.pc.Connecting?
    ensures s.mail.enqueued == []
  {
    EventTheorem(inbound, acts, s);
    SafeReached(inbound, acts, s);
    EventGrammar(s.mail.enqueued, Done);
  }

  /** A connection that fails is told as ERROR and CLOSE 1006 with the text of the failure: two events, in every run. */
  lemma {:induction false} FailedConnection(inbound: seq<byte>, acts: seq<Action>, s: State, why: seq<byte>)
    requires Reached(inbound, acts, s) && Failed(acts, why)
    ensures s.worker.pc.Exited? && s.mail.enqueued == [Error, Close(1006, why)] && s.ws.closeEmitted
  {
    var init, a := acts[..|acts| - 1], acts[|acts| - 1];
    var u := Exec(Init(inbound), init).value;
    FailedLast(acts, why);
    SafeReached(inbound, init, u);
    if Failed(init, why) {
      FailedConnection(inbound, init, u, why);
      SilentStep(u, a);
      if !IsWorker(a) { ClientStep(u, a); }
    } else {
      ConnectingQuiet(inbound, init, u);
    }
  }

  // ---------- a destroy that ends the loop ---------------------------------

  /** On the way out after destroy has been seen: CLOSE 1006 is about to be enqueued, or has been. */
  ghost predicate LeavingPath(s: State, t: State) {
    if t.worker.pc.LoopLeft? then t.mail.enqueued == s.mail.enqueued && !t.ws.closeEmitted
    else
      && (t.worker.pc.SockClosing? || t.worker.pc.Exited?) && t.ws.closeEmitted
      && t.mail.enqueued == s.mail.enqueued + [Close(1006, Ascii("connection closed"))]
  }

  lemma LeavingStep(s: State, t: State, a: Action)
    requires Control(t) && Enabled(t, a) && LeavingPath(s, t)
    ensures LeavingPath(s, Step(t, a))
  {
    if t.ws.closeEmitted { SilentStep(t, a); }
    if !IsWorker(a) {
      ClientStep(t, a);
      ClientMail(t, a);
    }
  }

  /** Destroy. A worker that finds destroy asked for at the top of its loop tells CLOSE 1006 and nothing else. */
  lemma DestroyedLoop(inbound: seq<byte>, acts: seq<Action>, s: State, more: seq<Action>, t: State)
    requires Reached(inbound, acts, s) && s.worker.pc.LoopTop? && DestroyAsked(acts)
    requires Exec(Step(s, CheckDestroy), more) == Some(t)
    ensures LeavingPath(s, t)
  {
    RequestTheorem(inbound, acts, s);
    SafeReached(inbound, acts, s);
    ExecSnoc(Init(inbound), acts, CheckDestroy);
    var u := Step(s, CheckDestroy);
    var path := (run: seq<Action>, v: State) => LeavingPath(s, v);
    forall init: seq<Action>, v: State, a: Action
      | Continues(u, init, v, a) && path(init, v)
      ensures path(init + [a], Step(v, a))
    {
      SafeOn(inbound, acts + [CheckDestroy], u, init, v);
      LeavingStep(s, v, a);
    }
    RunInduction(u, more, t, path);
  }

  // ---------- the echo -----------------------------------------------------

  ghost predicate Echoed(o: Outgoing) {
    !o.failed ==> |o.sent| > 0 && o.sent[|o.sent| - 1].Received() == Frame(true, OP_CLOSE, [])
  }

  ghost predicate EchoPath(s: State, t: State) {
    if InLoop(t.worker.pc) then t.worker.pc == s.worker.pc || t.worker.pc.ClosingBy?
    else t.ws.closeEmitted && Echoed(t.out)
  }

  lemma EchoStep(s: State, t: State, a: Action)
    requires s.worker.pc.Dispatching? && s.worker.pc.frame.opcode == OP_CLOSE
    requires Control(t) && Enabled(t, a) && EchoPath(s, t)
    ensures EchoPath(s, Step(t, a))
  {
    if t.ws.closeEmitted {
      SilentStep(t, a);
      ControlStep(t, a);
    } else if !IsWorker(a) {
      ClientStep(t, a);
    } else if a.ReportClose? {
      EchoSent(t, a.io);
    }
  }

  lemma EchoSent(t: State, io: Io)
    requires Control(t) && t.worker.pc.ClosingBy? && |io.key| == 4
    ensures Echoed(StepReportClose(t, io).out) && StepReportClose(t, io).ws.closeEmitted
  {
    assert Sendable(OP_CLOSE, [], io);
    assert StepReportClose(t, io).out == Transmit(t.out, OP_CLOSE, [], io);
  }

  /** The last frame on the decoded wire is an empty Close frame once the worker has left the loop on a peer's Close. */
  lemma EchoTheorem(inbound: seq<byte>, acts: seq<Action>, s: State, more: seq<Action>, t: State)
    requires Reached(inbound, acts, s) && Exec(s, more) == Some(t)
    requires s.worker.pc.Dispatching? && s.worker.pc.frame.opcode == OP_CLOSE
    ensures !InLoop(t.worker.pc) && !t.out.failed ==>
      var fs := ParseAll(t.out.bytes, SIZE_LIMIT).0; |fs| > 0 && fs[|fs| - 1] == Frame(true, 8, [])
  {
    EchoRun(inbound, acts, s, more, t);
    ReachedOn(inbound, acts, s, more, t);
    if !t.out.failed { WireTheorem(inbound, acts + more, t); }
  }

  lemma EchoRun(inbound: seq<byte>, acts: seq<Action>, s: State, more: seq<Action>, t: State)
    requires Reached(inbound, acts, s) && Exec(s, more) == Some(t)
    requires s.worker.pc.Dispatching? && s.worker.pc.frame.opcode == OP_CLOSE
    ensures EchoPath(s, t)
  {
    var path := (run: seq<Action>, v: State) => EchoPath(s, v);
    forall init: seq<Action>, v: State, a: Action
      | Continues(s, init, v, a) && path(init, v)
      ensures path(init + [a], Step(v, a))
    {
      SafeOn(inbound, acts, s, init, v);
      EchoStep(s, v, a);
    }
    RunInduction(s, more, t, path);
  }

  // ---------- polling ------------------------------------------------------

  /** Between enqueuing and polling nothing is missing, and the structure is still there. */
  ghost predicate Pollable(s: State) {
    !s.freed && s.mail.taken + s.mail.queue == s.mail.enqueued
  }

  lemma TakesNext(m: Mail)
    requires m.taken + m.queue == m.enqueued
    ensures TakeFirst(m).taken == m.enqueued[..Min(|m.taken| + 1, |m.enqueued|)]
    ensures TakeFirst(m).enqueued == m.enqueued && TakeFirst(m).taken + TakeFirst(m).queue == m.enqueued
  {
    if m.queue == [] {
      assert m.taken + [] == m.taken;
    } else {
      assert m.enqueued[|m.taken|] == m.queue[0];
    }
  }

  lemma PollNext(s: State)
    requires Pollable(s)
    ensures Enabled(s, Poll) && Pollable(Step(s, Poll)) && Step(s, Poll).mail.enqueued == s.mail.enqueued
    ensures Step(s, Poll).mail.taken == s.mail.enqueued[..Min(|s.mail.taken| + 1, |s.mail.enqueued|)]
  {
    TakesNext(s.mail);
  }

  function Polls(n: nat): seq<Action> {
    if n == 0 then [] else Polls(n - 1) + [Poll]
  }

  lemma TakesMore(taken: nat, n: nat, es: seq<Event>, got: seq<Event>)
    requires got == es[..Min(taken + n, |es|)]
    ensures es[..Min(|got| + 1, |es|)] == es[..Min(taken + n + 1, |es|)]
  {
  }

  lemma {:induction false} PollsTake(s: State, n: nat) returns (t: State)
    requires Pollable(s)
    ensures Exec(s, Polls(n)) == Some(t) && Pollable(t) && t.mail.enqueued == s.mail.enqueued
    ensures t.mail.taken == s.mail.enqueued[..Min(|s.mail.taken| + n, |s.mail.enqueued|)]
  {
    if n == 0 {
      t := s;
    } else {
      var u := PollsTake(s, n - 1);
      PollNext(u);
      TakesMore(|s.mail.taken|, n - 1, s.mail.enqueued, u.mail.taken);
      ExecSnoc(s, Polls(n - 1), Poll);
      t := Step(u, Poll);
    }
  }

  /**
   Polling. In every reached state before destroy has emptied the queue, n polls take the next n events, in the order in
   which they were enqueued, or all that are left.
   */
  lemma PollTheorem(inbound: seq<byte>, acts: seq<Action>, s: State, n: nat) returns (t: State)
    requires Reached(inbound, acts, s) && !s.mail.discarded && !s.freed
    ensures Exec(s, Polls(n)) == Some(t) && t.mail.enqueued == s.mail.enqueued
    ensures t.mail.taken == s.mail.enqueued[..Min(|s.mail.taken| + n, |s.mail.enqueued|)]
  {
    EventTheorem(inbound, acts, s);
    t := PollsTake(s, n);
  }
}
