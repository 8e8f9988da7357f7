/**
 The whole sending path of one connection as a state machine: callers hand frames to ProxyEndPoint::send (or, on an
 accepted socket, to SocketLoop::send), commands travel through the LockQueue, and the net thread connects and
 writes. One occupancy of one socket slot: from the first frame to the close.
 */
module SendPath {
  import opened Bytes
  import opened Framing
  import opened SocketIo

  /** Outgoing connections are opened by the endpoint; accepted ones arrive connected. */
  datatype Kind = Outgoing | Accepted

  /** The commands of this socket in m_queue, oldest first. */
  datatype Cmd = Connect | Send(data: seq<Byte>)

  datatype Status = Unused | Connecting | InProgress | Connected | Dead

  /**
   `hasId` is m_connId != -1, `connected` m_connected and `buffer` m_buffer of the endpoint. `accepted` is the
   history of frames handed in, in the order in which the endpoint's mutex (or the queue's) let them in.
   */
  datatype Conn = Conn(
    hasId: bool, connected: bool, buffer: seq<Byte>, cmds: seq<Cmd>, status: Status, sock: Sock,
    accepted: seq<seq<Byte>>)

  function Initial(kind: Kind): Conn {
    match kind
    case Outgoing => Conn(false, false, [], [], Unused, Sock(true, [], [], UNKNOWN), [])
    case Accepted => Conn(true, true, [], [], Connected, Sock(true, [], [], AddToRead(UNKNOWN)), [])
  }

  datatype ConnectResult = Immediate | Pending | Refused

  datatype Event =
    | Submit(frame: seq<Byte>, slotFree: bool)
    | RunConnect(result: ConnectResult)
    | ConnectReady(ok: bool)
    | RunSend(script: seq<WriteEvent>)
    | WriteReady(script: seq<WriteEvent>)
    | ForceClose

  predicate Enabled(c: Conn, e: Event) {
    c.status != Dead &&
    match e
    case Submit(_, _) => true
    case RunConnect(_) => c.cmds != [] && c.cmds[0].Connect?
    case ConnectReady(_) => c.status == InProgress
    case RunSend(_) => c.cmds != [] && c.cmds[0].Send?
    case WriteReady(_) => c.status == Connected
    case ForceClose => true
  }

  /** ProxyEndPoint::send. Without a free slot connect() returns -1 and the bytes wait for the next attempt. */
  function Submitted(c: Conn, frame: seq<Byte>, slotFree: bool): Conn {
    var d := c.(accepted := c.accepted + [frame]);
    if c.connected then d.(cmds := c.cmds + [Send(frame)])
    else if c.hasId then d.(buffer := c.buffer + frame)
    else if !slotFree then d.(buffer := c.buffer + frame)
    else d.(buffer := c.buffer + frame, hasId := true, cmds := c.cmds + [Connect], status := Connecting)
  }

  /** ProxyEndPoint::onConnect: everything buffered so far becomes one send command. */
  function OnConnect(c: Conn): Conn {
    var d := c.(connected := true, status := Connected);
    if c.buffer == [] then d else d.(cmds := c.cmds + [Send(c.buffer)], buffer := [])
  }

  function Die(c: Conn): Conn {
    c.(hasId := false, connected := false, buffer := [], status := Dead, sock := Closed(c.sock))
  }

  function WithSock(c: Conn, sock: Sock): Conn {
    if sock.open then c.(sock := sock) else Die(c.(sock := sock))
  }

  function Repoll(c: Conn, poll: Poll): Conn {
    c.(sock := c.sock.(poll := poll))
  }

  function Apply(c: Conn, e: Event): Conn
    requires Enabled(c, e)
  {
    match e
    case Submit(frame, slotFree) => Submitted(c, frame, slotFree)
    case RunConnect(result) =>
      var d := c.(cmds := c.cmds[1..]);
      (match result
       case Immediate => Repoll(OnConnect(d), AddEvent(c.sock.poll, Interest(true, false)))
       case Pending => Repoll(d.(status := InProgress), AddEvent(c.sock.poll, Interest(false, true)))
       case Refused => Die(d))
    case ConnectReady(ok) =>
      if ok then
        Repoll(OnConnect(c), AddEvent(DelEvent(c.sock.poll, Interest(false, true)), Interest(true, false)))
      else Die(c)
    case RunSend(script) =>
      var d := c.(cmds := c.cmds[1..]);
      if c.status != Connected then d else WithSock(d, SendSocket(c.sock, c.cmds[0].data, script))
    case WriteReady(script) => WithSock(c, HandleWrite(c.sock, script))
    case ForceClose => Die(c)
  }

  ghost predicate Legal(c: Conn, run: seq<Event>)
    decreases |run|
  {
    run == [] || (Enabled(c, run[0]) && Legal(Apply(c, run[0]), run[1..]))
  }

  ghost function Final(c: Conn, run: seq<Event>): Conn
    requires Legal(c, run)
    decreases |run|
  {
    if run == [] then c else Final(Apply(c, run[0]), run[1..])
  }

  // ------------------------------------------------------------- invariants

  /** The bytes of the send commands waiting in the queue, in order. */
  function Queued(cmds: seq<Cmd>): seq<Byte> {
    if cmds == [] then []
    else (if cmds[0].Send? then cmds[0].data else []) + Queued(cmds[1..])
  }

  lemma {:induction false} QueuedSnoc(cmds: seq<Cmd>, last: Cmd)
    ensures Queued(cmds + [last]) == Queued(cmds) + if last.Send? then last.data else []
  {
    if cmds == [] {
      assert [] + [last] == [last] && Queued([]) == [];
      assert Queued([last]) == (if last.Send? then last.data else []) + Queued([last][1..]);
    } else {
      var first, end := if cmds[0].Send? then cmds[0].data else [], if last.Send? then last.data else [];
      QueuedSnoc(cmds[1..], last);
      assert (cmds + [last])[0] == cmds[0] && (cmds + [last])[1..] == cmds[1..] + [last];
      ConcatAssociates(first, Queued(cmds[1..]), end);
    }
  }

  /** Everything handed in and not yet on the wire, in sending order. */
  function Backlog(c: Conn): seq<Byte> {
    Owed(c.sock) + (Queued(c.cmds) + c.buffer)
  }

  /** How the endpoint's fields, the command queue and the socket status fit together. */
  ghost predicate Coherent(c: Conn) {
    && c.sock.open
    && (c.connected <==> c.status == Connected)
    && (c.connected ==> c.buffer == [])
    && (!c.connected ==> c.sock.queue == [] && c.sock.wire == [])
    && (c.connected ==> forall i :: 0 <= i < |c.cmds| ==> c.cmds[i].Send?)
    && (!c.connected ==> c.cmds == if c.status == Connecting then [Connect] else [])
    && (c.hasId <==> c.status != Unused)
  }

  /** Where the poller stands before and after the connection is up. */
  ghost predicate PollFits(c: Conn) {
    match c.status
    case Unused => c.sock.poll == UNKNOWN
    case Connecting => c.sock.poll == UNKNOWN
    case InProgress => c.sock.poll == Poll(Interest(false, true), Some(Interest(false, true)))
    case Connected => Armed(c.sock)
    case Dead => true
  }

  ghost predicate Conserved(c: Conn) {
    c.sock.wire + Backlog(c) == Flatten(c.accepted)
  }

  ghost predicate Inv(c: Conn) {
    && c.sock.wire <= Flatten(c.accepted)
    && (c.status != Dead ==> Coherent(c) && PollFits(c) && Conserved(c))
  }

  lemma SubmitAddsToBacklog(c: Conn, frame: seq<Byte>, slotFree: bool)
    requires c.connected ==> c.buffer == []
    ensures Backlog(Submitted(c, frame, slotFree)) == Backlog(c) + frame
  {
    if c.connected {
      QueuedSnoc(c.cmds, Send(frame));
    } else if !c.hasId && slotFree {
      QueuedSnoc(c.cmds, Connect);
    }
  }

  lemma SubmitKeeps(c: Conn, frame: seq<Byte>, slotFree: bool)
    requires Inv(c) && c.status != Dead
    ensures Inv(Submitted(c, frame, slotFree))
  {
    var d := Submitted(c, frame, slotFree);
    assert Flatten(d.accepted) == Flatten(c.accepted) + frame by {
      FlattenSnoc(c.accepted, frame);
    }
    assert Backlog(d) == Backlog(c) + frame by {
      SubmitAddsToBacklog(c, frame, slotFree);
    }
    ConcatAssociates(c.sock.wire, Backlog(c), frame);
  }

  lemma OnConnectKeepsBacklog(c: Conn)
    requires c.cmds == []
    ensures Backlog(OnConnect(c)) == Backlog(c)
    ensures forall i :: 0 <= i < |OnConnect(c).cmds| ==> OnConnect(c).cmds[i].Send?
  {
    if c.buffer != [] {
      QueuedSnoc([], Send(c.buffer));
      assert [] + [Send(c.buffer)] == [Send(c.buffer)];
    }
  }

  lemma RunConnectKeeps(c: Conn, result: ConnectResult)
    requires Inv(c) && Enabled(c, RunConnect(result))
    ensures Inv(Apply(c, RunConnect(result)))
  {
    var d := c.(cmds := c.cmds[1..]);
    assert c.cmds == [Connect] && d.cmds == [];
    assert Backlog(d) == Backlog(c);
    if result.Immediate? {
      OnConnectKeepsBacklog(d);
    }
  }

  lemma ConnectReadyKeeps(c: Conn, ok: bool)
    requires Inv(c) && Enabled(c, ConnectReady(ok))
    ensures Inv(Apply(c, ConnectReady(ok)))
  {
    assert c.cmds == [];
    if ok {
      OnConnectKeepsBacklog(c);
    }
  }

  lemma RunSendKeeps(c: Conn, script: seq<WriteEvent>)
    requires Inv(c) && Enabled(c, RunSend(script))
    ensures Inv(Apply(c, RunSend(script)))
  {
    assert c.status == Connected;
    var data, rest := c.cmds[0].data, Queued(c.cmds[1..]);
    var sock := SendSocket(c.sock, data, script);
    SendSocketMoves(c.sock, data, script);
    SendSocketArmed(c.sock, data, script);
    assert Backlog(c) == Owed(c.sock) + data + rest;
    MoveKeeps(c, data, rest, sock);
  }

  lemma WriteReadyKeeps(c: Conn, script: seq<WriteEvent>)
    requires Inv(c) && Enabled(c, WriteReady(script))
    ensures Inv(Apply(c, WriteReady(script)))
  {
    var sock := HandleWrite(c.sock, script);
    HandleWriteMoves(c.sock, script);
    HandleWriteArmed(c.sock, script);
    assert Backlog(c) == Owed(c.sock) + [] + Queued(c.cmds);
    MoveKeeps(c, [], Queued(c.cmds), sock);
  }

  /** Moving bytes from the backlog to the wire keeps both the order and the sum. */
  lemma MoveKeeps(c: Conn, data: seq<Byte>, rest: seq<Byte>, sock: Sock)
    requires c.sock.wire + (Owed(c.sock) + data + rest) == Flatten(c.accepted)
    requires Moves(c.sock, data, sock)
    ensures sock.wire <= Flatten(c.accepted)
    ensures sock.open ==> sock.wire + (Owed(sock) + rest) == Flatten(c.accepted)
  {
    ConcatAssociates(c.sock.wire, Owed(c.sock) + data, rest);
    ConcatAssociates(sock.wire, Owed(sock), rest);
  }

  lemma StepKeeps(c: Conn, e: Event)
    requires Inv(c) && Enabled(c, e)
    ensures Inv(Apply(c, e))
  {
    match e
    case Submit(frame, slotFree) => SubmitKeeps(c, frame, slotFree);
    case RunConnect(result) => RunConnectKeeps(c, result);
    case ConnectReady(ok) => ConnectReadyKeeps(c, ok);
    case RunSend(script) => RunSendKeeps(c, script);
    case WriteReady(script) => WriteReadyKeeps(c, script);
    case ForceClose =>
  }

  lemma {:induction false} RunKeeps(c: Conn, run: seq<Event>)
    requires Inv(c) && Legal(c, run)
    ensures Inv(Final(c, run))
    decreases |run|
  {
    if run != [] {
      StepKeeps(c, run[0]);
      RunKeeps(Apply(c, run[0]), run[1..]);
    }
  }

  lemma InitialHolds(kind: Kind)
    ensures Inv(Initial(kind))
  {
  }

  // --------------------------------------------------------------- theorems

  /**
   For every pattern of partial writes, EAGAIN and EINTR and every interleaving of senders with the net thread:
   while the connection lives, the bytes on the wire, in the socket's write queue, in the queued send commands and in
   the endpoint's buffer are, in this order, exactly the bytes handed in. Whatever happens, the wire never carries
   anything but a prefix of them, so frames of concurrent callers never interleave.
   */
  lemma BytesConserved(kind: Kind, run: seq<Event>)
    requires Legal(Initial(kind), run)
    ensures var c := Final(Initial(kind), run);
            && c.sock.wire <= Flatten(c.accepted)
            && (c.status != Dead ==> c.sock.wire + (Owed(c.sock) + (Queued(c.cmds) + c.buffer)) == Flatten(c.accepted))
  {
    InitialHolds(kind);
    RunKeeps(Initial(kind), run);
  }

  /**
   Pending output cannot be forgotten: in every reachable state of a connected socket, accepted or outgoing, a
   non-empty write queue has write interest armed in the kernel.
   */
  lemma PendingOutputArmed(kind: Kind, run: seq<Event>)
    requires Legal(Initial(kind), run)
    ensures var c := Final(Initial(kind), run);
            c.status == Connected && c.sock.queue != [] ==> c.sock.poll.kernel.Some? && c.sock.poll.kernel.value.write
  {
    InitialHolds(kind);
    RunKeeps(Initial(kind), run);
  }

  /** Until the connection closes, a queued send command finds it up: it is only queued once the socket is connected. */
  lemma SendsFindAConnection(kind: Kind, run: seq<Event>, i: nat)
    requires Legal(Initial(kind), run)
    requires var c := Final(Initial(kind), run); c.status != Dead && i < |c.cmds| && c.cmds[i].Send?
    ensures Final(Initial(kind), run).status == Connected
  {
    InitialHolds(kind);
    RunKeeps(Initial(kind), run);
  }

  /**
   One ordered byte stream cut into frames: when callers hand in the frames of `payloads`, then after every run of the
   sender, however its bytes are cut into read rounds, the receiver has been given a prefix of `payloads`, in order
   and whole, and its connection is not in error; and it has been given all of them once nothing is left to send.
   */
  lemma FramesArriveWhole(kind: Kind, run: seq<Event>, f: Framing, payloads: seq<seq<Byte>>, rounds: seq<seq<Byte>>)
    requires Legal(Initial(kind), run) && AllFit(f, payloads)
    requires var c := Final(Initial(kind), run);
             && |c.accepted| == |payloads|
             && (forall i :: 0 <= i < |payloads| ==> c.accepted[i] == Frame(f, payloads[i]))
             && Flatten(rounds) == c.sock.wire
    ensures var c, r := Final(Initial(kind), run), ReadRounds(f, NEW_READER, rounds);
            && r.verdict == More && r.delivered <= payloads
            && (c.status != Dead && Backlog(c) == [] ==> r.delivered == payloads)
  {
    var c := Final(Initial(kind), run);
    BytesConserved(kind, run);
    FramesAreFlat(f, payloads, c.accepted);
    ReassemblyIgnoresChunking(f, rounds);
    FramesPrefixDrain(f, payloads, c.sock.wire);
    if c.status != Dead && Backlog(c) == [] {
      assert c.sock.wire + [] == c.sock.wire;
      FramesDrain(f, payloads);
    }
  }

  // ------------------------------------------------------- the connection survives

  ghost predicate NothingFatal(script: seq<WriteEvent>) {
    forall i :: 0 <= i < |script| ==> !Fatal(script[i])
  }

  /** Nothing goes wrong: connecting succeeds, write(2) does not fail, nobody closes, and frames are not empty. */
  ghost predicate Benign(e: Event) {
    match e
    case Submit(frame, _) => frame != []
    case RunConnect(result) => result != Refused
    case ConnectReady(ok) => ok
    case RunSend(script) => NothingFatal(script)
    case WriteReady(script) => NothingFatal(script)
    case ForceClose => false
  }

  ghost predicate AllBenign(run: seq<Event>) {
    forall i :: 0 <= i < |run| ==> Benign(run[i])
  }

  ghost predicate NoneEmpty(buffers: seq<seq<Byte>>) {
    forall i :: 0 <= i < |buffers| ==> buffers[i] != []
  }

  ghost predicate Alive(c: Conn) {
    && Inv(c) && c.status != Dead && NoneEmpty(c.sock.queue)
    && forall i :: 0 <= i < |c.cmds| && c.cmds[i].Send? ==> c.cmds[i].data != []
  }

  lemma {:induction false} SendNowNoneEmpty(s: Sock, data: seq<Byte>, script: seq<WriteEvent>)
    requires NoneEmpty(s.queue)
    ensures NoneEmpty(SendNow(s, data, script).queue)
    decreases |script|
  {
    if data != [] && script != [] {
      if script[0].Interrupted? {
        SendNowNoneEmpty(s, data, script[1..]);
      } else if script[0].Wrote? {
        var n := Taken(script[0].n, data);
        SendNowNoneEmpty(s.(wire := s.wire + data[..n]), data[n..], script[1..]);
      }
    }
  }

  lemma {:induction false} HandleWriteNoneEmpty(s: Sock, script: seq<WriteEvent>)
    requires NoneEmpty(s.queue)
    ensures NoneEmpty(HandleWrite(s, script).queue)
    decreases |script|
  {
    if s.open && s.queue != [] && script != [] {
      if script[0].Interrupted? {
        HandleWriteNoneEmpty(s, script[1..]);
      } else if script[0].Wrote? {
        HandleWriteNoneEmpty(AfterWrite(s, Taken(script[0].n, s.queue[0])), script[1..]);
      }
    }
  }

  lemma HandleWriteSurvives(s: Sock, script: seq<WriteEvent>)
    requires s.open && NoneEmpty(s.queue) && NothingFatal(script)
    ensures HandleWrite(s, script).open && NoneEmpty(HandleWrite(s, script).queue)
  {
    HandleWriteClosesIff(s, script);
    HandleWriteNoneEmpty(s, script);
    forall k: nat | k < |script| ensures !FatalInQueue(s, script, k) {
      HandleWriteNoneEmpty(s, script[..k]);
    }
  }

  lemma SendSocketSurvives(s: Sock, data: seq<Byte>, script: seq<WriteEvent>)
    requires s.open && NoneEmpty(s.queue) && data != [] && NothingFatal(script)
    ensures SendSocket(s, data, script).open && NoneEmpty(SendSocket(s, data, script).queue)
  {
    SendSocketClosesIff(s, data, script);
    SendNowNoneEmpty(s, data, script);
  }

  lemma StepSurvives(c: Conn, e: Event)
    requires Alive(c) && Enabled(c, e) && Benign(e)
    ensures Alive(Apply(c, e))
  {
    StepKeeps(c, e);
    match e
    case RunSend(script) => SendSocketSurvives(c.sock, c.cmds[0].data, script);
    case WriteReady(script) => HandleWriteSurvives(c.sock, script);
    case _ =>
  }

  lemma {:induction false} RunSurvives(c: Conn, run: seq<Event>)
    requires Alive(c) && Legal(c, run) && AllBenign(run)
    ensures Alive(Final(c, run))
    decreases |run|
  {
    if run != [] {
      StepSurvives(c, run[0]);
      RunSurvives(Apply(c, run[0]), run[1..]);
    }
  }

  /** A connection only closes for a reason: no run in which nothing goes wrong reaches the closed state. */
  lemma BenignRunSurvives(kind: Kind, run: seq<Event>)
    requires Legal(Initial(kind), run) && AllBenign(run)
    ensures var c := Final(Initial(kind), run); c.status != Dead && c.sock.open
  {
    InitialHolds(kind);
    RunSurvives(Initial(kind), run);
  }

  /** A closed connection has left nothing behind: the endpoint starts afresh, and the poller knows nothing of it. */
  ghost predicate Reset(c: Conn) {
    && !c.hasId && !c.connected && c.buffer == []
    && !c.sock.open && c.sock.queue == [] && c.sock.poll == UNKNOWN
  }

  lemma {:induction false} ClosedIsReset(c: Conn, run: seq<Event>)
    requires Legal(c, run) && (c.status == Dead ==> Reset(c))
    ensures Final(c, run).status == Dead ==> Reset(Final(c, run))
    decreases |run|
  {
    if run != [] {
      ClosedIsReset(Apply(c, run[0]), run[1..]);
    }
  }

  // --------------------------------------------------------- everything can arrive

  lemma Then(c: Conn, e: Event, run: seq<Event>)
    requires Enabled(c, e) && Legal(Apply(c, e), run)
    ensures Legal(c, [e] + run) && Final(c, [e] + run) == Final(Apply(c, e), run)
  {
    assert ([e] + run)[1..] == run;
  }

  /** A run of the net thread alone after which nothing is left to send. */
  ghost predicate Flushes(c: Conn, run: seq<Event>) {
    && Legal(c, run) && AllBenign(run)
    && Final(c, run).accepted == c.accepted && Final(c, run).sock.wire == Flatten(c.accepted)
  }

  /** Enough room for everything that is queued. */
  function Room(n: nat): seq<WriteEvent> {
    seq(n, _ => Wrote(1))
  }

  lemma FlushQueue(c: Conn) returns (run: seq<Event>)
    requires Alive(c) && c.status == Connected && c.cmds == []
    ensures Flushes(c, run)
  {
    var e := WriteReady(Room(|Owed(c.sock)|));
    RoomDrainsQueue(c.sock, e.script);
    StepSurvives(c, e);
    Then(c, e, []);
    run := [e] + [];
    assert Backlog(Apply(c, e)) == [];
    assert Apply(c, e).sock.wire + [] == Apply(c, e).sock.wire;
  }

  lemma {:induction false} FlushCommands(c: Conn) returns (run: seq<Event>)
    requires Alive(c) && c.status == Connected
    ensures Flushes(c, run)
    decreases |c.cmds|
  {
    if c.cmds == [] {
      run := FlushQueue(c);
    } else {
      var e := RunSend([]);
      StepSurvives(c, e);
      var rest := FlushCommands(Apply(c, e));
      Then(c, e, rest);
      run := [e] + rest;
    }
  }

  /** Whatever has been handed in can still arrive: nothing is stuck anywhere on the path. */
  lemma Flush(c: Conn) returns (run: seq<Event>)
    requires Alive(c) && c.status != Unused
    ensures Flushes(c, run)
  {
    if c.status == Connected {
      run := FlushCommands(c);
    } else {
      var e := if c.status == Connecting then RunConnect(Immediate) else ConnectReady(true);
      StepSurvives(c, e);
      var rest := FlushCommands(Apply(c, e));
      Then(c, e, rest);
      run := [e] + rest;
    }
  }

  /**
   Nothing is stuck: after any run in which nothing went wrong and one more frame for which there is a free slot, the
   net thread can bring every byte handed in so far onto the wire.
   */
  lemma EverythingCanArrive(kind: Kind, before: seq<Event>, frame: seq<Byte>) returns (run: seq<Event>)
    requires Legal(Initial(kind), before) && AllBenign(before) && frame != []
    ensures Enabled(Final(Initial(kind), before), Submit(frame, true))
    ensures var c := Apply(Final(Initial(kind), before), Submit(frame, true)); Flushes(c, run)
  {
    InitialHolds(kind);
    RunSurvives(Initial(kind), before);
    var c := Final(Initial(kind), before);
    StepSurvives(c, Submit(frame, true));
    run := Flush(Apply(c, Submit(frame, true)));
  }
}
