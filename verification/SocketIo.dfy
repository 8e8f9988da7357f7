/**
 The writing side of one socket: the interest table of source/net/socket_poller.cpp and the partial-write loops of
 source/net/socket_loop.cpp.
 */
module SocketIo {
  import opened Bytes

  // ------------------------------------------------------------------ poller

  datatype Interest = Interest(read: bool, write: bool)

  const NONE := Interest(false, false)

  /** What the poller and the kernel know about one descriptor: the mask in m_fdEvent, and the epoll registration. */
  datatype Poll = Poll(mask: Interest, kernel: Option<Interest>)

  const UNKNOWN := Poll(NONE, None)

  /** EPOLL_CTL_ADD fails on a registered descriptor, EPOLL_CTL_MOD on one that is not. */
  function CtlAdd(kernel: Option<Interest>, wanted: Interest): Option<Interest> {
    if kernel.None? then Some(wanted) else kernel
  }

  function CtlMod(kernel: Option<Interest>, wanted: Interest): Option<Interest> {
    if kernel.Some? then Some(wanted) else kernel
  }

  function AddToRead(p: Poll): Poll {
    p.(kernel := CtlAdd(p.kernel, Interest(true, false)))
  }

  function AddToWrite(p: Poll, enable: bool): Poll {
    p.(kernel := CtlMod(p.kernel, Interest(true, enable)))
  }

  function AddEvent(p: Poll, e: Interest): Poll {
    var mask := Interest(p.mask.read || e.read, p.mask.write || e.write);
    Poll(mask, if p.mask == NONE then CtlAdd(p.kernel, mask) else CtlMod(p.kernel, mask))
  }

  function DelEvent(p: Poll, e: Interest): Poll {
    var mask := Interest(p.mask.read && !e.read, p.mask.write && !e.write);
    if p.mask == NONE then p
    else Poll(mask, if mask == NONE then None else CtlMod(p.kernel, mask))
  }

  function DelAll(p: Poll): Poll {
    if p.mask == NONE then p else UNKNOWN
  }

  // ----------------------------------------------------------------- writing

  /** What write(2) did: took `n` bytes (at most what it was given), had no room, was interrupted, or failed. */
  datatype WriteEvent = Wrote(n: nat) | Blocked | Interrupted | Broken

  /**
   A connected socket: `queue` is writeBuffer (the unsent rest of each buffer), `wire` everything the kernel has
   taken. After forceClose `open` is false.
   */
  datatype Sock = Sock(open: bool, queue: seq<seq<Byte>>, wire: seq<Byte>, poll: Poll)

  /** forceClose: close(2) takes the descriptor out of epoll, the queue is freed and the mask entry cleared. */
  function Closed(s: Sock): (t: Sock)
    ensures t.poll == UNKNOWN
  {
    Sock(false, [], s.wire, DelAll(s.poll.(kernel := None)))
  }

  function Taken(n: nat, data: seq<Byte>): nat {
    if n <= |data| then n else |data|
  }

  /** The loop of sendSocket: tries to write `data` at once. A script that runs out has no more room. */
  function SendNow(s: Sock, data: seq<Byte>, script: seq<WriteEvent>): Sock
    decreases |script|
  {
    if data == [] then s
    else if script == [] || script[0].Blocked? then
      s.(poll := AddToWrite(s.poll, true), queue := s.queue + [data])
    else if script[0].Interrupted? then SendNow(s, data, script[1..])
    else if script[0].Broken? || script[0].n == 0 then Closed(s)
    else
      var n := Taken(script[0].n, data);
      SendNow(s.(wire := s.wire + data[..n]), data[n..], script[1..])
  }

  function SendSocket(s: Sock, data: seq<Byte>, script: seq<WriteEvent>): Sock {
    if !s.open then s
    else if s.queue != [] then s.(queue := s.queue + [data])
    else SendNow(s, data, script)
  }

  /** The loop of handleWrite: drains the queue front first. Writing zero bytes closes the connection. */
  function HandleWrite(s: Sock, script: seq<WriteEvent>): Sock
    decreases |script|
  {
    if !s.open then s
    else if s.queue == [] then s.(poll := DelEvent(s.poll, Interest(false, true)))
    else if script == [] || script[0].Blocked? then s
    else if script[0].Interrupted? then HandleWrite(s, script[1..])
    else if script[0].Broken? || script[0].n == 0 || s.queue[0] == [] then Closed(s)
    else
      var n := Taken(script[0].n, s.queue[0]);
      var rest := s.queue[0][n..];
      HandleWrite(s.(wire := s.wire + s.queue[0][..n],
                     queue := (if rest == [] then [] else [rest]) + s.queue[1..]), script[1..])
  }

  // -------------------------------------------------------- order and conservation

  /** What is still owed to the wire. */
  function Owed(s: Sock): seq<Byte> {
    Flatten(s.queue)
  }

  /**
   From `s` to `t`, with `data` handed in behind what was queued: the wire only grows, by a prefix of what was owed;
   and unless the connection was closed, what is owed afterwards is exactly the rest.
   */
  ghost predicate Moves(s: Sock, data: seq<Byte>, t: Sock) {
    && s.wire <= t.wire <= s.wire + (Owed(s) + data)
    && (t.open ==> t.wire + Owed(t) == s.wire + (Owed(s) + data))
  }

  lemma MovesThen(s: Sock, data: seq<Byte>, step: seq<Byte>, mid: Sock, rest: seq<Byte>, t: Sock)
    requires mid.wire == s.wire + step && Owed(s) + data == step + (Owed(mid) + rest)
    requires Moves(mid, rest, t)
    ensures Moves(s, data, t)
  {
    ConcatAssociates(s.wire, step, Owed(mid) + rest);
  }

  lemma {:induction false} SendNowMoves(s: Sock, data: seq<Byte>, script: seq<WriteEvent>)
    requires s.open && s.queue == []
    ensures Moves(s, data, SendNow(s, data, script))
    decreases |script|
  {
    if data == [] {
    } else if script == [] || script[0].Blocked? {
      assert Flatten([] + [data]) == data by { FlattenSnoc([], data); }
    } else if script[0].Interrupted? {
      SendNowMoves(s, data, script[1..]);
    } else if script[0].Broken? || script[0].n == 0 {
    } else {
      var n := Taken(script[0].n, data);
      var mid := s.(wire := s.wire + data[..n]);
      SendNowMoves(mid, data[n..], script[1..]);
      assert data == data[..n] + ([] + data[n..]);
      MovesThen(s, data, data[..n], mid, data[n..], SendNow(mid, data[n..], script[1..]));
    }
  }

  /** sendSocket neither loses, repeats nor reorders bytes. */
  lemma SendSocketMoves(s: Sock, data: seq<Byte>, script: seq<WriteEvent>)
    requires s.open
    ensures Moves(s, data, SendSocket(s, data, script))
  {
    if s.queue != [] {
      FlattenSnoc(s.queue, data);
    } else {
      SendNowMoves(s, data, script);
    }
  }

  function AfterWrite(s: Sock, n: nat): Sock
    requires s.queue != [] && n <= |s.queue[0]|
  {
    var rest := s.queue[0][n..];
    s.(wire := s.wire + s.queue[0][..n], queue := (if rest == [] then [] else [rest]) + s.queue[1..])
  }

  lemma AfterWriteOwed(s: Sock, n: nat)
    requires s.queue != [] && n <= |s.queue[0]|
    ensures Owed(s) == s.queue[0][..n] + Owed(AfterWrite(s, n))
  {
    var front, rest, tail := s.queue[0], s.queue[0][n..], s.queue[1..];
    assert front == front[..n] + rest;
    if rest == [] {
      assert [] + tail == tail;
    } else {
      assert ([rest] + tail)[1..] == tail;
      ConcatAssociates(front[..n], rest, Flatten(tail));
    }
  }

  /** handleWrite neither loses, repeats nor reorders bytes. */
  lemma {:induction false} HandleWriteMoves(s: Sock, script: seq<WriteEvent>)
    requires s.open
    ensures Moves(s, [], HandleWrite(s, script))
    decreases |script|
  {
    assert Owed(s) + [] == Owed(s);
    if s.queue == [] || script == [] || script[0].Blocked? {
    } else if script[0].Interrupted? {
      HandleWriteMoves(s, script[1..]);
    } else if script[0].Broken? || script[0].n == 0 || s.queue[0] == [] {
    } else {
      var n := Taken(script[0].n, s.queue[0]);
      var mid := AfterWrite(s, n);
      HandleWriteMoves(mid, script[1..]);
      AfterWriteOwed(s, n);
      assert Owed(mid) + [] == Owed(mid);
      MovesThen(s, [], s.queue[0][..n], mid, [], HandleWrite(mid, script[1..]));
    }
  }

  /** A write event that always has room flushes the whole queue, if no empty buffer was queued. */
  lemma {:induction false} RoomDrainsQueue(s: Sock, script: seq<WriteEvent>)
    requires s.open && |script| >= |Owed(s)|
    requires forall i :: 0 <= i < |s.queue| ==> s.queue[i] != []
    requires forall i :: 0 <= i < |script| ==> script[i].Wrote? && script[i].n > 0
    ensures var t := HandleWrite(s, script); t.open && t.queue == [] && t.wire == s.wire + Owed(s)
    decreases |script|
  {
    if s.queue != [] {
      assert |Owed(s)| >= |s.queue[0]|;
      var n := Taken(script[0].n, s.queue[0]);
      AfterWriteOwed(s, n);
      RoomDrainsQueue(AfterWrite(s, n), script[1..]);
      ConcatAssociates(s.wire, s.queue[0][..n], Owed(AfterWrite(s, n)));
    }
  }

  // --------------------------------------------------------- when writing closes

  /** An answer of write(2) after which the connection is closed. */
  predicate Fatal(e: WriteEvent) {
    e.Broken? || (e.Wrote? && e.n == 0)
  }

  /** How many bytes the first events offer to take. */
  function Offered(script: seq<WriteEvent>): nat {
    if script == [] then 0 else (if script[0].Wrote? then script[0].n else 0) + Offered(script[1..])
  }

  /** Event `k` is fatal, nothing stopped the loop before it, and not all of the `size` bytes had been taken by then. */
  predicate FatalAt(script: seq<WriteEvent>, size: nat, k: nat) {
    && k < |script| && Fatal(script[k]) && Offered(script[..k]) < size
    && forall j :: 0 <= j < k ==> !Fatal(script[j]) && !script[j].Blocked?
  }

  ghost predicate Dies(script: seq<WriteEvent>, size: nat) {
    exists k: nat :: FatalAt(script, size, k)
  }

  /** Past an event that is not the end, the question is the same about the rest. */
  lemma FatalLater(script: seq<WriteEvent>, size: nat)
    requires script != [] && !Fatal(script[0]) && !script[0].Blocked?
    ensures var n := if !script[0].Wrote? then 0 else if script[0].n <= size then script[0].n else size;
            Dies(script, size) <==> Dies(script[1..], size - n)
  {
    var rest := script[1..];
    var n: nat := if !script[0].Wrote? then 0 else if script[0].n <= size then script[0].n else size;
    var left: nat := size - n;
    forall k: nat | FatalAt(script, size, k) ensures k > 0 && FatalAt(rest, left, k - 1) {
      assert script[..k][1..] == rest[..k - 1];
    }
    forall k: nat | FatalAt(rest, left, k) ensures FatalAt(script, size, k + 1) {
      assert script[..k + 1][1..] == rest[..k];
    }
  }

  lemma {:induction false} SendNowClosesIff(s: Sock, data: seq<Byte>, script: seq<WriteEvent>)
    requires s.open
    ensures !SendNow(s, data, script).open <==> Dies(script, |data|)
    decreases |script|
  {
    if data != [] && script != [] && !script[0].Blocked? {
      if Fatal(script[0]) {
        assert FatalAt(script, |data|, 0);
      } else {
        var n := if script[0].Wrote? then Taken(script[0].n, data) else 0;
        SendNowClosesIff(s.(wire := s.wire + data[..n]), data[n..], script[1..]);
        assert data[0..] == data && s.wire + data[..0] == s.wire;
        FatalLater(script, |data|);
      }
    }
  }

  /**
   Exactly when sending closes the connection: it tries to write at once, and a fatal answer comes before write(2) has
   taken everything or has no more room.
   */
  lemma SendSocketClosesIff(s: Sock, data: seq<Byte>, script: seq<WriteEvent>)
    requires s.open
    ensures !SendSocket(s, data, script).open <==> s.queue == [] && Dies(script, |data|)
  {
    if s.queue == [] {
      SendNowClosesIff(s, data, script);
    }
  }

  /** A fatal answer for the front buffer `front`: an empty buffer makes write(2) take nothing. */
  predicate FatalFor(e: WriteEvent, front: seq<Byte>) {
    Fatal(e) || (e.Wrote? && front == [])
  }

  /** Event `k` is fatal: nothing blocked before it, and the events before it have not drained the queue. */
  predicate FatalInQueue(s: Sock, script: seq<WriteEvent>, k: nat) {
    && k < |script| && (forall j :: 0 <= j < k ==> !script[j].Blocked?)
    && var t := HandleWrite(s, script[..k]); t.open && t.queue != [] && FatalFor(script[k], t.queue[0])
  }

  ghost predicate DiesInQueue(s: Sock, script: seq<WriteEvent>) {
    exists k: nat :: FatalInQueue(s, script, k)
  }

  lemma FatalInQueueLater(s: Sock, script: seq<WriteEvent>, mid: Sock)
    requires s.open && s.queue != [] && script != [] && !script[0].Blocked? && !FatalFor(script[0], s.queue[0])
    requires mid == if script[0].Interrupted? then s else AfterWrite(s, Taken(script[0].n, s.queue[0]))
    ensures DiesInQueue(s, script) <==> DiesInQueue(mid, script[1..])
  {
    var rest := script[1..];
    forall k: nat | FatalInQueue(s, script, k) ensures k > 0 && FatalInQueue(mid, rest, k - 1) {
      assert k > 0 by {
        assert script[..0] == [];
      }
      assert script[..k][1..] == rest[..k - 1];
    }
    forall k: nat | FatalInQueue(mid, rest, k) ensures FatalInQueue(s, script, k + 1) {
      assert script[..k + 1][1..] == rest[..k];
    }
  }

  /** Exactly when a write event closes the connection. */
  lemma {:induction false} HandleWriteClosesIff(s: Sock, script: seq<WriteEvent>)
    requires s.open
    ensures !HandleWrite(s, script).open <==> DiesInQueue(s, script)
    decreases |script|
  {
    if s.queue == [] || script == [] || script[0].Blocked? {
      assert forall k: nat :: k < |script| ==> HandleWrite(s, script[..k]).queue == [] || script[0].Blocked?;
      assert script != [] ==> script[..0] == [];
    } else if FatalFor(script[0], s.queue[0]) {
      assert script[..0] == [];
      assert FatalInQueue(s, script, 0);
    } else {
      var mid := if script[0].Interrupted? then s else AfterWrite(s, Taken(script[0].n, s.queue[0]));
      HandleWriteClosesIff(mid, script[1..]);
      FatalInQueueLater(s, script, mid);
    }
  }

  // ----------------------------------------------------------- write interest

  /**
   A connected socket is registered for reading, and its mask is either empty (an accepted socket, registered by
   addToRead behind the mask table's back) or read-only (an outgoing one).
   */
  ghost predicate Registered(p: Poll) {
    && p.kernel.Some? && p.kernel.value.read
    && (p.mask == NONE || p.mask == Interest(true, false))
  }

  /** Pending output cannot be forgotten: a non-empty write queue has write interest armed. */
  ghost predicate Armed(s: Sock) {
    s.open ==> Registered(s.poll) && (s.queue != [] ==> s.poll.kernel.value.write)
  }

  lemma {:induction false} SendNowArmed(s: Sock, data: seq<Byte>, script: seq<WriteEvent>)
    requires s.open && s.queue == [] && Armed(s)
    ensures Armed(SendNow(s, data, script))
    decreases |script|
  {
    if data != [] && script != [] {
      if script[0].Interrupted? {
        SendNowArmed(s, data, script[1..]);
      } else if script[0].Wrote? && script[0].n > 0 {
        var n := Taken(script[0].n, data);
        SendNowArmed(s.(wire := s.wire + data[..n]), data[n..], script[1..]);
      }
    }
  }

  lemma SendSocketArmed(s: Sock, data: seq<Byte>, script: seq<WriteEvent>)
    requires Armed(s)
    ensures Armed(SendSocket(s, data, script))
  {
    if s.open && s.queue == [] {
      SendNowArmed(s, data, script);
    }
  }

  lemma {:induction false} HandleWriteArmed(s: Sock, script: seq<WriteEvent>)
    requires Armed(s)
    ensures Armed(HandleWrite(s, script))
    decreases |script|
  {
    if s.open && s.queue != [] && script != [] {
      if script[0].Interrupted? {
        HandleWriteArmed(s, script[1..]);
      } else if script[0].Wrote? && script[0].n > 0 && s.queue[0] != [] {
        HandleWriteArmed(AfterWrite(s, Taken(script[0].n, s.queue[0])), script[1..]);
      }
    }
  }

  /**
   A drained socket is not asked about writing again: an outgoing one is registered for reading only; an accepted one,
   which the mask table does not know, keeps its registration.
   */
  lemma {:induction false} DrainedDisarms(s: Sock, script: seq<WriteEvent>)
    requires Armed(s) && s.open
    ensures var t := HandleWrite(s, script);
            t.open && t.queue == [] ==>
              t.poll == if s.poll.mask == NONE then s.poll else Poll(s.poll.mask, Some(Interest(true, false)))
    decreases |script|
  {
    if s.queue != [] && script != [] {
      if script[0].Interrupted? {
        DrainedDisarms(s, script[1..]);
      } else if script[0].Wrote? && script[0].n > 0 && s.queue[0] != [] {
        DrainedDisarms(AfterWrite(s, Taken(script[0].n, s.queue[0])), script[1..]);
      }
    }
  }

  // --------------------------------------------------------------- the loops

  class Socket {
    var open: bool
    /** writeBuffer. */
    var queue: seq<seq<Byte>>
    /** Everything write(2) has taken. */
    var wire: seq<Byte>
    var poll: Poll

    constructor (poll: Poll)
      ensures View() == Sock(true, [], [], poll)
    {
      open, queue, wire, this.poll := true, [], [], poll;
    }

    function View(): Sock
      reads this
    {
      Sock(open, queue, wire, poll)
    }

    method ForceClose()
      modifies this
      ensures View() == Closed(old(View()))
    {
      queue := [];
      poll := DelAll(poll.(kernel := None));
      open := false;
    }

    /** sendSocket. `script` is what write(2) will answer. */
    method Send(data: seq<Byte>, script: seq<WriteEvent>)
      modifies this
      ensures View() == SendSocket(old(View()), data, script)
    {
      if !open {
        return;
      }
      if queue != [] {
        queue := queue + [data];
        return;
      }
      var rest, i, needClose, blocked := data, 0, false, false;
      ghost var goal := SendNow(View(), data, script);
      while !needClose && !blocked && rest != []
        invariant 0 <= i <= |script|
        invariant blocked ==> i == |script| || script[i].Blocked?
        invariant needClose ==> i < |script| && (script[i].Broken? || (script[i].Wrote? && script[i].n == 0))
        invariant open && queue == [] && poll == old(poll)
        invariant needClose || blocked ==> rest != []
        invariant SendNow(View(), rest, script[i..]) == goal
        decreases |script| - i, if needClose || blocked then 0 else 1
      {
        if i == |script| || script[i].Blocked? {
          blocked := true;
        } else if script[i].Broken? || (script[i].Wrote? && script[i].n == 0) {
          needClose := true;
        } else {
          assert script[i..][1..] == script[i + 1..];
          if script[i].Wrote? {
            var n := Taken(script[i].n, rest);
            wire := wire + rest[..n];
            rest := rest[n..];
          }
          i := i + 1;
        }
      }
      if needClose {
        ForceClose();
      } else if rest != [] {
        poll := AddToWrite(poll, true);
        queue := queue + [rest];
      }
    }

    /** handleWrite on a connected socket. */
    method WriteReady(script: seq<WriteEvent>)
      modifies this
      ensures View() == HandleWrite(old(View()), script)
    {
      if !open {
        return;
      }
      ghost var goal := HandleWrite(View(), script);
      var i := 0;
      while queue != [] && i < |script| && !script[i].Blocked?
        invariant 0 <= i <= |script| && open
        invariant HandleWrite(View(), script[i..]) == goal
        decreases |script| - i
      {
        assert script[i..][1..] == script[i + 1..];
        if script[i].Broken? || (script[i].Wrote? && (script[i].n == 0 || queue[0] == [])) {
          ForceClose();
          return;
        }
        if script[i].Wrote? {
          var n := Taken(script[i].n, queue[0]);
          wire := wire + queue[0][..n];
          var rest := queue[0][n..];
          queue := (if rest == [] then [] else [rest]) + queue[1..];
        }
        i := i + 1;
      }
      if queue == [] {
        poll := DelEvent(poll, Interest(false, true));
      }
    }
  }
}
