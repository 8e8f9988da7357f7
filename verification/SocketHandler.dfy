/**
 The reading side in the source's own form: the decoders over an IoBuffer, the extraction loop of
 SocketHandler::onData and the read loop of SocketLoop::handleRead, each tied to the functions of Framing.
 */
module SocketHandlers {
  import opened Bytes
  import opened IoBuffers
  import opened Framing

  /** PacketProtocolLen::encode(const string&). */
  method Encode(payload: seq<Byte>) returns (buffer: IoBuffer)
    requires |payload| + 4 < U32
    ensures fresh(buffer) && buffer.Valid() && fresh(buffer.data)
    ensures buffer.capacity == |payload| + 4
    ensures buffer.Contents() == Frame(Length(U32 - 1), payload)
  {
    var bufferLen := |payload| + 4;
    buffer := new IoBuffer(bufferLen);
    buffer.PushWord(bufferLen);
    buffer.PushBack(payload);
  }

  /** The accumulation loop of PacketProtocolLen::decode. */
  method ReadHeader(buffer: IoBuffer, ghost b: seq<Byte>) returns (bufferLen: nat)
    requires buffer.Valid() && buffer.Contents() == b && |b| >= 4
    ensures bufferLen == Header(b)
  {
    bufferLen := 0;
    var i := 0;
    while i < 4
      invariant 0 <= i <= 4
      invariant i == 0 ==> bufferLen == 0
      invariant i == 1 ==> bufferLen == b[0] as int * 0x100_0000
      invariant i == 2 ==> bufferLen == b[0] as int * 0x100_0000 + b[1] as int * 0x1_0000
      invariant i == 3 ==> bufferLen == b[0] as int * 0x100_0000 + b[1] as int * 0x1_0000 + b[2] as int * 0x100
      invariant i == 4 ==> bufferLen == Header(b)
    {
      var weight: int := if i == 0 then 0x100_0000 else if i == 1 then 0x1_0000 else if i == 2 then 0x100 else 1;
      bufferLen := bufferLen + buffer.data[buffer.head + i] as int * weight;
      assert buffer.data[buffer.head + i] == b[i];
      i := i + 1;
    }
  }

  /**
   PacketProtocolLen::decode on contents `b`. `at` is where in the array the packet starts; the array itself is not
   touched.
   */
  method DecodeLength(maxLen: nat, buffer: IoBuffer, ghost b: seq<Byte>) returns (d: Decoded, at: nat)
    requires buffer.Valid() && buffer.Contents() == b
    modifies buffer`head, buffer`tail
    ensures buffer.Valid()
    ensures d == DecodeLen(maxLen, b)
    ensures buffer.Contents() == if d.Packet? then b[d.used..] else b
    ensures Inside(d) ==>
              && at + d.size <= buffer.data.Length
              && buffer.data[at..at + d.size] == b[d.from..d.from + d.size]
  {
    at := 0;
    var len := buffer.Size();
    if len < 4 {
      return Less, at;
    }
    var bufferLen := ReadHeader(buffer, b);
    if bufferLen > maxLen {
      return Error, at;
    }
    if len < bufferLen {
      return Less, at;
    }
    at := buffer.head + 4;
    d := Packet(4, (bufferLen - 4) % U32, bufferLen);
    if Inside(d) {
      SliceOfSlice(buffer.data, buffer.head, buffer.tail, d.from, d.size);
    }
    buffer.ReadN(bufferLen);
  }

  /** PacketProtocolLine::decode on contents `b`. */
  method DecodeOneLine(maxLen: nat, buffer: IoBuffer, ghost b: seq<Byte>) returns (d: Decoded, at: nat)
    requires buffer.Valid() && buffer.Contents() == b
    modifies buffer`head, buffer`tail
    ensures buffer.Valid()
    ensures d == DecodeLine(maxLen, b, 0) && (d.Packet? ==> d.used <= |b|)
    ensures buffer.Contents() == if d.Packet? then b[d.used..] else b
    ensures Inside(d) ==>
              && at + d.size <= buffer.data.Length
              && buffer.data[at..at + d.size] == b[d.from..d.from + d.size]
  {
    at := 0;
    var len := buffer.Size();
    LineShape(maxLen, b, 0);
    var i := 0;
    while i + 1 < len
      invariant buffer.Valid() && buffer.Contents() == b && buffer.head == old(buffer.head)
      invariant DecodeLine(maxLen, b, 0) == DecodeLine(maxLen, b, i)
      decreases len - i
    {
      var first, second := buffer.data[buffer.head + i], buffer.data[buffer.head + i + 1];
      assert first == b[i] && second == b[i + 1];
      if first == CR && second == LF {
        at := buffer.head;
        d := Packet(0, i, i + 2);
        SliceOfSlice(buffer.data, buffer.head, buffer.tail, 0, i);
        buffer.ReadN(i + 2);
        return;
      }
      if i >= maxLen {
        return Error, at;
      }
      i := i + 1;
    }
    d := Less;
  }

  /** What read(2) did: gave bytes (none of them: end of file), was interrupted, had none ready, or failed. */
  datatype ReadEvent = Data(bytes: seq<Byte>) | Interrupted | WouldBlock | Broken

  /** The bytes a read round takes in; the round ends at the first event that is neither data nor an interruption. */
  ghost function RoundBytes(events: seq<ReadEvent>): seq<Byte> {
    if events == [] then []
    else match events[0]
      case Data(bytes) => if bytes == [] then [] else bytes + RoundBytes(events[1..])
      case Interrupted => RoundBytes(events[1..])
      case _ => []
  }

  /** Whether the round ends with nothing more to read, rather than at end of file or with an error. */
  ghost predicate RoundQuiet(events: seq<ReadEvent>) {
    if events == [] then true
    else match events[0]
      case Data(bytes) => bytes != [] && RoundQuiet(events[1..])
      case Interrupted => RoundQuiet(events[1..])
      case WouldBlock => true
      case Broken => false
  }

  /** An answer of read(2) after which the loop goes on. */
  predicate GoesOn(e: ReadEvent) {
    e.Interrupted? || (e.Data? && e.bytes != [])
  }

  ghost function DataOf(events: seq<ReadEvent>): seq<seq<Byte>> {
    if events == [] then [] else (if events[0].Data? then [events[0].bytes] else []) + DataOf(events[1..])
  }

  /**
   A round takes in the data up to the first answer that stops it, at `k`, and it ends quietly exactly when that answer
   is that nothing more is there.
   */
  lemma {:induction false} RoundMeans(events: seq<ReadEvent>, k: nat)
    requires k <= |events| && (k < |events| ==> !GoesOn(events[k])) && forall i :: 0 <= i < k ==> GoesOn(events[i])
    ensures RoundBytes(events) == Flatten(DataOf(events[..k]))
    ensures RoundQuiet(events) <==> k == |events| || events[k].WouldBlock?
  {
    if k > 0 {
      RoundMeans(events[1..], k - 1);
      assert events[..k][1..] == events[1..][..k - 1];
      if events[0].Data? {
        assert ([events[0].bytes] + DataOf(events[1..][..k - 1]))[1..] == DataOf(events[1..][..k - 1]);
      } else {
        assert [] + DataOf(events[1..][..k - 1]) == DataOf(events[1..][..k - 1]);
      }
    }
  }

  ghost function Weight(events: seq<ReadEvent>): nat {
    if events == [] then 0
    else (if events[0].Data? then |events[0].bytes| else 0) + 1 + Weight(events[1..])
  }

  /** How extraction ends on an answer that gives no packet inside its frame. */
  function Ending(d: Decoded): Verdict {
    match d
    case Less => More
    case Error => Failed
    case Packet(_, _, _) => Undefined
  }

  class SocketHandler {
    const framing: Framing
    /** The packets given to onPacket so far. */
    var delivered: seq<seq<Byte>>

    constructor (framing: Framing)
      ensures this.framing == framing && delivered == []
    {
      this.framing := framing;
      delivered := [];
    }

    method OnPacket(packet: seq<Byte>)
      modifies this`delivered
      ensures delivered == old(delivered) + [packet]
    {
      delivered := delivered + [packet];
    }

    /**
     One call of the parser this handler was given on contents `b`, and the packet it points at after consuming it, if
     that lies inside the frame.
     */
    method Parse(buffer: IoBuffer, ghost b: seq<Byte>, ghost answer: Decoded) returns (d: Decoded, packet: seq<Byte>)
      requires buffer.Valid() && buffer.Contents() == b && answer == Decode(framing, b)
      requires answer.Packet? ==> answer.used <= |b|
      modifies buffer`head, buffer`tail
      ensures buffer.Valid() && d == answer
      ensures buffer.Contents() == if d.Packet? then b[d.used..] else b
      ensures Inside(d) ==> packet == b[d.from..d.from + d.size]
    {
      packet := [];
      var at: nat;
      if framing.Length? {
        d, at := DecodeLength(framing.maxLen, buffer, b);
      } else {
        d, at := DecodeOneLine(framing.maxLen, buffer, b);
      }
      if Inside(d) {
        packet := buffer.data[at..at + d.size];
      }
    }

    /**
     One turn of the loop in onData: what is left to deliver goes from `due` to `later`, the buffer from `b` to `rest`.
     */
    method Turn(buffer: IoBuffer, ghost b: seq<Byte>, ghost due: Drained)
        returns (d: Decoded, ghost rest: seq<Byte>, ghost later: Drained)
      requires buffer.Valid() && buffer.Contents() == b && due == Drain(framing, b)
      modifies this`delivered, buffer`head, buffer`tail
      ensures buffer.Valid() && later == Drain(framing, rest)
      ensures later.verdict != Undefined ==> buffer.Contents() == rest
      ensures Inside(d) ==> buffer.Contents() == rest && |rest| < |b|
      ensures delivered + later.packets == old(delivered) + due.packets
      ensures later.verdict == due.verdict && later.rest == due.rest
      ensures !Inside(d) ==> later == Drained([], rest, Ending(d))
    {
      ghost var answer, first;
      answer, first, rest, later := LoopTurn(framing, b, due);
      var packet;
      d, packet := Parse(buffer, b, answer);
      if Inside(d) {
        OnPacket(packet);
        ConcatAssociates(old(delivered), [packet], later.packets);
      }
    }

    /**
     SocketHandler::onData: calls the parser until it wants more bytes or reports an error. It returns true for More
     and false for Failed; when the parser points outside the frame, what onPacket does is undefined.
     */
    method OnData(buffer: IoBuffer) returns (verdict: Verdict)
      requires buffer.Valid()
      modifies this`delivered, buffer`head, buffer`tail
      ensures buffer.Valid()
      ensures var d := old(Drain(framing, buffer.Contents()));
              && delivered == old(delivered) + d.packets
              && verdict == d.verdict
              && (verdict != Undefined ==> buffer.Contents() == d.rest)
    {
      ghost var b := buffer.Contents();
      ghost var all := Drain(framing, b);
      ghost var due;
      var d;
      d, b, due := Turn(buffer, b, all);
      while Inside(d)
        invariant buffer.Valid() && due == Drain(framing, b)
        invariant Inside(d) || due.verdict != Undefined ==> buffer.Contents() == b
        invariant delivered + due.packets == old(delivered) + all.packets
        invariant due.verdict == all.verdict && due.rest == all.rest
        invariant !Inside(d) ==> due == Drained([], b, Ending(d))
        decreases Inside(d), |b|
      {
        d, b, due := Turn(buffer, b, due);
      }
      verdict := Ending(d);
    }

    /** One read(2) that gives bytes: into the space behind the tail, then accepted. */
    method TakeIn(buffer: IoBuffer, bytes: seq<Byte>)
      requires buffer.Valid() && |bytes| <= buffer.capacity - buffer.tail
      modifies buffer`head, buffer`tail, buffer.data
      ensures buffer.Valid() && buffer.Contents() == old(buffer.Contents()) + bytes
      ensures buffer.tail == buffer.capacity ==> |buffer.Contents()| == buffer.capacity
    {
      buffer.Place(bytes);
      buffer.WriteN(|bytes|);
    }

    method MakeRoom(buffer: IoBuffer)
      requires buffer.Valid() && buffer.capacity >= 1
      requires buffer.tail == buffer.capacity ==> 2 * buffer.capacity < U32
      modifies buffer`data, buffer`capacity
      ensures buffer.Valid() && (buffer.data == old(buffer.data) || fresh(buffer.data))
      ensures buffer.tail < buffer.capacity && buffer.Contents() == old(buffer.Contents())
    {
      if buffer.capacity - buffer.tail == 0 {
        buffer.DoubleCapacity();
      }
    }

    /** One turn of the read loop in which the kernel has bytes: a full buffer doubles, then as much as fits is read. */
    method TakeChunk(buffer: IoBuffer, events: seq<ReadEvent>) returns (pending: seq<ReadEvent>)
      requires buffer.Valid() && buffer.capacity >= 1
      requires buffer.tail == buffer.capacity ==> 2 * buffer.capacity < U32
      requires events != [] && events[0].Data? && events[0].bytes != []
      modifies buffer, buffer.data
      ensures buffer.Valid() && buffer.capacity >= 1 && (buffer.data == old(buffer.data) || fresh(buffer.data))
      ensures buffer.tail == buffer.capacity ==> |buffer.Contents()| == buffer.capacity
      ensures buffer.Contents() + RoundBytes(pending) == old(buffer.Contents()) + RoundBytes(events)
      ensures RoundQuiet(pending) == RoundQuiet(events) && Weight(pending) < Weight(events)
    {
      MakeRoom(buffer);
      var bytes := events[0].bytes;
      var maxSize := buffer.capacity - buffer.tail;
      var readSize := if |bytes| <= maxSize then |bytes| else maxSize;
      SplitFirst(events, readSize);
      ConcatAssociates(buffer.Contents(), bytes[..readSize], RoundBytes(AfterRead(events, readSize)));
      TakeIn(buffer, bytes[..readSize]);
      pending := AfterRead(events, readSize);
    }

    /** The read loop of handleRead. */
    method Fill(buffer: IoBuffer, events: seq<ReadEvent>) returns (needClose: bool)
      requires buffer.Valid() && buffer.capacity >= 1
      requires buffer.tail == buffer.capacity ==> 2 * buffer.capacity < U32
      requires 2 * (|buffer.Contents()| + |RoundBytes(events)|) < U32
      modifies buffer, buffer.data
      ensures buffer.Valid()
      ensures needClose == !RoundQuiet(events)
      ensures buffer.Contents() == old(buffer.Contents()) + RoundBytes(events)
    {
      ghost var whole := buffer.Contents() + RoundBytes(events);
      var pending := events;
      while pending != [] && (pending[0].Interrupted? || (pending[0].Data? && pending[0].bytes != []))
        invariant buffer.Valid() && buffer.capacity >= 1 && (buffer.data == old(buffer.data) || fresh(buffer.data))
        invariant buffer.Contents() + RoundBytes(pending) == whole
        invariant buffer.tail == buffer.capacity ==> 2 * buffer.capacity < U32
        invariant RoundQuiet(pending) == RoundQuiet(events)
        decreases Weight(pending)
      {
        if pending[0].Interrupted? {
          pending := pending[1..];
        } else {
          pending := TakeChunk(buffer, pending);
        }
      }
      needClose := pending != [] && !pending[0].WouldBlock?;
    }

    /**
     SocketLoop::handleRead on a connected socket, which closes it for the verdict Failed. A round that ends quietly is
     one ReadRound of the reader; a round that ends at end of file or with an error closes the connection and drops
     the bytes it read.
     */
    method HandleRead(buffer: IoBuffer, events: seq<ReadEvent>) returns (verdict: Verdict)
      requires buffer.Valid() && buffer.capacity >= 1
      requires buffer.tail == buffer.capacity ==> 2 * buffer.capacity < U32
      requires 2 * (|buffer.Contents()| + |RoundBytes(events)|) < U32
      modifies this`delivered, buffer, buffer.data
      ensures buffer.Valid()
      ensures !RoundQuiet(events) ==> verdict == Failed && delivered == old(delivered)
      ensures var r := ReadRound(framing, Reader(old(delivered), old(buffer.Contents()), More), RoundBytes(events));
              RoundQuiet(events) ==>
                && delivered == r.delivered && verdict == r.verdict
                && (verdict != Undefined ==> buffer.Contents() == r.buffer)
    {
      var needClose := Fill(buffer, events);
      if needClose {
        return Failed;
      }
      verdict := OnData(buffer);
    }
  }

  lemma LoopTurn(f: Framing, b: seq<Byte>, due: Drained)
      returns (d: Decoded, first: seq<Byte>, rest: seq<Byte>, later: Drained)
    requires due == Drain(f, b)
    ensures d == Decode(f, b) && later == Drain(f, rest) && (d.Packet? ==> d.used <= |b|)
    ensures later.verdict == due.verdict && later.rest == due.rest
    ensures !Inside(d) ==> rest == b && later == due == Drained([], b, Ending(d))
    ensures Inside(d) ==> 0 < d.used && rest == b[d.used..]
    ensures Inside(d) ==> first == b[d.from..d.from + d.size] && due.packets == [first] + later.packets
  {
    d, first, rest, later := Decode(f, b), [], b, due;
    PacketShape(f, b);
    if Inside(d) {
      DrainPacket(f, b);
      first, rest := b[d.from..d.from + d.size], b[d.used..];
      later := Drain(f, rest);
    }
  }

  /** What the kernel still holds after giving `n` bytes of its first chunk. */
  function AfterRead(events: seq<ReadEvent>, n: nat): seq<ReadEvent>
    requires events != [] && events[0].Data? && n <= |events[0].bytes|
  {
    if n < |events[0].bytes| then [Data(events[0].bytes[n..])] + events[1..] else events[1..]
  }

  lemma SplitFirst(events: seq<ReadEvent>, n: nat)
    requires events != [] && events[0].Data? && 0 < n <= |events[0].bytes|
    ensures RoundBytes(events) == events[0].bytes[..n] + RoundBytes(AfterRead(events, n))
    ensures RoundQuiet(AfterRead(events, n)) == RoundQuiet(events)
    ensures Weight(AfterRead(events, n)) < Weight(events)
  {
    var bytes, rest := events[0].bytes, AfterRead(events, n);
    if n < |bytes| {
      assert rest[0] == Data(bytes[n..]) && rest[1..] == events[1..];
      assert RoundBytes(rest) == bytes[n..] + RoundBytes(events[1..]);
      assert bytes[..n] + (bytes[n..] + RoundBytes(events[1..])) == bytes + RoundBytes(events[1..]);
    } else {
      assert bytes[..n] == bytes && rest == events[1..];
    }
  }
}
