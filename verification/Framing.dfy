/**
 The two packet framings of source/util/util_protocol.h and the extraction loop of
 source/net/socket_handler.cpp, as functions on byte sequences.
 */
module Framing {
  import opened Bytes
  import opened IoBuffers

  /** Which decoder a handler was given, with its template parameter maxLen. */
  datatype Framing = Length(maxLen: nat) | Line(maxLen: nat)

  /** What a decoder answers: the packet is `size` bytes at offset `from`, and `used` bytes are consumed. */
  datatype Decoded = Less | Error | Packet(from: nat, size: nat, used: nat)

  const CR: Byte := 13
  const LF: Byte := 10

  function Header(b: seq<Byte>): (r: nat)
    requires |b| >= 4
  {
    b[0] as int * 0x100_0000 + b[1] as int * 0x1_0000 + b[2] as int * 0x100 + b[3]
  }

  /** PacketProtocolLen::decode. The size is computed in 32 bits, so a header below 4 wraps around. */
  function DecodeLen(maxLen: nat, b: seq<Byte>): Decoded {
    if |b| < 4 then Less
    else if Header(b) > maxLen then Error
    else if |b| < Header(b) then Less
    else Packet(4, (Header(b) - 4) % U32, Header(b))
  }

  /** PacketProtocolLine::decode, from position `i` of its scan on. */
  function DecodeLine(maxLen: nat, b: seq<Byte>, i: nat): Decoded
    decreases |b| - i
  {
    if i + 1 >= |b| then Less
    else if b[i] == CR && b[i + 1] == LF then Packet(0, i, i + 2)
    else if i >= maxLen then Error
    else DecodeLine(maxLen, b, i + 1)
  }

  function Decode(f: Framing, b: seq<Byte>): Decoded {
    match f
    case Length(maxLen) => DecodeLen(maxLen, b)
    case Line(maxLen) => DecodeLine(maxLen, b, 0)
  }

  // ---------------------------------------------------------------- encoding

  /** PacketProtocolLen::encode, and the line terminator for the other framing. */
  function Frame(f: Framing, payload: seq<Byte>): seq<Byte>
    requires Fits(f, payload)
  {
    match f
    case Length(_) => WordBytes(|payload| + 4) + payload
    case Line(_) => payload + [CR, LF]
  }

  predicate CrlfAt(b: seq<Byte>, i: nat) {
    i + 1 < |b| && b[i] == CR && b[i + 1] == LF
  }

  /** The payloads a framing can carry. */
  ghost predicate Fits(f: Framing, payload: seq<Byte>) {
    match f
    case Length(maxLen) => |payload| + 4 <= maxLen && |payload| + 4 < U32
    case Line(maxLen) => |payload| <= maxLen && forall i: nat :: !CrlfAt(payload, i)
  }

  ghost predicate AllFit(f: Framing, payloads: seq<seq<Byte>>) {
    forall i :: 0 <= i < |payloads| ==> Fits(f, payloads[i])
  }

  ghost function Frames(f: Framing, payloads: seq<seq<Byte>>): seq<Byte>
    requires AllFit(f, payloads)
  {
    if payloads == [] then [] else Frame(f, payloads[0]) + Frames(f, payloads[1..])
  }

  // -------------------------------------------------------------- extraction

  /**
   How the extraction loop of onData ends: it needs more bytes, the decoder reported an error, or the decoder
   handed out a packet that is not inside the bytes it consumed (behaviour of the source is then undefined).
   */
  datatype Verdict = More | Failed | Undefined

  datatype Drained = Drained(packets: seq<seq<Byte>>, rest: seq<Byte>, verdict: Verdict)

  function Drain(f: Framing, b: seq<Byte>): Drained
    decreases |b|
  {
    match Decode(f, b)
    case Less => Drained([], b, More)
    case Error => Drained([], b, Failed)
    case Packet(from, size, used) =>
      if from + size > used then Drained([], b, Undefined)
      else
        PacketShape(f, b);
        var d := Drain(f, b[used..]);
        Drained([b[from..from + size]] + d.packets, d.rest, d.verdict)
  }

  lemma {:induction false} LineShape(maxLen: nat, b: seq<Byte>, i: nat)
    ensures var d := DecodeLine(maxLen, b, i);
            d.Packet? ==> d.from == 0 && i <= d.size && d.used == d.size + 2 <= |b|
    decreases |b| - i
  {
    if i + 1 < |b| && !(b[i] == CR && b[i + 1] == LF) && i < maxLen {
      LineShape(maxLen, b, i + 1);
    }
  }

  /** Every packet consumes bytes that are there; inside the frame it consumes at least 2 of them. */
  lemma PacketShape(f: Framing, b: seq<Byte>)
    ensures var d := Decode(f, b);
            d.Packet? ==> d.used <= |b| && (d.from + d.size <= d.used ==> d.used >= 2)
  {
    if f.Line? {
      LineShape(f.maxLen, b, 0);
    }
  }

  /**
   The length decoder hands out bytes outside the frame it consumes exactly for headers below 4, which its
   range check lets through.
   */
  lemma LengthPacketInsideFrame(maxLen: nat, b: seq<Byte>)
    requires DecodeLen(maxLen, b).Packet?
    ensures var d := DecodeLen(maxLen, b);
            && (d.from + d.size <= d.used <==> Header(b) >= 4)
            && (d.from + d.size <= d.used ==> d.from + d.size == d.used >= 4)
  {
  }

  /** For instance a header of zero: nothing is consumed, and the packet is nearly 2^32 bytes long. */
  lemma ZeroHeaderLeavesFrame()
    ensures DecodeLen(65535, [0, 0, 0, 0]) == Packet(4, U32 - 4, 0)
  {
  }

  /** The line decoder's three answers, without its scan: first CRLF, and the bound on where it may start. */
  lemma {:induction false} LineVerdict(maxLen: nat, b: seq<Byte>, i: nat)
    requires forall j: nat :: j < i ==> !CrlfAt(b, j)
    requires i <= maxLen
    ensures var d := DecodeLine(maxLen, b, i);
            && (d.Packet? ==> d.from == 0 && CrlfAt(b, d.size) && d.size <= maxLen && d.used == d.size + 2
                              && forall j: nat :: j < d.size ==> !CrlfAt(b, j))
            && (d.Error? <==> |b| >= maxLen + 2 && forall j: nat :: j <= maxLen ==> !CrlfAt(b, j))
            && (d.Less? <==> |b| < maxLen + 2 && forall j: nat :: !CrlfAt(b, j))
    decreases |b| - i
  {
    if i + 1 < |b| && !CrlfAt(b, i) {
      if i < maxLen {
        LineVerdict(maxLen, b, i + 1);
      }
    } else if CrlfAt(b, i) {
    } else {
      assert forall j: nat :: CrlfAt(b, j) ==> j < i;
    }
  }

  // ---------------------------------------------------- chunking independence

  lemma {:induction false} LineStable(maxLen: nat, b: seq<Byte>, more: seq<Byte>, i: nat)
    requires DecodeLine(maxLen, b, i) != Less
    ensures DecodeLine(maxLen, b + more, i) == DecodeLine(maxLen, b, i)
    decreases |b| - i
  {
    if !(b[i] == CR && b[i + 1] == LF) && i < maxLen {
      LineStable(maxLen, b, more, i + 1);
    }
  }

  /** An answer other than "less" does not change when more bytes arrive. */
  lemma DecodeStable(f: Framing, b: seq<Byte>, more: seq<Byte>)
    requires Decode(f, b) != Less
    ensures Decode(f, b + more) == Decode(f, b)
  {
    if f.Line? {
      LineStable(f.maxLen, b, more, 0);
    }
  }

  predicate Inside(d: Decoded) {
    d.Packet? && d.from + d.size <= d.used
  }

  /** One turn of the extraction loop. */
  lemma DrainPacket(f: Framing, b: seq<Byte>)
    requires Inside(Decode(f, b))
    ensures var d := Decode(f, b);
            d.used <= |b| && Drain(f, b) == After([b[d.from..d.from + d.size]], Drain(f, b[d.used..]))
  {
    PacketShape(f, b);
  }

  /** Draining a longer stream continues where draining the shorter one stopped. */
  lemma {:induction false} DrainAppend(f: Framing, b: seq<Byte>, more: seq<Byte>)
    ensures Continues(f, Drain(f, b), more, Drain(f, b + more))
    decreases |b|
  {
    var answer := Decode(f, b);
    if answer == Less {
      assert After([], Drain(f, b + more)) == Drain(f, b + more);
    } else {
      DecodeStable(f, b, more);
      if Inside(answer) {
        DrainAppendPacket(f, b, more);
      }
    }
  }

  ghost predicate Continues(f: Framing, d: Drained, more: seq<Byte>, whole: Drained) {
    if d.verdict == More then whole == After(d.packets, Drain(f, d.rest + more))
    else whole.packets == d.packets && whole.verdict == d.verdict
  }

  lemma {:induction false} DrainAppendPacket(f: Framing, b: seq<Byte>, more: seq<Byte>)
    requires Inside(Decode(f, b)) && Decode(f, b + more) == Decode(f, b)
    ensures Continues(f, Drain(f, b), more, Drain(f, b + more))
    decreases |b|, 0
  {
    var Packet(from, size, used) := Decode(f, b);
    PacketShape(f, b);
    assert Drain(f, b) == After([b[from..from + size]], Drain(f, b[used..])) by {
      DrainPacket(f, b);
    }
    assert Drain(f, b + more) == After([b[from..from + size]], Drain(f, b[used..] + more)) by {
      DrainPacket(f, b + more);
      SliceAppend(b, more, from, size, used);
    }
    DrainAppend(f, b[used..], more);
    AfterContinues(f, b[from..from + size], Drain(f, b[used..]), more, Drain(f, b[used..] + more));
  }

  lemma SliceAppend(b: seq<Byte>, more: seq<Byte>, from: nat, size: nat, used: nat)
    requires from + size <= used <= |b|
    ensures (b + more)[from..from + size] == b[from..from + size]
    ensures (b + more)[used..] == b[used..] + more
  {
  }

  lemma AfterContinues(f: Framing, packet: seq<Byte>, d: Drained, more: seq<Byte>, whole: Drained)
    requires Continues(f, d, more, whole)
    ensures Continues(f, After([packet], d), more, After([packet], whole))
  {
    if d.verdict == More {
      AfterAfter([packet], d.packets, Drain(f, d.rest + more));
    }
  }

  function After(packets: seq<seq<Byte>>, d: Drained): Drained {
    d.(packets := packets + d.packets)
  }

  lemma AfterAfter(first: seq<seq<Byte>>, second: seq<seq<Byte>>, d: Drained)
    ensures After(first, After(second, d)) == After(first + second, d)
  {
    assert first + (second + d.packets) == first + second + d.packets;
  }

  /** What a drain leaves in the buffer cannot be drained further. */
  lemma {:induction false} DrainedIsStuck(f: Framing, b: seq<Byte>)
    ensures Drain(f, b).verdict == More ==> Decode(f, Drain(f, b).rest) == Less
    decreases |b|
  {
    var answer := Decode(f, b);
    PacketShape(f, b);
    if Inside(answer) {
      DrainedIsStuck(f, b[answer.used..]);
    }
  }

  /** A connection's reading side: what was delivered so far and what waits in the read buffer. */
  datatype Reader = Reader(delivered: seq<seq<Byte>>, buffer: seq<Byte>, verdict: Verdict)

  const NEW_READER := Reader([], [], More)

  /** One read round: append what arrived, then extract. After a verdict other than More nothing is read. */
  function ReadRound(f: Framing, r: Reader, arrived: seq<Byte>): Reader {
    if r.verdict != More then r
    else
      var d := Drain(f, r.buffer + arrived);
      Reader(r.delivered + d.packets, d.rest, d.verdict)
  }

  function ReadRounds(f: Framing, r: Reader, rounds: seq<seq<Byte>>): Reader
    decreases |rounds|
  {
    if rounds == [] then r else ReadRounds(f, ReadRound(f, r, rounds[0]), rounds[1..])
  }

  lemma {:induction false} StoppedReader(f: Framing, r: Reader, rounds: seq<seq<Byte>>)
    requires r.verdict != More
    ensures ReadRounds(f, r, rounds) == r
    decreases |rounds|
  {
    if rounds != [] {
      StoppedReader(f, r, rounds[1..]);
    }
  }

  /** `end` is what a reader at `r` becomes when the bytes ahead of it drain to `d`. */
  ghost predicate Agree(r: Reader, d: Drained, end: Reader) {
    && end.delivered == r.delivered + d.packets
    && end.verdict == d.verdict
    && (end.verdict == More ==> end.buffer == d.rest)
  }

  lemma {:induction false} RoundsContinue(f: Framing, r: Reader, rounds: seq<seq<Byte>>)
    requires r.verdict == More && Decode(f, r.buffer) == Less
    ensures Agree(r, Drain(f, r.buffer + Flatten(rounds)), ReadRounds(f, r, rounds))
    decreases |rounds|
  {
    if rounds == [] {
      assert r.buffer + Flatten(rounds) == r.buffer;
    } else {
      var b, later := r.buffer + rounds[0], Flatten(rounds[1..]);
      var d, next := Drain(f, b), ReadRound(f, r, rounds[0]);
      assert r.buffer + Flatten(rounds) == b + later by {
        ConcatAssociates(r.buffer, rounds[0], later);
      }
      DrainAppend(f, b, later);
      if d.verdict == More {
        assert Decode(f, next.buffer) == Less by {
          DrainedIsStuck(f, b);
        }
        RoundsContinue(f, next, rounds[1..]);
        AgreeStep(r, d, Drain(f, d.rest + later), ReadRounds(f, next, rounds[1..]));
      } else {
        assert ReadRounds(f, next, rounds[1..]) == next by {
          StoppedReader(f, next, rounds[1..]);
        }
      }
    }
  }

  lemma AgreeStep(r: Reader, d: Drained, later: Drained, end: Reader)
    requires Agree(Reader(r.delivered + d.packets, d.rest, d.verdict), later, end)
    ensures Agree(r, After(d.packets, later), end)
  {
    assert r.delivered + d.packets + later.packets == r.delivered + (d.packets + later.packets);
  }

  /**
   Reassembly does not depend on how the stream was cut into read rounds: for every byte stream, either framing
   and every cutting, the packets delivered, the verdict and (while the connection lives) the bytes left in the
   buffer are those of draining the whole stream at once.
   */
  lemma ReassemblyIgnoresChunking(f: Framing, rounds: seq<seq<Byte>>)
    ensures var end, d := ReadRounds(f, NEW_READER, rounds), Drain(f, Flatten(rounds));
            && end.delivered == d.packets
            && end.verdict == d.verdict
            && (end.verdict == More ==> end.buffer == d.rest)
  {
    RoundsContinue(f, NEW_READER, rounds);
    assert [] + Flatten(rounds) == Flatten(rounds);
  }

  // ------------------------------------------------- encode / decode inverses

  lemma HeaderOfWord(word: nat, b: seq<Byte>)
    requires word < U32
    ensures Header(WordBytes(word) + b) == word
  {
    var w := WordBytes(word);
    assert (WordBytes(word) + b)[..4] == w;
    assert word / 0x100 == word / 0x1_0000 * 0x100 + word / 0x100 % 0x100;
    assert word / 0x1_0000 == word / 0x100_0000 * 0x100 + word / 0x1_0000 % 0x100;
  }

  lemma WordOfHeader(b: seq<Byte>)
    requires |b| >= 4
    ensures Header(b) < U32 && WordBytes(Header(b)) == b[..4]
  {
    var word := Header(b);
    assert word / 0x100 == b[0] as int * 0x1_0000 + b[1] as int * 0x100 + b[2] as int;
    assert word / 0x1_0000 == b[0] as int * 0x100 + b[1] as int;
    assert word / 0x100_0000 == b[0] as int;
  }

  /** A frame at the front of the buffer is decoded to its payload, whatever follows it. */
  lemma DecodeFrame(f: Framing, payload: seq<Byte>, more: seq<Byte>)
    requires Fits(f, payload)
    ensures var b, d := Frame(f, payload) + more, Decode(f, Frame(f, payload) + more);
            d.Packet? && d.from + d.size <= d.used == |Frame(f, payload)| && b[d.from..d.from + d.size] == payload
  {
    var b := Frame(f, payload) + more;
    match f
    case Length(_) =>
      assert b == WordBytes(|payload| + 4) + (payload + more);
      HeaderOfWord(|payload| + 4, payload + more);
    case Line(maxLen) =>
      assert CrlfAt(b, |payload|);
      forall j: nat | j < |payload| ensures !CrlfAt(b, j) {
        assert !CrlfAt(payload, j);
      }
      LineVerdict(maxLen, b, 0);
  }

  /** Encodings laid end to end drain to exactly the payloads, with nothing left over. */
  lemma {:induction false} FramesDrain(f: Framing, payloads: seq<seq<Byte>>)
    requires AllFit(f, payloads)
    ensures Drain(f, Frames(f, payloads)) == Drained(payloads, [], More)
    decreases |payloads|
  {
    if payloads != [] {
      var tail := Frames(f, payloads[1..]);
      FramesDrain(f, payloads[1..]);
      DecodeFrame(f, payloads[0], tail);
      assert (Frame(f, payloads[0]) + tail)[|Frame(f, payloads[0])|..] == tail;
      assert [payloads[0]] + payloads[1..] == payloads;
    }
  }

  /** The decoder is an exact inverse: a packet's frame, re-encoded, is the bytes it consumed. */
  lemma FrameOfDecoded(f: Framing, b: seq<Byte>)
    requires f.maxLen < U32
    requires Inside(Decode(f, b))
    ensures var d := Decode(f, b);
            && d.used <= |b|
            && Fits(f, b[d.from..d.from + d.size])
            && Frame(f, b[d.from..d.from + d.size]) == b[..d.used]
  {
    var d := Decode(f, b);
    PacketShape(f, b);
    var payload := b[d.from..d.from + d.size];
    match f
    case Length(_) =>
      WordOfHeader(b);
      assert b[..4] + b[4..d.used] == b[..d.used];
    case Line(maxLen) =>
      LineVerdict(maxLen, b, 0);
      forall j: nat ensures !CrlfAt(payload, j) {
        assert j + 1 < |payload| ==> !CrlfAt(b, j);
      }
  }

  lemma FramesCons(f: Framing, payload: seq<Byte>, payloads: seq<seq<Byte>>, rest: seq<Byte>)
    requires Fits(f, payload) && AllFit(f, payloads)
    ensures AllFit(f, [payload] + payloads)
    ensures Frames(f, [payload] + payloads) + rest == Frame(f, payload) + (Frames(f, payloads) + rest)
  {
    assert ([payload] + payloads)[1..] == payloads;
  }

  /**
   Nothing is lost, invented or reordered: for every byte stream, the bytes received are the frames of the
   delivered packets followed by the bytes still buffered.
   */
  lemma {:induction false} DrainConserves(f: Framing, b: seq<Byte>)
    requires f.maxLen < U32
    ensures AllFit(f, Drain(f, b).packets)
    ensures b == Frames(f, Drain(f, b).packets) + Drain(f, b).rest
    decreases |b|
  {
    var d := Decode(f, b);
    PacketShape(f, b);
    if Inside(d) {
      var packet, tail := b[d.from..d.from + d.size], b[d.used..];
      FrameOfDecoded(f, b);
      DrainConserves(f, tail);
      DrainPacket(f, b);
      assert b == b[..d.used] + tail;
      FramesCons(f, packet, Drain(f, tail).packets, Drain(f, tail).rest);
    }
  }

  /** Any prefix of a well-formed stream drains to a prefix of its payloads and never fails. */
  lemma FramesPrefixDrain(f: Framing, payloads: seq<seq<Byte>>, b: seq<Byte>)
    requires AllFit(f, payloads) && b <= Frames(f, payloads)
    ensures Drain(f, b).verdict == More && Drain(f, b).packets <= payloads
  {
    var all := Frames(f, payloads);
    FramesDrain(f, payloads);
    DrainAppend(f, b, all[|b|..]);
    assert b + all[|b|..] == all;
  }

  lemma {:induction false} FramesAreFlat(f: Framing, payloads: seq<seq<Byte>>, frames: seq<seq<Byte>>)
    requires AllFit(f, payloads) && |frames| == |payloads|
    requires forall i :: 0 <= i < |payloads| ==> frames[i] == Frame(f, payloads[i])
    ensures Flatten(frames) == Frames(f, payloads)
    decreases |payloads|
  {
    if payloads != [] {
      FramesAreFlat(f, payloads[1..], frames[1..]);
    }
  }

  /**
   Sender to receiver: the frames of `payloads`, cut into read rounds anyhow, deliver exactly `payloads` in order.
   */
  lemma FramedMessagesArrive(f: Framing, payloads: seq<seq<Byte>>, rounds: seq<seq<Byte>>)
    requires AllFit(f, payloads) && Flatten(rounds) == Frames(f, payloads)
    ensures ReadRounds(f, NEW_READER, rounds) == Reader(payloads, [], More)
  {
    ReassemblyIgnoresChunking(f, rounds);
    FramesDrain(f, payloads);
  }

  // ------------------------------------------------------------ when a stream fails

  /** The length decoder's answers, by the word the buffer begins with; shorter buffers wait for more. */
  lemma LengthVerdict(maxLen: nat, word: nat, more: seq<Byte>)
    requires word < U32
    ensures var d := DecodeLen(maxLen, WordBytes(word) + more);
            && (d.Error? <==> word > maxLen)
            && (d.Less? <==> word <= maxLen && |more| + 4 < word)
            && (d.Packet? ==> d.from == 4 && d.used == word)
    ensures forall n :: 0 <= n < 4 ==> DecodeLen(maxLen, WordBytes(word)[..n]).Less?
  {
    HeaderOfWord(word, more);
  }

  /** The bytes are refused: a word above the limit, or a line with no end where it must have one. */
  ghost predicate Rejected(f: Framing, rest: seq<Byte>) {
    match f
    case Length(maxLen) => exists word: nat :: maxLen < word < U32 && WordBytes(word) <= rest
    case Line(maxLen) => |rest| >= maxLen + 2 && forall j: nat :: j <= maxLen ==> !CrlfAt(rest, j)
  }

  /** The bytes begin with a word too small to be the size of a frame. */
  ghost predicate Misframed(f: Framing, rest: seq<Byte>) {
    f.Length? && exists word: nat :: word < 4 && word <= f.maxLen && WordBytes(word) <= rest
  }

  lemma WordDecoded(maxLen: nat, b: seq<Byte>, word: nat)
    requires word < U32 && WordBytes(word) <= b
    ensures Header(b) == word
    ensures DecodeLen(maxLen, b).Error? <==> word > maxLen
    ensures DecodeLen(maxLen, b).Less? <==> word <= maxLen && |b| < word
  {
    assert b == WordBytes(word) + b[4..];
    LengthVerdict(maxLen, word, b[4..]);
    HeaderOfWord(word, b[4..]);
  }

  lemma RejectedIff(f: Framing, b: seq<Byte>)
    ensures Decode(f, b).Error? <==> Rejected(f, b)
    ensures Decode(f, b).Packet? && !Inside(Decode(f, b)) <==> Misframed(f, b)
  {
    match f
    case Length(maxLen) =>
      if |b| >= 4 {
        WordOfHeader(b);
        WordDecoded(maxLen, b, Header(b));
        forall word: nat | word < U32 && WordBytes(word) <= b ensures word == Header(b) {
          WordDecoded(maxLen, b, word);
        }
      }
    case Line(maxLen) =>
      LineVerdict(maxLen, b, 0);
      LineShape(maxLen, b, 0);
  }

  /** The stream is the frames of `payloads` followed by `rest`. */
  ghost predicate CutsTo(f: Framing, b: seq<Byte>, payloads: seq<seq<Byte>>, rest: seq<Byte>) {
    AllFit(f, payloads) && b == Frames(f, payloads) + rest
  }

  lemma {:induction false} DrainStopsAt(f: Framing, b: seq<Byte>)
    ensures var d := Drain(f, b);
            && (d.verdict == Failed ==> Decode(f, d.rest).Error?)
            && (d.verdict == Undefined ==> Decode(f, d.rest).Packet? && !Inside(Decode(f, d.rest)))
    decreases |b|
  {
    if Inside(Decode(f, b)) {
      DrainPacket(f, b);
      PacketShape(f, b);
      DrainStopsAt(f, b[Decode(f, b).used..]);
    }
  }

  lemma DrainOfCut(f: Framing, b: seq<Byte>, payloads: seq<seq<Byte>>, rest: seq<Byte>)
    requires CutsTo(f, b, payloads, rest)
    ensures Drain(f, b) == After(payloads, Drain(f, rest))
  {
    FramesDrain(f, payloads);
    DrainAppend(f, Frames(f, payloads), rest);
    assert [] + rest == rest;
  }

  /**
   Exactly when extraction fails: the stream is some whole frames and then bytes the decoder refuses. And it is
   undefined exactly when the frames are followed by a word too small to be a size.
   */
  lemma DrainFailsIff(f: Framing, b: seq<Byte>)
    requires f.maxLen < U32
    ensures Drain(f, b).verdict == Failed
            <==> exists payloads, rest :: CutsTo(f, b, payloads, rest) && Rejected(f, rest)
    ensures Drain(f, b).verdict == Undefined
            <==> exists payloads, rest :: CutsTo(f, b, payloads, rest) && Misframed(f, rest)
  {
    var d := Drain(f, b);
    DrainConserves(f, b);
    DrainStopsAt(f, b);
    RejectedIff(f, d.rest);
    assert CutsTo(f, b, d.packets, d.rest);
    forall payloads, rest | CutsTo(f, b, payloads, rest)
      ensures Rejected(f, rest) ==> d.verdict == Failed
      ensures Misframed(f, rest) ==> d.verdict == Undefined
    {
      DrainOfCut(f, b, payloads, rest);
      RejectedIff(f, rest);
    }
  }

  /** The same for a connection, however its bytes are cut into read rounds. */
  lemma ConnectionFailsIff(f: Framing, rounds: seq<seq<Byte>>)
    requires f.maxLen < U32
    ensures ReadRounds(f, NEW_READER, rounds).verdict == Failed
            <==> exists payloads, rest :: CutsTo(f, Flatten(rounds), payloads, rest) && Rejected(f, rest)
  {
    ReassemblyIgnoresChunking(f, rounds);
    DrainFailsIff(f, Flatten(rounds));
  }
}
