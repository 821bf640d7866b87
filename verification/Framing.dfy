/**
 Length-prefixed messages on the reliable stream: the client's incremental decoder, the server's blocking reader
 and the writer. A message is a byte string here; whether it is a well-formed protobuf is the parameter `parses`.
 */
module Framing {
  import opened RoomModel

  type Byte = b: int | 0 <= b < 0x100

  const MAX_FRAME_SIZE := 0x1_0000

  /** The size in network byte order. */
  function Header(size: U32): (h: seq<Byte>)
    ensures |h| == 4
  {
    [size / 0x100_0000, size / 0x1_0000 % 0x100, size / 0x100 % 0x100, size % 0x100]
  }

  /** A number with one more byte appended. */
  function Shifted(number: int, b: int): int {
    number * 0x100 + b
  }

  /** The number a big-endian byte string stands for. */
  function BigEndian(bytes: seq<Byte>): nat {
    if bytes == [] then 0
    else
      var last := |bytes| - 1;
      Shifted(BigEndian(bytes[..last]), bytes[last])
  }

  function SizeOf(buffer: seq<Byte>): nat
    requires |buffer| >= 4
  {
    BigEndian(buffer[..4])
  }

  lemma FourBytes(b: seq<Byte>)
    requires |b| == 4
    ensures BigEndian(b) == Shifted(Shifted(Shifted(b[0], b[1]), b[2]), b[3])
  {
    assert b[..3][..2] == b[..2] && b[..2][..1] == b[..1];
    assert BigEndian(b[..1]) == b[0];
    assert BigEndian(b[..2]) == Shifted(b[0], b[1]);
    assert BigEndian(b[..3]) == Shifted(Shifted(b[0], b[1]), b[2]);
  }

  lemma FourDigits(size: nat, a: nat, b: nat, c: nat)
    requires a == size / 0x100_0000 && b == size / 0x1_0000 && c == size / 0x100
    ensures c == Shifted(Shifted(a, b % 0x100), c % 0x100)
    ensures size == Shifted(c, size % 0x100)
  {
    assert b == b / 0x100 * 0x100 + b % 0x100 && b / 0x100 == a;
    assert c == c / 0x100 * 0x100 + c % 0x100 && c / 0x100 == b;
  }

  lemma HeaderRoundTrip(size: U32, rest: seq<Byte>)
    ensures SizeOf(Header(size) + rest) == size
  {
    assert (Header(size) + rest)[..4] == Header(size);
    FourBytes(Header(size));
    FourDigits(size, size / 0x100_0000, size / 0x1_0000, size / 0x100);
  }

  predicate Sendable(payload: seq<Byte>) {
    |payload| <= MAX_FRAME_SIZE
  }

  function FrameOf(payload: seq<Byte>): seq<Byte>
    requires Sendable(payload)
  {
    Header(|payload|) + payload
  }

  /** The client's `Frame`: the frame byte by byte, or nothing for an oversized message. */
  method Frame(payload: seq<Byte>) returns (frame: array<Byte>)
    ensures fresh(frame)
    ensures frame[..] == if Sendable(payload) then FrameOf(payload) else []
  {
    if |payload| > MAX_FRAME_SIZE {
      frame := new Byte[0];
      return;
    }
    frame := new Byte[4 + |payload|](_ => 0);
    frame[0] := |payload| / 0x100_0000;
    frame[1] := |payload| / 0x1_0000 % 0x100;
    frame[2] := |payload| / 0x100 % 0x100;
    frame[3] := |payload| % 0x100;
    for n := 0 to |payload|
      invariant frame[..4] == Header(|payload|)
      invariant frame[4..4 + n] == payload[..n]
    {
      frame[4 + n] := payload[n];
      assert frame[4..4 + n + 1] == frame[4..4 + n] + [payload[n]];
    }
    assert frame[..] == frame[..4] + frame[4..4 + |payload|];
  }

  // ---------------------------------------------------------------- decoding in pieces

  datatype Fault = NoFault | Oversized | Malformed

  /** What the start of a buffer holds: not a whole message yet, a fault, or a message and what follows it. */
  datatype Head = Incomplete | Bad(fault: Fault) | Whole(payload: seq<Byte>, rest: seq<Byte>)

  /** How messages are cut out of a buffer; `FrameHead` below is the one the protocol uses. */
  type Cutter = seq<Byte> -> Head

  /** What one pass over the buffer delivers, what it leaves behind, and why it stopped early if it did. */
  datatype Pass = Pass(delivered: seq<seq<Byte>>, rest: seq<Byte>, fault: Fault)

  function Decode(buffer: seq<Byte>, head: Cutter): Pass
    decreases |buffer|
  {
    match head(buffer)
    case Incomplete => Pass([], buffer, NoFault)
    case Bad(fault) => Pass([], buffer, fault)
    case Whole(payload, rest) =>
      if |rest| < |buffer| then
        var later := Decode(rest, head);
        Pass([payload] + later.delivered, later.rest, later.fault)
      else Pass([], buffer, NoFault)
  }

  /** More bytes never change what has been recognised, and every message takes at least a byte. */
  ghost predicate Incremental(head: Cutter) {
    && (forall b {:trigger head(b)} :: head(b).Whole? ==> |head(b).rest| < |b|)
    && (forall b, more {:trigger head(b + more)} ::
          head(b).Whole? ==> head(b + more) == Whole(head(b).payload, head(b).rest + more))
    && (forall b, more {:trigger head(b + more)} :: head(b).Bad? ==> head(b + more) == head(b))
    && (forall b {:trigger head(b)} :: head(b).Bad? ==> head(b).fault != NoFault)
  }

  function Flat(chunks: seq<seq<Byte>>): seq<Byte> {
    if chunks == [] then [] else chunks[0] + Flat(chunks[1..])
  }

  lemma {:induction false} FlatAppend(xs: seq<seq<Byte>>, ys: seq<seq<Byte>>)
    ensures Flat(xs + ys) == Flat(xs) + Flat(ys)
  {
    if xs == [] {
      assert xs + ys == ys;
    } else {
      assert (xs + ys)[1..] == xs[1..] + ys;
      FlatAppend(xs[1..], ys);
    }
  }

  /** A decoder after a sequence of callbacks, starting with an empty buffer. */
  function After(callbacks: seq<seq<Byte>>, head: Cutter): Pass {
    if callbacks == [] then Pass([], [], NoFault)
    else
      var before := After(callbacks[..|callbacks| - 1], head);
      var pass := Decode(before.rest + callbacks[|callbacks| - 1], head);
      Pass(before.delivered + pass.delivered, pass.rest, if pass.fault == NoFault then before.fault else pass.fault)
  }

  /** Decoding what has arrived and then the rest is decoding everything. */
  lemma {:induction false} DecodeInTwo(buffer: seq<Byte>, more: seq<Byte>, head: Cutter)
    requires Incremental(head)
    ensures var one := Decode(buffer, head); var two := Decode(one.rest + more, head);
            Decode(buffer + more, head) == Pass(one.delivered + two.delivered, two.rest, two.fault)
    decreases |buffer|
  {
    if head(buffer).Whole? {
      var payload, rest := head(buffer).payload, head(buffer).rest;
      assert head(buffer + more) == Whole(payload, rest + more);
      DecodeInTwo(rest, more, head);
      var later := Decode(rest, head);
      var two := Decode(later.rest + more, head);
      assert [payload] + (later.delivered + two.delivered) == [payload] + later.delivered + two.delivered;
    } else {
      assert [] + Decode(buffer + more, head).delivered == Decode(buffer + more, head).delivered;
    }
  }

  /** A fault stays in front of whatever arrives after it, and is found again. */
  lemma {:induction false} FaultStays(buffer: seq<Byte>, more: seq<Byte>, head: Cutter)
    requires Incremental(head) && Decode(buffer, head).fault != NoFault
    ensures var pass := Decode(buffer, head);
            Decode(pass.rest + more, head) == Pass([], pass.rest + more, pass.fault)
    decreases |buffer|
  {
    if head(buffer).Whole? {
      FaultStays(head(buffer).rest, more, head);
    } else {
      assert head(buffer + more) == head(buffer);
    }
  }

  /** The fragmentation does not matter: any callbacks amount to one with all the bytes, faults included. */
  lemma {:induction false} FragmentationDoesNotMatter(callbacks: seq<seq<Byte>>, head: Cutter)
    requires Incremental(head) && head([]).Incomplete?
    ensures After(callbacks, head) == Decode(Flat(callbacks), head)
    decreases |callbacks|
  {
    if callbacks != [] {
      var n := |callbacks| - 1;
      var front, last := callbacks[..n], callbacks[n];
      assert callbacks == front + [last];
      FlatAppend(front, [last]);
      assert Flat([last]) == last;
      FragmentationDoesNotMatter(front, head);
      DecodeInTwo(Flat(front), last, head);
      if After(front, head).fault != NoFault {
        FaultStays(Flat(front), last, head);
      }
    }
  }

  /** `frame` stands for `payload`: it is cut out whole, and no proper part of it is cut at all. */
  ghost predicate Represents(frame: seq<Byte>, payload: seq<Byte>, head: Cutter) {
    && (forall more {:trigger head(frame + more)} :: head(frame + more) == Whole(payload, more))
    && (forall part {:trigger head(part)} :: part < frame ==> head(part) == Incomplete)
  }

  ghost predicate AllRepresent(frames: seq<seq<Byte>>, payloads: seq<seq<Byte>>, head: Cutter) {
    |frames| == |payloads| && forall i :: 0 <= i < |frames| ==> Represents(frames[i], payloads[i], head)
  }

  /** A strict prefix of the frame that comes next, if there is one. */
  ghost predicate PartOfNext(part: seq<Byte>, frames: seq<seq<Byte>>) {
    if frames == [] then part == [] else part < frames[0]
  }

  /** `prefix` holds the first `k` messages and the beginning of the next. */
  ghost predicate Holds(frames: seq<seq<Byte>>, payloads: seq<seq<Byte>>, prefix: seq<Byte>, k: nat, head: Cutter) {
    var pass := Decode(prefix, head);
    && k <= |payloads| == |frames| && pass.delivered == payloads[..k] && pass.fault == NoFault
    && PartOfNext(pass.rest, frames[k..]) && prefix == Flat(frames[..k]) + pass.rest
  }

  lemma DecodeMessage(frame: seq<Byte>, payload: seq<Byte>, tail: seq<Byte>, head: Cutter)
    requires Incremental(head) && Represents(frame, payload, head)
    ensures var pass := Decode(tail, head);
            Decode(frame + tail, head) == Pass([payload] + pass.delivered, pass.rest, pass.fault)
  {
    assert head(frame + tail) == Whole(payload, tail);
  }

  lemma MessageInFront(frames: seq<seq<Byte>>, payloads: seq<seq<Byte>>, tail: seq<Byte>, j: nat, head: Cutter)
    requires frames != [] && Incremental(head) && AllRepresent(frames, payloads, head)
    requires Holds(frames[1..], payloads[1..], tail, j, head)
    ensures Holds(frames, payloads, frames[0] + tail, j + 1, head)
  {
    DecodeMessage(frames[0], payloads[0], tail, head);
    FirstAndRest(payloads, j);
    FirstAndRest(frames, j);
    FlatAppend([frames[0]], frames[1..][..j]);
    assert Flat([frames[0]]) == frames[0];
    AppendTwice(frames[0], Flat(frames[1..][..j]), Decode(tail, head).rest);
  }

  lemma FirstAndRest(xs: seq<seq<Byte>>, j: nat)
    requires j < |xs|
    ensures xs[..j + 1] == [xs[0]] + xs[1..][..j] && xs[j + 1..] == xs[1..][j..]
  {
  }

  lemma AppendTwice(xs: seq<Byte>, ys: seq<Byte>, zs: seq<Byte>)
    ensures xs + (ys + zs) == xs + ys + zs
  {
  }

  lemma PrefixesNest(prefix: seq<Byte>, front: seq<Byte>, back: seq<Byte>)
    requires prefix <= front + back
    ensures |prefix| < |front| ==> prefix < front
    ensures |prefix| >= |front| ==> prefix == front + prefix[|front|..] && prefix[|front|..] <= back
  {
    if |prefix| < |front| {
      assert prefix == (front + back)[..|prefix|] == front[..|prefix|];
    } else {
      assert prefix == (front + back)[..|prefix|];
      assert prefix[|front|..] == back[..|prefix| - |front|];
    }
  }

  /** Every prefix of a stream decodes to the messages that are complete in it, and keeps the start of the next. */
  lemma {:induction false} DecodePrefix(frames: seq<seq<Byte>>, payloads: seq<seq<Byte>>, prefix: seq<Byte>,
                                        head: Cutter)
    returns (k: nat)
    requires Incremental(head) && AllRepresent(frames, payloads, head) && head([]).Incomplete?
    requires prefix <= Flat(frames)
    ensures Holds(frames, payloads, prefix, k, head)
    decreases |frames|
  {
    k := 0;
    if frames != [] {
      PrefixesNest(prefix, frames[0], Flat(frames[1..]));
      if |prefix| < |frames[0]| {
        assert Represents(frames[0], payloads[0], head);
      } else {
        var tail := prefix[|frames[0]|..];
        var j := DecodePrefix(frames[1..], payloads[1..], tail, head);
        k := j + 1;
        MessageInFront(frames, payloads, tail, j, head);
      }
    }
  }

  // ---------------------------------------------------------------- the protocol's decoder

  /** What the client's loop finds at the start of its buffer. */
  function HeadOf(buffer: seq<Byte>, parses: seq<Byte> -> bool): Head {
    if |buffer| < 4 then Incomplete
    else if SizeOf(buffer) > MAX_FRAME_SIZE then Bad(Oversized)
    else if |buffer| < 4 + SizeOf(buffer) then Incomplete
    else if !parses(buffer[4..4 + SizeOf(buffer)]) then Bad(Malformed)
    else Whole(buffer[4..4 + SizeOf(buffer)], buffer[4 + SizeOf(buffer)..])
  }

  function FrameHead(parses: seq<Byte> -> bool): Cutter {
    (buffer: seq<Byte>) => HeadOf(buffer, parses)
  }

  /** The four header bytes, shifted into place. */
  function ReadHeader(buffer: seq<Byte>): (size: nat)
    requires |buffer| >= 4
    ensures size == SizeOf(buffer)
  {
    FourBytes(buffer[..4]);
    Shifted(Shifted(Shifted(buffer[0], buffer[1]), buffer[2]), buffer[3])
  }

  /** Decoding a buffer, by what is at its start. */
  lemma DecodeOnce(buffer: seq<Byte>, parses: seq<Byte> -> bool)
    ensures HeadOf(buffer, parses).Incomplete? ==> Decode(buffer, FrameHead(parses)) == Pass([], buffer, NoFault)
    ensures HeadOf(buffer, parses).Bad? ==>
              Decode(buffer, FrameHead(parses)) == Pass([], buffer, HeadOf(buffer, parses).fault)
    ensures HeadOf(buffer, parses).Whole? ==>
              var later := Decode(HeadOf(buffer, parses).rest, FrameHead(parses));
              Decode(buffer, FrameHead(parses))
              == Pass([HeadOf(buffer, parses).payload] + later.delivered, later.rest, later.fault)
  {
    assert FrameHead(parses)(buffer) == HeadOf(buffer, parses);
  }

  lemma AppendOne(done: seq<seq<Byte>>, payload: seq<Byte>, more: seq<seq<Byte>>)
    ensures done + ([payload] + more) == done + [payload] + more
  {
  }

  class Decoder {
    const parses: seq<Byte> -> bool
    var receiveBuffer: seq<Byte>
    var delivered: seq<seq<Byte>>
    var fault: Fault

    constructor (parses: seq<Byte> -> bool)
      ensures receiveBuffer == [] && delivered == [] && fault == NoFault && this.parses == parses
    {
      this.parses := parses;
      receiveBuffer, delivered, fault := [], [], NoFault;
    }

    /** One callback of the transport with the buffers it has received. */
    method Receive(buffers: seq<seq<Byte>>)
      modifies this
      ensures var pass := Decode(old(receiveBuffer) + Flat(buffers), FrameHead(parses));
              && receiveBuffer == pass.rest && delivered == old(delivered) + pass.delivered
              && fault == if pass.fault == NoFault then old(fault) else pass.fault
    {
      Append(buffers);
      DeliverWhole();
    }

    /** The decoding loop. */
    method DeliverWhole()
      modifies this
      ensures var pass := Decode(old(receiveBuffer), FrameHead(parses));
              && receiveBuffer == pass.rest && delivered == old(delivered) + pass.delivered
              && fault == if pass.fault == NoFault then old(fault) else pass.fault
    {
      ghost var pass := Decode(receiveBuffer, FrameHead(parses));
      ghost var left := pass;
      while |receiveBuffer| >= 4
        invariant left == Decode(receiveBuffer, FrameHead(parses))
        invariant left.rest == pass.rest && left.fault == pass.fault
        invariant delivered + left.delivered == old(delivered) + pass.delivered
        invariant fault == old(fault)
        decreases |receiveBuffer|
      {
        var size := ReadHeader(receiveBuffer);
        DecodeOnce(receiveBuffer, parses);
        if size > MAX_FRAME_SIZE {
          fault := Oversized;
          return;
        }
        if |receiveBuffer| < 4 + size {
          return;
        }
        var payload := receiveBuffer[4..4 + size];
        if !parses(payload) {
          fault := Malformed;
          return;
        }
        left := Decode(receiveBuffer[4 + size..], FrameHead(parses));
        AppendOne(delivered, payload, left.delivered);
        delivered := delivered + [payload];
        receiveBuffer := receiveBuffer[4 + size..];
      }
    }

    method Append(buffers: seq<seq<Byte>>)
      modifies `receiveBuffer
      ensures receiveBuffer == old(receiveBuffer) + Flat(buffers)
    {
      for n := 0 to |buffers|
        invariant receiveBuffer == old(receiveBuffer) + Flat(buffers[..n])
      {
        FlatAppend(buffers[..n], [buffers[n]]);
        assert buffers[..n + 1] == buffers[..n] + [buffers[n]];
        assert Flat([buffers[n]]) == buffers[n];
        receiveBuffer := receiveBuffer + buffers[n];
      }
      assert buffers[..|buffers|] == buffers;
    }
  }

  lemma LongerBuffer(buffer: seq<Byte>, more: seq<Byte>, parses: seq<Byte> -> bool)
    ensures HeadOf(buffer, parses).Whole? ==>
              HeadOf(buffer + more, parses)
              == Whole(HeadOf(buffer, parses).payload, HeadOf(buffer, parses).rest + more)
    ensures HeadOf(buffer, parses).Bad? ==> HeadOf(buffer + more, parses) == HeadOf(buffer, parses)
  {
    if |buffer| >= 4 {
      assert (buffer + more)[..4] == buffer[..4];
      var size := SizeOf(buffer);
      if |buffer| >= 4 + size {
        assert (buffer + more)[4..4 + size] == buffer[4..4 + size];
        assert (buffer + more)[4 + size..] == buffer[4 + size..] + more;
      }
    }
  }

  lemma FramesAreIncremental(parses: seq<Byte> -> bool)
    ensures Incremental(FrameHead(parses)) && FrameHead(parses)([]).Incomplete?
  {
    var head := FrameHead(parses);
    forall b, more
      ensures head(b).Whole? ==> head(b + more) == Whole(head(b).payload, head(b).rest + more)
      ensures head(b).Bad? ==> head(b + more) == head(b)
    {
      LongerBuffer(b, more, parses);
    }
  }

  lemma FrameRepresents(payload: seq<Byte>, parses: seq<Byte> -> bool)
    requires Sendable(payload) && parses(payload)
    ensures Represents(FrameOf(payload), payload, FrameHead(parses))
  {
    var frame := FrameOf(payload);
    forall more ensures FrameHead(parses)(frame + more) == Whole(payload, more) {
      var buffer := frame + more;
      assert buffer == Header(|payload|) + (payload + more);
      HeaderRoundTrip(|payload|, payload + more);
      assert buffer[4..4 + |payload|] == payload && buffer[4 + |payload|..] == more;
    }
    forall part | part < frame ensures FrameHead(parses)(part) == Incomplete {
      if |part| >= 4 {
        HeaderRoundTrip(|payload|, payload);
        assert part[..4] == frame[..4];
      }
    }
  }

  ghost predicate Wellformed(payloads: seq<seq<Byte>>, parses: seq<Byte> -> bool) {
    forall i :: 0 <= i < |payloads| ==> Sendable(payloads[i]) && parses(payloads[i])
  }

  /** The frames of the payloads, in order; the stream is their concatenation. */
  function Frames(payloads: seq<seq<Byte>>): seq<seq<Byte>>
    requires forall i :: 0 <= i < |payloads| ==> Sendable(payloads[i])
  {
    seq(|payloads|, i requires 0 <= i < |payloads| => FrameOf(payloads[i]))
  }

  /**
   Round trip under any fragmentation: whatever pieces the stream arrives in, after every callback the decoder has
   delivered exactly the messages that are complete, in order and unchanged, and holds a strict prefix of the next
   frame; after the last one it has delivered them all and holds nothing.
   */
  lemma FramesSurviveFragmentation(payloads: seq<seq<Byte>>, chunks: seq<seq<Byte>>, n: nat,
                                   parses: seq<Byte> -> bool)
    returns (k: nat)
    requires Wellformed(payloads, parses) && Flat(chunks) == Flat(Frames(payloads)) && n <= |chunks|
    ensures k <= |payloads|
    ensures var s := After(chunks[..n], FrameHead(parses));
            s.delivered == payloads[..k] && s.fault == NoFault && PartOfNext(s.rest, Frames(payloads)[k..])
    ensures n == |chunks| ==> k == |payloads| && After(chunks, FrameHead(parses)).rest == []
  {
    var head, frames := FrameHead(parses), Frames(payloads);
    FramesAreIncremental(parses);
    forall i | 0 <= i < |frames| ensures Represents(frames[i], payloads[i], head) {
      FrameRepresents(payloads[i], parses);
    }
    FlatAppend(chunks[..n], chunks[n..]);
    assert chunks == chunks[..n] + chunks[n..];
    k := DecodePrefix(frames, payloads, Flat(chunks[..n]), head);
    FragmentationDoesNotMatter(chunks[..n], head);
    if n == |chunks| {
      assert chunks[..n] == chunks;
      WholeStreamIsConsumed(frames, k, After(chunks, head).rest);
    }
  }

  lemma WholeStreamIsConsumed(frames: seq<seq<Byte>>, k: nat, rest: seq<Byte>)
    requires k <= |frames| && PartOfNext(rest, frames[k..]) && Flat(frames) == Flat(frames[..k]) + rest
    ensures k == |frames| && rest == []
  {
    FlatAppend(frames[..k], frames[k..]);
    assert frames == frames[..k] + frames[k..];
    assert |Flat(frames[k..])| == |rest|;
  }

  // ---------------------------------------------------------------- the blocking reader

  datatype ReadResult = Message(payload: seq<Byte>, rest: seq<Byte>) | EndOfStream | TooLarge | NotAMessage

  /** One call of the server's `Read` on a stream that then ends. */
  function Read(stream: seq<Byte>, parses: seq<Byte> -> bool): ReadResult {
    if |stream| < 4 then EndOfStream
    else if SizeOf(stream) > MAX_FRAME_SIZE then TooLarge
    else if |stream| - 4 < SizeOf(stream) then EndOfStream
    else if !parses(stream[4..][..SizeOf(stream)]) then NotAMessage
    else Message(stream[4..][..SizeOf(stream)], stream[4..][SizeOf(stream)..])
  }

  function ReadAll(stream: seq<Byte>, parses: seq<Byte> -> bool): (seq<seq<Byte>>, ReadResult)
    decreases |stream|
  {
    match Read(stream, parses)
    case Message(payload, rest) =>
      if |rest| < |stream| then
        var (later, end) := ReadAll(rest, parses);
        ([payload] + later, end)
      else ([], EndOfStream)
    case end => ([], end)
  }

  function FaultOf(end: ReadResult): Fault {
    match end
    case TooLarge => Oversized
    case NotAMessage => Malformed
    case _ => NoFault
  }

  lemma ReadersAgreeOnce(stream: seq<Byte>, parses: seq<Byte> -> bool)
    ensures match Read(stream, parses)
            case Message(payload, rest) => HeadOf(stream, parses) == Whole(payload, rest)
            case EndOfStream => HeadOf(stream, parses) == Incomplete
            case end => HeadOf(stream, parses) == Bad(FaultOf(end))
  {
    if |stream| >= 4 && |stream| - 4 >= SizeOf(stream) {
      var size := SizeOf(stream);
      assert stream[4..][..size] == stream[4..4 + size] && stream[4..][size..] == stream[4 + size..];
    }
  }

  /** The incremental decoder and the blocking reader agree on every byte stream, faults included. */
  lemma {:induction false} DecoderAgreesWithReader(stream: seq<Byte>, parses: seq<Byte> -> bool)
    ensures var (messages, end) := ReadAll(stream, parses);
            var pass := Decode(stream, FrameHead(parses));
            pass.delivered == messages && pass.fault == FaultOf(end)
    decreases |stream|
  {
    ReadersAgreeOnce(stream, parses);
    assert FrameHead(parses)(stream) == HeadOf(stream, parses);
    if Read(stream, parses).Message? {
      DecoderAgreesWithReader(Read(stream, parses).rest, parses);
    }
  }

  /**
   The two ends of the protocol read every byte stream alike, under every split into callbacks: the same messages in
   the same order, and the same fault.
   */
  lemma ReadersAgree(callbacks: seq<seq<Byte>>, parses: seq<Byte> -> bool)
    ensures var (messages, end) := ReadAll(Flat(callbacks), parses);
            var s := After(callbacks, FrameHead(parses));
            s.delivered == messages && s.fault == FaultOf(end)
  {
    FramesAreIncremental(parses);
    FragmentationDoesNotMatter(callbacks, FrameHead(parses));
    DecoderAgreesWithReader(Flat(callbacks), parses);
  }

  // ---------------------------------------------------------------- the writer

  datatype WriteError = NoWriteError | ShortWrite | Broken | MessageTooLarge

  /** A destination that takes as much of each write as `plan` says, and fails where the plan says so. */
  class Writer {
    var plan: seq<Option<nat>>
    var written: seq<Byte>

    constructor (plan: seq<Option<nat>>)
      ensures this.plan == plan && written == []
    {
      this.plan, written := plan, [];
    }

    method Write(payload: seq<Byte>) returns (count: nat, error: WriteError)
      modifies this
      ensures count <= |payload| && written == old(written) + payload[..count]
      ensures error == NoWriteError || error == Broken
    {
      if plan == [] {
        written := written + payload;
        return |payload|, NoWriteError;
      }
      var next := plan[0];
      plan := plan[1..];
      if next.None? {
        assert written + payload[..0] == written;
        return 0, Broken;
      }
      count := if next.value < |payload| then next.value else |payload|;
      written := written + payload[..count];
      return count, NoWriteError;
    }
  }

  /** Short writes or not: what arrives is exactly the payload, or a prefix of it and an error. */
  method WriteAll(w: Writer, payload: seq<Byte>) returns (error: WriteError)
    modifies w
    ensures error == NoWriteError ==> w.written == old(w.written) + payload
    ensures error != NoWriteError ==> exists n: nat :: n <= |payload| && w.written == old(w.written) + payload[..n]
    ensures error != MessageTooLarge
  {
    var left := payload;
    ghost var done := 0;
    while |left| > 0
      invariant 0 <= done <= |payload| && left == payload[done..]
      invariant w.written == old(w.written) + payload[..done]
      decreases |left|
    {
      var count, failure := w.Write(left);
      assert payload[..done] + left[..count] == payload[..done + count];
      done := done + count;
      if failure != NoWriteError {
        return failure;
      }
      if count == 0 {
        return ShortWrite;
      }
      left := left[count..];
    }
    assert payload[..done] == payload;
    return NoWriteError;
  }

  /** The server's `Write`: a whole frame, or nothing of an oversized message. */
  method Write(w: Writer, payload: seq<Byte>) returns (error: WriteError)
    modifies w
    ensures error == MessageTooLarge <==> !Sendable(payload)
    ensures error == MessageTooLarge ==> w.written == old(w.written)
    ensures error == NoWriteError ==> Sendable(payload) && w.written == old(w.written) + FrameOf(payload)
    ensures Sendable(payload) ==>
              exists n: nat :: n <= |FrameOf(payload)| && w.written == old(w.written) + FrameOf(payload)[..n]
  {
    if |payload| > MAX_FRAME_SIZE {
      return MessageTooLarge;
    }
    ghost var frame := FrameOf(payload);
    error := WriteAll(w, Header(|payload|));
    if error != NoWriteError {
      ghost var n: nat :| n <= 4 && w.written == old(w.written) + Header(|payload|)[..n];
      assert frame[..n] == Header(|payload|)[..n];
      return;
    }
    error := WriteAll(w, payload);
    ghost var n: nat := |payload|;
    if error != NoWriteError {
      n :| n <= |payload| && w.written == old(w.written) + Header(|payload|) + payload[..n];
    } else {
      assert payload[..n] == payload;
    }
    assert frame[..4 + n] == Header(|payload|) + payload[..n];
    assert w.written == old(w.written) + frame[..4 + n];
  }
}
