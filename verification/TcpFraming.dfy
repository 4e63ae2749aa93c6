/** The MBAP header of section 3.1.3 of "MODBUS Messaging on TCP/IP Implementation Guide V1.0b", and
    streams of messages. */
module TcpFraming {
  import opened Pdu

  const HEADER_SIZE := 7

  datatype Frame = Frame(id: uint16, protocol: uint16, unit: bv8, pdu: seq<bv8>)

  predicate IsFrame(f: Frame) {
    1 <= |f.pdu| <= MAX_PDU_SIZE
  }

  predicate AreFrames(frames: seq<Frame>) {
    forall k :: 0 <= k < |frames| ==> IsFrame(frames[k])
  }

  /** The length field counts the unit and the PDU. */
  function Header(id: uint16, protocol: uint16, size: nat, unit: bv8): seq<bv8> {
    var length: uint16 := (size + 1) % 0x1_0000;
    [HighByte(id), LowByte(id), HighByte(protocol), LowByte(protocol), HighByte(length), LowByte(length), unit]
  }

  function Bytes(f: Frame): seq<bv8> {
    Header(f.id, f.protocol, |f.pdu|, f.unit) + f.pdu
  }

  function Stream(frames: seq<Frame>): seq<bv8> {
    if frames == [] then [] else Bytes(frames[0]) + Stream(frames[1..])
  }

  /** How many bytes mb_tcp_rx takes after the header: one less than the length field says, but no
      more than the buffer holds; the field 0 wraps around. */
  function SizeOf(length: uint16): nat {
    if length == 0 || length - 1 > MAX_PDU_SIZE then MAX_PDU_SIZE else length - 1
  }

  datatype Head = Short | Got(frame: Frame, rest: seq<bv8>)

  /** The first message of a stream. */
  function Deframe(stream: seq<bv8>): (h: Head)
    ensures h.Got? ==> |h.rest| < |stream| && IsFrame(h.frame)
  {
    if |stream| < HEADER_SIZE then Short
    else
      var size := SizeOf(Be16(stream, 4));
      if size == 0 || |stream| < HEADER_SIZE + size then Short
      else
        Got(Frame(Be16(stream, 0), Be16(stream, 2), stream[6], stream[7..7 + size]), stream[7 + size..])
  }

  /** All messages of a stream, up to the end or to one that is cut off. */
  function Frames(stream: seq<bv8>): seq<Frame>
    decreases |stream|
  {
    match Deframe(stream)
    case Short => []
    case Got(f, rest) => [f] + Frames(rest)
  }

  lemma DeframeBytes(f: Frame, rest: seq<bv8>)
    requires IsFrame(f)
    ensures Deframe(Bytes(f) + rest) == Got(f, rest)
  {
    hide HighByte, LowByte, Be16;
    var s, head := Bytes(f) + rest, Header(f.id, f.protocol, |f.pdu|, f.unit);
    assert forall k :: 0 <= k < HEADER_SIZE ==> s[k] == head[k];
    FieldAt(s, 0, f.id);
    FieldAt(s, 2, f.protocol);
    FieldAt(s, 4, |f.pdu| + 1);
    assert s[7..7 + |f.pdu|] == f.pdu && s[7 + |f.pdu|..] == rest;
  }

  lemma FieldAt(s: seq<bv8>, i: nat, value: uint16)
    requires i + 1 < |s| && s[i] == HighByte(value) && s[i + 1] == LowByte(value)
    ensures Be16(s, i) == value
  {
    hide HighByte, LowByte;
    Be16Of(value);
  }

  /** Framing and deframing a whole stream: the same messages in the same order. */
  lemma {:induction false} StreamRoundTrip(frames: seq<Frame>, rest: seq<bv8>)
    requires AreFrames(frames)
    ensures Frames(Stream(frames) + rest) == frames + Frames(rest)
  {
    hide Bytes, Deframe;
    if frames == [] {
      assert Stream(frames) + rest == rest;
    } else {
      StreamRoundTrip(frames[1..], rest);
      DeframeBytes(frames[0], Stream(frames[1..]) + rest);
      assert Stream(frames) + rest == Bytes(frames[0]) + (Stream(frames[1..]) + rest);
    }
  }

  lemma {:induction false} StreamConcat(a: seq<Frame>, b: seq<Frame>)
    ensures Stream(a + b) == Stream(a) + Stream(b)
  {
    hide Bytes;
    if a == [] {
      assert a + b == b;
      assert Stream(a) + Stream(b) == Stream(b);
    } else {
      var head, x, y := Bytes(a[0]), Stream(a[1..]), Stream(b);
      StreamConcat(a[1..], b);
      assert a + b != [] && (a + b)[0] == a[0] && (a + b)[1..] == a[1..] + b;
      assert Stream(a + b) == head + (x + y);
      assert head + (x + y) == (head + x) + y;
    }
  }

  /** The stream begins with these messages, and rest comes after them. */
  predicate Leads(stream: seq<bv8>, frames: seq<Frame>, rest: seq<bv8>) {
    if frames == [] then stream == rest
    else
      match Deframe(stream)
      case Short => false
      case Got(f, more) => f == frames[0] && Leads(more, frames[1..], rest)
  }

  lemma {:induction false} LeadsMore(stream: seq<bv8>, frames: seq<Frame>, rest: seq<bv8>)
    requires Leads(stream, frames, rest) && Deframe(rest).Got?
    ensures Leads(stream, frames + [Deframe(rest).frame], Deframe(rest).rest)
    decreases |frames|
  {
    hide Deframe;
    var f := Deframe(rest).frame;
    if frames == [] {
      assert [] + [f] == [f] && [f][1..] == [];
    } else {
      LeadsMore(Deframe(stream).rest, frames[1..], rest);
      assert (frames + [f])[0] == frames[0] && (frames + [f])[1..] == frames[1..] + [f];
    }
  }

  /** So these are the first of all its messages. */
  lemma {:induction false} LeadsFrames(stream: seq<bv8>, frames: seq<Frame>, rest: seq<bv8>)
    requires Leads(stream, frames, rest)
    ensures Frames(stream) == frames + Frames(rest)
    decreases |frames|
  {
    hide Deframe;
    if frames != [] {
      LeadsFrames(Deframe(stream).rest, frames[1..], rest);
      assert frames == [frames[0]] + frames[1..];
    }
  }

  /** The receiver takes exactly the bytes the length field announces, and so finds the next message,
      if and only if the field is between 2 and 254. */
  lemma LengthField(stream: seq<bv8>)
    requires |stream| >= HEADER_SIZE && |stream| >= Be16(stream, 4) + 6
    ensures var length := Be16(stream, 4);
      Deframe(stream).Got? && Deframe(stream).rest == stream[6 + length..] <==> 2 <= length <= 254
  {
    hide Be16;
    var length := Be16(stream, 4);
    if Deframe(stream).Got? {
      assert |Deframe(stream).rest| == |stream| - HEADER_SIZE - SizeOf(length);
      assert |stream[6 + length..]| == |stream| - 6 - length;
    }
  }

  /** The two bytes from i on have a value, the high byte first. */
  predicate Numbers(s: seq<bv8>, i: nat, value: nat)
    requires i + 1 < |s|
  {
    256 * s[i] as int + s[i + 1] as int == value
  }

  /** The header byte by byte, every field with its high byte first: id, protocol, length, unit. */
  lemma BytesByValue(f: Frame)
    requires |f.pdu| < 0xFFFF
    ensures var b := Bytes(f);
      && |b| == 7 + |f.pdu| && b[7..] == f.pdu && b[6] == f.unit
      && Numbers(b, 0, f.id) && Numbers(b, 2, f.protocol) && Numbers(b, 4, |f.pdu| + 1)
  {
    hide HighByte, LowByte, Numbers;
    var b, head := Bytes(f), Header(f.id, f.protocol, |f.pdu|, f.unit);
    assert forall k :: 0 <= k < HEADER_SIZE ==> b[k] == head[k];
    assert b[7..] == f.pdu;
    InNumbers(b, 0, f.id);
    InNumbers(b, 2, f.protocol);
    InNumbers(b, 4, |f.pdu| + 1);
  }

  lemma InNumbers(s: seq<bv8>, i: nat, value: uint16)
    requires i + 1 < |s| && s[i] == HighByte(value) && s[i + 1] == LowByte(value)
    ensures Numbers(s, i, value)
  {
    hide HighByte, LowByte;
    Be16Of(value);
  }

  /** And as it is taken from a stream. */
  lemma DeframeByValue(s: seq<bv8>)
    requires |s| >= 7
    ensures var length := 256 * s[4] as int + s[5] as int;
      2 <= length <= 254 && |s| >= 6 + length ==>
        Deframe(s) == Got(
          Frame(256 * s[0] as int + s[1] as int, 256 * s[2] as int + s[3] as int, s[6], s[7..6 + length]),
          s[6 + length..])
    ensures 256 * s[4] as int + s[5] as int == 1 ==> Deframe(s) == Short
    ensures |s| < 6 + 256 * s[4] as int + s[5] as int <= 260 ==> Deframe(s) == Short
  {
  }

  /** The others: 0 makes it take 253 bytes nobody announced, 1 leaves it without a message, which
      brings the connection down, and after more than 254 it goes on in the middle of the message. */
  lemma LengthFieldOdd(stream: seq<bv8>)
    requires |stream| >= HEADER_SIZE + MAX_PDU_SIZE
    ensures Be16(stream, 4) == 0 ==> Deframe(stream).Got? && Deframe(stream).rest == stream[260..]
    ensures Be16(stream, 4) == 1 ==> Deframe(stream) == Short
    ensures Be16(stream, 4) > 254 ==> Deframe(stream).Got? && Deframe(stream).rest == stream[260..]
  {
  }

  /** The requests among the messages. */
  function Requests(frames: seq<Frame>): seq<Frame> {
    if frames == [] then []
    else
      var before := Requests(frames[..|frames| - 1]);
      var f := frames[|frames| - 1];
      if f.protocol == 0 then before + [f] else before
  }

  /** They are those of protocol 0. */
  lemma {:induction false} RequestsByProtocol(frames: seq<Frame>, f: Frame)
    ensures f in Requests(frames) <==> f in frames && f.protocol == 0
  {
    if frames != [] {
      RequestsByProtocol(frames[..|frames| - 1], f);
      assert frames == frames[..|frames| - 1] + [frames[|frames| - 1]];
    }
  }

  lemma RequestsMore(frames: seq<Frame>, f: Frame)
    ensures Requests(frames + [f]) == if f.protocol == 0 then Requests(frames) + [f] else Requests(frames)
  {
    assert (frames + [f])[..|frames|] == frames;
  }
}
