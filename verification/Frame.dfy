/**
 One frame of smartbus/frame.go: its bytes, the code that writes it, and ParseFrame.
 */
module Frame {
  import opened BigEndian
  import opened Outcome
  import opened Crc16
  import opened MessageFormat
  import opened FieldConverters
  import opened Messages
  import opened PanicConditions
  import opened StreamGrammar

  datatype MessageHeader = MessageHeader(
    origSubnetID: bv8,
    origDeviceID: bv8,
    origDeviceType: bv16,
    opcode: bv16,
    targetSubnetID: bv8,
    targetDeviceID: bv8)

  datatype SmartbusMessage = SmartbusMessage(header: MessageHeader, message: Message)

  const HEADER_SIZE := 8

  function HeaderBytes(h: MessageHeader): (bs: seq<bv8>)
    ensures |bs| == HEADER_SIZE
  {
    [h.origSubnetID, h.origDeviceID, Hi(h.origDeviceType), Lo(h.origDeviceType),
     Hi(h.opcode), Lo(h.opcode), h.targetSubnetID, h.targetDeviceID]
  }

  function ReadHeader(bs: seq<bv8>): Outcome<(MessageHeader, seq<bv8>)> {
    var (p, rest) :- Take(bs, HEADER_SIZE);
    Ok((MessageHeader(p[0], p[1], Word(p[2], p[3]), Word(p[4], p[5]), p[6], p[7]), rest))
  }

  // The message in a frame. The length byte and the checksum are skipped, not checked.
  function ParseFrame(frame: seq<bv8>): Outcome<SmartbusMessage> {
    if |frame| < 3 then Panic
    else
      var (header, payload) :- ReadHeader(frame[1..|frame| - 2]);
      var message :- DecodeMessage(header.opcode, payload);
      Ok(SmartbusMessage(header, message))
  }

  // What is written as the opcode, whatever the header said.
  function Stamped(m: SmartbusMessage): SmartbusMessage {
    m.(header := m.header.(opcode := Opcode(m.message)))
  }

  // A frame without sync: length, header, payload, checksum. The length is truncated
  // to a byte.
  function FrameBytes(h: MessageHeader, payload: seq<bv8>): (frame: seq<bv8>)
    ensures |frame| == MIN_FRAME_SIZE + |payload|
  {
    var body := [Count(MIN_FRAME_SIZE + |payload|)] + HeaderBytes(h) + payload;
    body + [Hi(Crc(body)), Lo(Crc(body))]
  }

  // The messages that WriteFrame does not panic on.
  predicate Encodable(m: SmartbusMessage)
    ensures Encodable(m) <==> EncodeMessage(m.message).Ok?
  {
    EncodableIff(m.message);
    CanWrite(m.message)
  }

  // The frame of a message that can be written.
  function FrameOf(m: SmartbusMessage): seq<bv8>
    requires Encodable(m)
  {
    FrameBytes(Stamped(m).header, EncodeMessage(m.message).value)
  }

  const SYNC_BYTES: seq<bv8> := [SYNC, SYNC]

  // What the senders take: a message, a frame that is sent as it is, or anything else,
  // which is a panic.
  datatype Outgoing = Typed(msg: SmartbusMessage) | PreBuilt(frame: seq<bv8>) | Unsupported

  predicate CanSend(o: Outgoing) {
    match o
    case Typed(msg) => Encodable(msg)
    case PreBuilt(_) => true
    case Unsupported => false
  }

  function SentFrame(o: Outgoing): seq<bv8>
    requires CanSend(o)
  {
    match o
    case Typed(msg) => FrameOf(msg)
    case PreBuilt(frame) => frame
  }

  // ----- writing -----

  method WritePreBuiltFrame(writer: Buffer, frame: array<bv8>)
    requires writer.Valid()
    modifies writer`data
    ensures writer.Valid() && writer.data == old(writer.data) + (SYNC_BYTES + old(frame[..]))
  {
    var bs := new bv8[frame.Length + 2];
    bs[0] := SYNC;
    bs[1] := SYNC;
    for i := 0 to frame.Length
      modifies bs
      invariant bs[0] == bs[1] == SYNC && bs[2..2 + i] == frame[..i]
    {
      bs[2 + i] := frame[i];
    }
    assert bs[..] == SYNC_BYTES + frame[..];
    writer.Write(bs[..]);
  }

  // WriteFrame with WriteFrameRaw inlined: the length is patched in after the payload,
  // the checksum is taken from there on, and everything goes out in one write. A message
  // that cannot be encoded is a panic.
  method WriteFrame(writer: Buffer, fullMsg: SmartbusMessage) returns (res: Outcome<()>)
    requires writer.Valid()
    modifies writer`data
    ensures writer.Valid()
    ensures Encodable(fullMsg) ==>
      res == Ok(()) && writer.data == old(writer.data) + (SYNC_BYTES + FrameOf(fullMsg))
    ensures !Encodable(fullMsg) ==> res == Panic && writer.data == old(writer.data)
  {
    hide Fields, EncodeAll, Count, Crc, HeaderBytes, Layout, TypeOf, OpcodeOf;
    var header := Stamped(fullMsg).header;
    var buf := new Buffer([]);
    buf.Write(SYNC_BYTES);
    buf.Write([0]); // len placeholder
    buf.Write(HeaderBytes(header));
    var fields := Fields(fullMsg.message);
    if !fields.Ok? {
      return Panic;
    }
    FieldsLayout(fullMsg.message);
    var written := WriteMessage(buf, Layout(TypeOf(fullMsg.message)), fields.value);
    if !written.Ok? {
      return Panic;
    }
    ghost var payload := EncodeMessage(fullMsg.message).value;
    assert buf.data == SYNC_BYTES + [0] + HeaderBytes(header) + payload;
    buf.data := buf.data[2 := Count(|buf.data|)];
    ghost var body := [Count(MIN_FRAME_SIZE + |payload|)] + HeaderBytes(header) + payload;
    assert buf.data == SYNC_BYTES + body;
    assert buf.data[2..] == body;
    var crc := ComputeCrc16(buf.data[2..]);
    buf.Write([Hi(crc), Lo(crc)]);
    assert buf.data == SYNC_BYTES + FrameOf(fullMsg);
    writer.Write(buf.data);
    return Ok(());
  }

  // The type switch of the senders.
  method WriteOutgoing(writer: Buffer, o: Outgoing) returns (res: Outcome<()>)
    requires writer.Valid()
    modifies writer`data
    ensures writer.Valid()
    ensures CanSend(o) ==> res == Ok(()) && writer.data == old(writer.data) + (SYNC_BYTES + SentFrame(o))
    ensures !CanSend(o) ==> res == Panic && writer.data == old(writer.data)
  {
    hide Encodable, FrameOf;
    match o {
      case Typed(msg) => res := WriteFrame(writer, msg);
      case PreBuilt(frame) =>
        var bs := new bv8[|frame|](i requires 0 <= i < |frame| => frame[i]);
        assert bs[..] == frame;
        WritePreBuiltFrame(writer, bs);
        return Ok(());
      case Unsupported => return Panic;
    }
  }

  // ----- a written frame is accepted and parsed back -----

  lemma FrameHasCrc(h: MessageHeader, payload: seq<bv8>)
    ensures CrcOk(FrameBytes(h, payload))
  {
    hide Crc, HeaderBytes, Count;
    var body := [Count(MIN_FRAME_SIZE + |payload|)] + HeaderBytes(h) + payload;
    var frame := FrameBytes(h, payload);
    assert frame[..|frame| - 2] == body;
    WordOfBytes(Crc(body));
  }

  // The length byte is right exactly for payloads of at most 244 bytes.
  lemma FramedIff(h: MessageHeader, payload: seq<bv8>)
    ensures Framed(FrameBytes(h, payload)) <==> |payload| <= 244
  {
    var n := MIN_FRAME_SIZE + |payload|;
    CountFits(n % 256);
    assert Count(n % 256) == Count(n);
  }

  lemma HeaderRoundTrip(h: MessageHeader, rest: seq<bv8>)
    ensures ReadHeader(HeaderBytes(h) + rest) == Ok((h, rest))
  {
    hide Hi, Lo, Word;
    TakePrefix(HeaderBytes(h), rest);
    WordOfBytes(h.origDeviceType);
    WordOfBytes(h.opcode);
  }

  lemma ParseOfFrame(h: MessageHeader, payload: seq<bv8>)
    ensures ParseFrame(FrameBytes(h, payload)) == match DecodeMessage(h.opcode, payload)
      case Ok(m) => Ok(SmartbusMessage(h, m))
      case Err(e) => Err(e)
      case Panic => Panic
  {
    hide Crc, HeaderBytes, Count, DecodeMessage, ReadHeader;
    var frame := FrameBytes(h, payload);
    assert frame[1..|frame| - 2] == HeaderBytes(h) + payload;
    HeaderRoundTrip(h, payload);
  }

  // Frames carry exactly the messages of the domain, with the opcode filled in.
  lemma ParseFrameOf(m: SmartbusMessage)
    requires Encodable(m)
    ensures ParseFrame(FrameOf(m)) == Ok(Stamped(m)) <==> InDomain(m.message)
  {
    hide DecodeMessage, EncodeMessage, InDomain, FrameBytes, ParseFrame;
    ParseOfFrame(Stamped(m).header, EncodeMessage(m.message).value);
    RoundTripIff(m.message);
  }

  // Whatever the bytes of a frame, a message parsed from it that can be written at all
  // has a frame that is no longer, and survives it.
  lemma ParsedIsInDomain(frame: seq<bv8>)
    requires ParseFrame(frame).Ok? && Encodable(ParseFrame(frame).value)
    ensures var m := ParseFrame(frame).value;
      && InDomain(m.message)
      && Stamped(m) == m
      && |FrameOf(m)| <= |frame|
      && ParseFrame(FrameOf(m)) == Ok(m)
  {
    hide DecodeMessage, EncodeMessage, InDomain, Opcode, FrameBytes;
    var (header, payload) := ReadHeader(frame[1..|frame| - 2]).value;
    var m := ParseFrame(frame).value;
    Normalise(header.opcode, payload);
    ParseFrameOf(m);
    FrameSize(Stamped(m).header, EncodeMessage(m.message).value);
  }

  lemma FrameSize(h: MessageHeader, payload: seq<bv8>)
    ensures |FrameBytes(h, payload)| == MIN_FRAME_SIZE + |payload|
  {}

  // ----- frames that make ParseFrame panic -----

  predicate CrashFrame(frame: seq<bv8>) {
    || |frame| < 3
    || (|frame| >= MIN_FRAME_SIZE && CrashPayload(Word(frame[5], frame[6]), frame[9..|frame| - 2]))
  }

  // Too short for a length and a checksum, or with a crashing payload; nothing else.
  lemma ParsePanicIff(frame: seq<bv8>)
    ensures ParseFrame(frame).Panic? <==> CrashFrame(frame)
  {
    hide Word, DecodeMessage, CrashPayload;
    if |frame| >= MIN_FRAME_SIZE {
      assert frame[1..|frame| - 2][HEADER_SIZE..] == frame[9..|frame| - 2];
      CrashIff(Word(frame[5], frame[6]), frame[9..|frame| - 2]);
    }
  }
}
