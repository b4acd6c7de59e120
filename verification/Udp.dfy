/**
 The datagram envelope of smartbus/udp.go around the same frames. The receiving side
 checks the envelope and nothing else: neither the length byte nor the checksum.
 */
module Udp {
  import opened Outcome
  import opened FieldConverters
  import opened Messages
  import opened Frame

  // SMARTCLOUD, then the two sync bytes.
  const UDP_SIGNATURE: seq<bv8> := [0x53, 0x4d, 0x41, 0x52, 0x54, 0x43, 0x4c, 0x4f, 0x55, 0x44, 0xaa, 0xaa]

  // The address that doSend puts first, and how many bytes of it.
  const ADDRESS_SIZE := 4

  // doSend with a sixteen-byte address; the datagram is the result.
  method DoSend(outgoingIP: seq<bv8>, o: Outgoing) returns (packet: Outcome<seq<bv8>>)
    requires |outgoingIP| == 16
    ensures CanSend(o) ==> packet == Ok(outgoingIP[..ADDRESS_SIZE] + UDP_SIGNATURE + SentFrame(o))
    ensures !CanSend(o) ==> packet == Panic
  {
    hide CanSend, SentFrame;
    var buf := new Buffer([]);
    buf.Write(outgoingIP[..ADDRESS_SIZE]);
    buf.Write(UDP_SIGNATURE[..|UDP_SIGNATURE| - 2]);
    var r := WriteOutgoing(buf, o);
    if !r.Ok? {
      return Panic;
    }
    assert UDP_SIGNATURE[..|UDP_SIGNATURE| - 2] + SYNC_BYTES == UDP_SIGNATURE;
    assert buf.data == outgoingIP[..ADDRESS_SIZE] + (UDP_SIGNATURE[..|UDP_SIGNATURE| - 2] + SYNC_BYTES) + SentFrame(o);
    return Ok(buf.data);
  }

  datatype Received = TooShort | BadSignature | Parsed(result: Outcome<SmartbusMessage>)

  // processUdpPacket outside gateway mode.
  function ProcessUdpPacket(packet: seq<bv8>): Received {
    var n := |UDP_SIGNATURE| + ADDRESS_SIZE;
    if |packet| < n then TooShort
    else if packet[ADDRESS_SIZE..n] != UDP_SIGNATURE then BadSignature
    else Parsed(ParseFrame(packet[n..]))
  }

  // The signature is ten letters and the two sync bytes.
  lemma SignatureLetters()
    ensures |UDP_SIGNATURE| == 12 && UDP_SIGNATURE[10..] == SYNC_BYTES
    ensures forall i :: 0 <= i < 10 ==> UDP_SIGNATURE[i] as char == "SMARTCLOUD"[i]
  {
    forall i | 0 <= i < 10 ensures UDP_SIGNATURE[i] as char == "SMARTCLOUD"[i] {
      if i == 0 {} else if i == 1 {} else if i == 2 {} else if i == 3 {} else if i == 4 {}
      else if i == 5 {} else if i == 6 {} else if i == 7 {} else if i == 8 {} else {}
    }
  }

  // What is taken for a frame: four bytes, the signature, and then anything. Everything
  // else is refused.
  lemma TakenIffEnvelope(packet: seq<bv8>, frame: seq<bv8>)
    ensures (exists address: seq<bv8> :: |address| == ADDRESS_SIZE && packet == address + UDP_SIGNATURE + frame) ==>
      ProcessUdpPacket(packet) == Parsed(ParseFrame(frame))
    ensures ProcessUdpPacket(packet).Parsed? <==>
      |packet| >= 16 && packet == packet[..ADDRESS_SIZE] + UDP_SIGNATURE + packet[16..]
    ensures ProcessUdpPacket(packet) == TooShort <==> |packet| < 16
  {
    hide ParseFrame, UDP_SIGNATURE;
    assert |UDP_SIGNATURE| == 12 by { SignatureLetters(); }
    if address: seq<bv8> :| |address| == ADDRESS_SIZE && packet == address + UDP_SIGNATURE + frame {
      assert packet[ADDRESS_SIZE..16] == UDP_SIGNATURE && packet[16..] == frame;
    }
    if |packet| >= 16 {
      assert packet == packet[..ADDRESS_SIZE] + packet[ADDRESS_SIZE..16] + packet[16..];
      assert (packet[..ADDRESS_SIZE] + UDP_SIGNATURE + packet[16..])[ADDRESS_SIZE..16] == UDP_SIGNATURE;
    }
  }

  // A datagram gives its message back exactly for the messages of the domain. The limit
  // on the payload of a stream frame does not apply.
  lemma DatagramIff(address: seq<bv8>, msg: SmartbusMessage)
    requires |address| == ADDRESS_SIZE && Encodable(msg)
    ensures ProcessUdpPacket(address + UDP_SIGNATURE + FrameOf(msg)) == Parsed(Ok(Stamped(msg))) <==>
        InDomain(msg.message)
  {
    hide Encodable, FrameOf, InDomain, ParseFrame, Stamped;
    var packet := address + UDP_SIGNATURE + FrameOf(msg);
    var n := |UDP_SIGNATURE| + ADDRESS_SIZE;
    assert packet[ADDRESS_SIZE..n] == UDP_SIGNATURE && packet[n..] == FrameOf(msg);
    ParseFrameOf(msg);
  }

  // Exactly which datagrams make the receiver panic. A bare envelope is one of them.
  lemma DatagramPanicIff(packet: seq<bv8>)
    ensures ProcessUdpPacket(packet) == Parsed(Panic) <==>
      |packet| >= 16 && packet[ADDRESS_SIZE..16] == UDP_SIGNATURE && CrashFrame(packet[16..])
  {
    hide ParseFrame, CrashFrame;
    if |packet| >= 16 {
      ParsePanicIff(packet[16..]);
    }
  }

  lemma BareEnvelopePanics(address: seq<bv8>)
    requires |address| == ADDRESS_SIZE
    ensures ProcessUdpPacket(address + UDP_SIGNATURE) == Parsed(Panic)
  {
    var packet := address + UDP_SIGNATURE;
    assert packet[ADDRESS_SIZE..16] == UDP_SIGNATURE && packet[16..] == [];
    DatagramPanicIff(packet);
  }

  // Corruption of the length byte or of the checksum goes unnoticed.
  lemma EnvelopeIgnoresLengthAndChecksum(address: seq<bv8>, frame: seq<bv8>, l: bv8, hi: bv8, lo: bv8)
    requires |address| == ADDRESS_SIZE && |frame| >= 3
    ensures ProcessUdpPacket(address + UDP_SIGNATURE + frame[0 := l][|frame| - 2 := hi][|frame| - 1 := lo])
         == ProcessUdpPacket(address + UDP_SIGNATURE + frame)
  {
    hide ReadHeader, DecodeMessage;
    var other := frame[0 := l][|frame| - 2 := hi][|frame| - 1 := lo];
    var n := |UDP_SIGNATURE| + ADDRESS_SIZE;
    assert other[1..|frame| - 2] == frame[1..|frame| - 2];
    forall f | f == frame || f == other
      ensures ProcessUdpPacket(address + UDP_SIGNATURE + f) == Parsed(ParseFrame(f))
    {
      var packet := address + UDP_SIGNATURE + f;
      assert packet[ADDRESS_SIZE..n] == UDP_SIGNATURE && packet[n..] == f;
    }
  }
}
