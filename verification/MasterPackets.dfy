/** How the Raspberry Pi master packs a UDS request into a DoIP diagnostic message and how it reads
    the answer, against the gateway's framing of the one and encoding of the other. */
module MasterPackets {

  import opened Bytes
  import D = DoipModel

  const RPI_ADDRESS := 0x0E00
  const NEGATIVE_RESPONSE: byte := 0x7F

  /** sendUdsPacket: the bytes sent are the DoIP message of the request, but for a length field that
      has 16 bits under two zero bytes. */
  method SendUdsPacket(target: nat, sid: byte, payload: seq<byte>) returns (pkt: seq<byte>)
    requires target < 0x1_0000
    ensures pkt == Packet(target, sid, payload)
    ensures |payload| + 5 < 0x1_0000 ==> pkt == D.Encode(Request(target, sid, payload))
    ensures |pkt| >= D.HEADER_LENGTH && D.VersionOk(pkt) && D.DeclaredType(pkt) == D.TYPE_DIAG_MESSAGE
    ensures D.DeclaredLength(pkt) == (|payload| + 5) % 0x1_0000
    ensures pkt[D.HEADER_LENGTH..] == Request(target, sid, payload).payload
  {
    PacketFields(target, sid, payload);
    var doipPayloadLen := |payload| + 1 + 4;
    pkt := [0x02, 0xFD];
    pkt := pkt + [0x80, 0x01];
    pkt := pkt + [0x00, 0x00];
    pkt := pkt + [doipPayloadLen / 256 % 256, doipPayloadLen % 256];
    pkt := pkt + [RPI_ADDRESS / 256 % 256, RPI_ADDRESS % 256];
    pkt := pkt + [target / 256 % 256, target % 256];
    pkt := pkt + [sid];
    pkt := pkt + payload;
  }

  function Packet(target: nat, sid: byte, payload: seq<byte>): seq<byte> {
    [0x02, 0xFD, 0x80, 0x01, 0x00, 0x00] + Be16(|payload| + 5) + Be16(RPI_ADDRESS) + Be16(target) + [sid] + payload
  }

  /** The message a request is meant to be. */
  function Request(target: nat, sid: byte, payload: seq<byte>): D.Message {
    D.Message(D.TYPE_DIAG_MESSAGE, Be16(RPI_ADDRESS) + Be16(target) + [sid] + payload)
  }

  /** The length field as the master writes it. */
  lemma LengthField(n: nat)
    ensures U32(0x00, 0x00, Be16(n)[0], Be16(n)[1]) == n % 0x1_0000
    ensures n < 0x1_0000 ==> Be32(n) == [0x00, 0x00] + Be16(n)
  {
    LowWord(n / 256, n % 256);
    if n < 0x1_0000 {
      UpperBytesZero(n);
    }
  }

  lemma LowWord(q: nat, low: nat)
    requires low < 256
    ensures (256 * q + low) % 0x1_0000 == 256 * (q % 256) + low
  {
    var k := q / 256;
    assert 256 * q + low == 0x1_0000 * k + (256 * (q % 256) + low);
  }

  lemma UpperBytesZero(n: nat)
    requires n < 0x1_0000
    ensures n / 0x100_0000 % 256 == 0 && n / 0x1_0000 % 256 == 0
  {}

  lemma PacketParts(target: nat, sid: byte, payload: seq<byte>)
    ensures Packet(target, sid, payload) ==
            [D.VERSION, D.INVERSE_VERSION] + Be16(D.TYPE_DIAG_MESSAGE) + ([0x00, 0x00] + Be16(|payload| + 5))
            + Request(target, sid, payload).payload
  {}

  lemma PacketFields(target: nat, sid: byte, payload: seq<byte>)
    ensures var pkt := Packet(target, sid, payload);
            && D.VersionOk(pkt) && D.DeclaredType(pkt) == D.TYPE_DIAG_MESSAGE
            && D.DeclaredLength(pkt) == (|payload| + 5) % 0x1_0000
            && pkt[D.HEADER_LENGTH..] == Request(target, sid, payload).payload
            && (|payload| + 5 < 0x1_0000 ==> pkt == D.Encode(Request(target, sid, payload)))
  {
    hide Be16, Be32, U16, U32, Packet;
    var n, m := |payload| + 5, Request(target, sid, payload);
    var length := [0x00, 0x00] + Be16(n);
    PacketParts(target, sid, payload);
    LengthField(n);
    Be16RoundTrip(D.TYPE_DIAG_MESSAGE);
    D.HeaderBytes(Be16(D.TYPE_DIAG_MESSAGE), length, m.payload);
  }

  /** The packing is the encoding of the request exactly for the lengths that fit the field. */
  lemma PacketIsEncoded(target: nat, sid: byte, payload: seq<byte>)
    requires |payload| + 5 < 0x1_0000_0000
    ensures Packet(target, sid, payload) == D.Encode(Request(target, sid, payload)) <==> |payload| + 5 < 0x1_0000
  {
    PacketFields(target, sid, payload);
    if |payload| + 5 >= 0x1_0000 {
      Be32RoundTrip(|payload| + 5);
      EncodedLength(Request(target, sid, payload));
    }
  }

  lemma EncodedLength(m: D.Message)
    requires |m.payload| < 0x1_0000_0000
    ensures D.DeclaredLength(D.Encode(m)) == |m.payload|
  {
    hide Be16, Be32, U32;
    D.HeaderBytes(Be16(m.payloadType), Be32(|m.payload|), m.payload);
    Be32RoundTrip(|m.payload|);
  }

  /** The gateway takes the whole request as one message if and only if it has at most 2036 bytes;
      a longer one it drops with a negative acknowledgement. */
  lemma RequestFramed(target: nat, sid: byte, payload: seq<byte>)
    requires target < 0x1_0000 && |payload| + 5 < 0x1_0000
    ensures var f := D.Frame(Packet(target, sid, payload));
            if 1 + |payload| <= 2036 then
              f == D.Framing([Request(target, sid, payload)], [], D.Waiting)
            else
              f == D.Framing([], [], D.Nack(D.NACK_MESSAGE_TOO_LARGE))
  {
    hide D.Encode, Packet;
    var m := Request(target, sid, payload);
    PacketFields(target, sid, payload);
    if 1 + |payload| <= 2036 {
      D.OneWhole(m);
    } else {
      EncodedLength(m);
    }
  }

  lemma HandleOne(d: D.Session, m: D.Message)
    ensures D.HandleAll(d, [m]) == D.Handle(d, m)
  {
    hide D.Handle;
    assert [m][..0] == [];
    assert D.HandleAll(d, []) == D.Handled(d, []);
  }

  /** With an active session and a known target, the request leaves DoIP for PduR as exactly the
      service identifier followed by the payload, under the handle of that target. */
  lemma RequestHandled(d: D.Session, target: nat, id: nat, sid: byte, payload: seq<byte>)
    requires d.active && target < 0x1_0000 && D.FirstTarget(target, 0) == Some(id)
    ensures D.HandleAll(d, [Request(target, sid, payload)]) ==
            D.Handled(D.Session(true, RPI_ADDRESS), [D.ToPduR(id, [sid] + payload)])
  {
    var m := Request(target, sid, payload);
    Be16RoundTrip(target);
    Be16RoundTrip(RPI_ADDRESS);
    assert m.payload[..4] == Be16(RPI_ADDRESS) + Be16(target);
    assert m.payload[0] == m.payload[..4][0] && m.payload[1] == m.payload[..4][1];
    assert m.payload[2] == m.payload[..4][2] && m.payload[3] == m.payload[..4][3];
    assert m.payload[4..] == [sid] + payload;
    HandleOne(d, m);
  }

  /** routingActivation: the eleven bytes sent, and the test made of the answer. */
  const ACTIVATION_PACKET: seq<byte> := [0x02, 0xFD, 0x00, 0x05, 0x00, 0x00, 0x00, 0x03, 0x0E, 0x00, 0x00]

  predicate ActivationAccepted(res: seq<byte>, len: int)
    requires len <= |res|
  {
    len >= 8 && res[2] == 0x00 && res[3] == 0x06
  }

  /** The gateway activates routing for the master on exactly this packet, and the master takes its
      answer for what it is, and a negative acknowledgement for a failure. */
  lemma RoutingActivationWorks(d: D.Session, code: byte)
    ensures D.Frame(ACTIVATION_PACKET).rest == [] && D.Frame(ACTIVATION_PACKET).stop == D.Waiting
    ensures var h := D.HandleAll(d, D.Frame(ACTIVATION_PACKET).messages);
            && h.session == D.Session(true, RPI_ADDRESS)
            && |h.outputs| == 1 && h.outputs[0].ToSoAd?
            && ActivationAccepted(h.outputs[0].bytes, |h.outputs[0].bytes|)
    ensures var nack := D.NackOutput(code).bytes; !ActivationAccepted(nack, |nack|)
  {
    hide D.Frame, D.Encode;
    var m := D.Message(D.TYPE_ROUTING_ACTIVATION_REQ, [0x0E, 0x00, 0x00]);
    assert ACTIVATION_PACKET == D.Encode(m) by { ActivationEncoded(m); }
    D.OneWhole(m);
    HandleOne(d, m);
    AnswersRead(code);
  }

  lemma ActivationEncoded(m: D.Message)
    requires m == D.Message(D.TYPE_ROUTING_ACTIVATION_REQ, [0x0E, 0x00, 0x00])
    ensures ACTIVATION_PACKET == D.Encode(m)
  {}

  lemma AnswersRead(code: byte)
    ensures var res := D.Encode(D.Message(D.TYPE_ROUTING_ACTIVATION_RES,
                                          Be16(RPI_ADDRESS) + Be16(D.ENTITY_ADDRESS) + [D.ROUTING_ACTIVATION_SUCCESS, 0, 0, 0, 0]));
            ActivationAccepted(res, |res|)
    ensures var nack := D.NackOutput(code).bytes; !ActivationAccepted(nack, |nack|)
  {}

  // ---------------------------------------------------------------------------------------------
  // Responses.

  /** What checkUdsResponse returns, or that it reads beyond its receive buffer. */
  datatype Verdict = Returns(code: int) | ReadsPastBuffer

  predicate HeaderAt(res: seq<byte>, i: nat)
    requires i + 4 <= |res|
  {
    res[i] == 0x02 && res[i + 1] == 0xFD && res[i + 2] == 0x80 && res[i + 3] == 0x01
  }

  /** Position `i` is where the search for a header ends. */
  predicate FirstHeader(res: seq<byte>, len: int, i: nat)
    requires len <= |res|
  {
    i <= len - 8 && HeaderAt(res, i) && forall j :: 0 <= j < i ==> !HeaderAt(res, j)
  }

  /** checkUdsResponse. `res` is the whole receive buffer, of which recv filled `len` bytes; a failed
      recv leaves `len` negative. */
  method CheckUdsResponse(res: seq<byte>, len: int, positive: byte, rid: nat) returns (v: Verdict)
    requires len <= |res|
    ensures (forall i: nat :: !FirstHeader(res, len, i)) ==> v == Returns(-100)
    ensures forall i: nat :: FirstHeader(res, len, i) ==> v == VerdictAt(res, len, i + 12, positive, rid)
  {
    var offset := -1;
    var i := 0;
    while i <= len - 8
      invariant 0 <= i && (i <= len - 7 || i == 0)
      invariant offset == -1
      invariant forall j :: 0 <= j < i ==> !HeaderAt(res, j)
      decreases len - i
    {
      if res[i] == 0x02 && res[i + 1] == 0xFD && res[i + 2] == 0x80 && res[i + 3] == 0x01 {
        assert FirstHeader(res, len, i);
        offset := i;
        break;
      }
      i := i + 1;
    }
    if offset == -1 {
      return Returns(-100);
    }
    assert forall k: nat :: FirstHeader(res, len, k) ==> k == offset by {
      OnlyOneFirst(res, len, offset);
    }
    hide FirstHeader, HeaderAt;
    var sidIndex := offset + 12;
    if sidIndex >= len {
      return Returns(-100);
    }
    var sid := res[sidIndex];
    if sid == positive {
      if rid != 0 {
        if sidIndex + 3 >= |res| {
          return ReadsPastBuffer;
        }
        var received := U16(res[sidIndex + 2], res[sidIndex + 3]);
        if received != rid {
          return Returns(-101);
        }
      }
      return Returns(0);
    } else if sid == NEGATIVE_RESPONSE {
      if sidIndex + 2 >= |res| {
        return ReadsPastBuffer;
      }
      return Returns(res[sidIndex + 2]);
    }
    return Returns(-102);
  }

  lemma OnlyOneFirst(res: seq<byte>, len: int, i: nat)
    requires len <= |res| && FirstHeader(res, len, i)
    ensures forall k: nat :: FirstHeader(res, len, k) ==> k == i
  {
    hide HeaderAt;
  }

  function VerdictAt(res: seq<byte>, len: int, sidIndex: nat, positive: byte, rid: nat): Verdict
    requires len <= |res|
  {
    if sidIndex >= len then Returns(-100)
    else if res[sidIndex] == positive then
      if rid == 0 then Returns(0)
      else if sidIndex + 3 >= |res| then ReadsPastBuffer
      else if U16(res[sidIndex + 2], res[sidIndex + 3]) != rid then Returns(-101)
      else Returns(0)
    else if res[sidIndex] == NEGATIVE_RESPONSE then
      if sidIndex + 2 >= |res| then ReadsPastBuffer else Returns(res[sidIndex + 2])
    else Returns(-102)
  }

  /** Response round trip: when the first bytes of the receive buffer are a response of the gateway
      to an ECU's answer `uds`, the header is found at once and the master sees exactly that answer:
      0 for the expected positive response, the response code of a negative one (so 0 again if that
      code is 0), and -102 for anything else. */
  lemma ForwardedResponse(d: D.Session, doipTxPduId: nat, uds: seq<byte>, res: seq<byte>, len: nat, positive: byte)
    requires D.Transmit(d, doipTxPduId, uds).Some? && |uds| >= 1 && positive != NEGATIVE_RESPONSE
    requires var sent := D.Transmit(d, doipTxPduId, uds).value;
             13 <= len <= |sent| && len <= |res| && res[..len] == sent[..len]
    requires uds[0] == NEGATIVE_RESPONSE ==> |uds| >= 3 && len >= 15
    ensures FirstHeader(res, len, 0)
    ensures VerdictAt(res, len, 12, positive, 0) ==
            if uds[0] == positive then Returns(0)
            else if uds[0] == NEGATIVE_RESPONSE then Returns(uds[2])
            else Returns(-102)
  {}
}
