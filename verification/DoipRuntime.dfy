/** DoIP as it runs: the receive buffer that TCP segments are appended to and messages are framed
    out of, the transmit buffer, and the session the messages act on. */
module DoipRuntime {

  import opened Bytes
  import opened DoipModel

  const SOAD_RX_PDU := 0

  class Doip {
    var active: bool
    var tester: nat
    var rxLength: nat
    const rxBuffer: array<byte>
    const txBuffer: array<byte>

    // The calls of SoAd_Transmit and PduR_DoIPTpRxIndication, in order.
    var outputs: seq<Output>

    // What SoAd_Transmit answers.
    var accepts: bool

    ghost const Repr: set<object>

    ghost predicate Valid()
      reads this, Repr
    {
      && Repr == {this, rxBuffer, txBuffer} && rxBuffer != txBuffer
      && rxBuffer.Length == BUFFER_SIZE && txBuffer.Length == BUFFER_SIZE
      && rxLength <= BUFFER_SIZE
    }

    ghost function SessionOf(): Session
      reads this
    {
      Session(active, tester)
    }

    /** The bytes received and not yet framed. */
    ghost function Pending(): seq<byte>
      requires Valid()
      reads this, Repr
    {
      rxBuffer[..rxLength]
    }

    /** DoIP_Init. */
    constructor ()
      ensures Valid() && fresh(Repr)
      ensures SessionOf() == INITIALIZED && Pending() == [] && outputs == []
    {
      active, tester, rxLength, outputs, accepts := false, TESTER_ADDRESS, 0, [], true;
      rxBuffer := new byte[BUFFER_SIZE](_ => 0);
      txBuffer := new byte[BUFFER_SIZE](_ => 0);
      Repr := {this, rxBuffer, txBuffer};
    }

    /** DoIP_SendMessage: builds the message in the transmit buffer; refuses one that does not fit. */
    method SendMessage(payloadType: nat, payload: seq<byte>) returns (ok: bool)
      requires Valid()
      modifies this`outputs, txBuffer
      ensures Valid()
      ensures ok <==> HEADER_LENGTH + |payload| <= BUFFER_SIZE && accepts
      ensures outputs == old(outputs) + if HEADER_LENGTH + |payload| <= BUFFER_SIZE then [ToSoAd(Encode(Message(payloadType, payload)))] else []
    {
      var total := HEADER_LENGTH + |payload|;
      if total > BUFFER_SIZE {
        return false;
      }
      txBuffer[0], txBuffer[1] := VERSION, INVERSE_VERSION;
      Copy(txBuffer, 2, Be16(payloadType));
      Copy(txBuffer, 4, Be32(|payload|));
      Copy(txBuffer, HEADER_LENGTH, payload);
      assert txBuffer[..total] == Encode(Message(payloadType, payload));
      outputs := outputs + [ToSoAd(txBuffer[..total])];
      return accepts;
    }

    /** DoIP_SendGenericNack. */
    method SendGenericNack(code: byte)
      requires Valid()
      modifies this`outputs, txBuffer
      ensures Valid()
      ensures outputs == old(outputs) + [NackOutput(code)]
    {
      var _ := SendMessage(TYPE_GENERIC_NACK, [code]);
    }

    /** DoIP_FindRxPduConfigByTargetAddress. */
    method FindTarget(address: nat) returns (found: Option<nat>)
      ensures found == FirstTarget(address, 0)
    {
      for i := 0 to |TARGETS|
        invariant FirstTarget(address, 0) == FirstTarget(address, i)
      {
        if TARGETS[i].address == address {
          return Some(TARGETS[i].doipRxPduId);
        }
      }
      return None;
    }

    /** DoIP_FindTxPduConfig. */
    method FindSource(id: nat) returns (found: Option<nat>)
      ensures found == FirstSource(id, 0)
    {
      for i := 0 to |SOURCES|
        invariant FirstSource(id, 0) == FirstSource(id, i)
      {
        if SOURCES[i].doipTxPduId == id {
          return Some(SOURCES[i].address);
        }
      }
      return None;
    }

    /** DoIP_HandleRoutingActivation. `payload` is what stands in the receive buffer from the payload on,
        which need not be as much as its declared length; the handler says whether it would read beyond. */
    method HandleRoutingActivation(payload: seq<byte>, payloadLength: nat) returns (beyond: bool)
      requires Valid()
      modifies this`active, this`tester, this`outputs, txBuffer
      ensures Valid()
      ensures var h := HandleAt(old(SessionOf()), TYPE_ROUTING_ACTIVATION_REQ, payload, payloadLength);
              && beyond == h.None?
              && SessionOf() == (if beyond then old(SessionOf()) else h.value.session)
              && outputs == old(outputs) + if beyond then [] else h.value.outputs
    {
      if payloadLength < 3 {
        SendGenericNack(NACK_INVALID_HEADER);
        return false;
      }
      if |payload| < 2 {
        return true;
      }
      tester := U16(payload[0], payload[1]);
      active := true;
      var _ := SendMessage(
        TYPE_ROUTING_ACTIVATION_RES, Be16(tester) + Be16(ENTITY_ADDRESS) + [ROUTING_ACTIVATION_SUCCESS, 0, 0, 0, 0]);
      return false;
    }

    /** DoIP_HandleDiagnosticMessage. The length of the UDS data is cut to 16 bits. */
    method HandleDiagnosticMessage(payload: seq<byte>, payloadLength: nat) returns (beyond: bool)
      requires Valid()
      modifies this`tester, this`outputs
      ensures Valid()
      ensures var h := HandleAt(old(SessionOf()), TYPE_DIAG_MESSAGE, payload, payloadLength);
              && beyond == h.None?
              && SessionOf() == (if beyond then old(SessionOf()) else h.value.session)
              && outputs == old(outputs) + if beyond then [] else h.value.outputs
    {
      if payloadLength < 5 {
        return false;
      }
      if !active {
        return false;
      }
      if |payload| < 4 {
        return true;
      }
      var target := FindTarget(U16(payload[2], payload[3]));
      if target.None? {
        return false;
      }
      tester := U16(payload[0], payload[1]);
      if payloadLength <= |payload| {
        outputs := outputs + [ToPduR(target.value, payload[4..payloadLength])];
      } else {
        outputs := outputs + [ToPduRBeyond(target.value, (payloadLength - 4) % 0x1_0000)];
      }
      return false;
    }

    /** DoIP_HandleMessage. */
    method HandleMessage(payloadType: nat, payload: seq<byte>, payloadLength: nat) returns (beyond: bool)
      requires Valid()
      modifies this`active, this`tester, this`outputs, txBuffer
      ensures Valid()
      ensures var h := HandleAt(old(SessionOf()), payloadType, payload, payloadLength);
              && beyond == h.None?
              && SessionOf() == (if beyond then old(SessionOf()) else h.value.session)
              && outputs == old(outputs) + if beyond then [] else h.value.outputs
    {
      beyond := false;
      if payloadType == TYPE_ROUTING_ACTIVATION_REQ {
        beyond := HandleRoutingActivation(payload, payloadLength);
      } else if payloadType == TYPE_DIAG_MESSAGE {
        beyond := HandleDiagnosticMessage(payload, payloadLength);
      } else {
        SendGenericNack(NACK_UNKNOWN_PAYLOAD_TYPE);
      }
    }

    /** memmove of rxBuffer[from..from + n] to the beginning of the buffer. */
    method MoveToFront(from: nat, n: nat)
      requires from + n <= rxBuffer.Length
      modifies rxBuffer
      ensures rxBuffer[..n] == old(rxBuffer[from..from + n])
    {
      for i := 0 to n
        invariant forall k :: 0 <= k < i ==> rxBuffer[k] == old(rxBuffer[k + from])
        invariant forall k :: i <= k < rxBuffer.Length ==> rxBuffer[k] == old(rxBuffer[k])
      {
        rxBuffer[i] := rxBuffer[from + i];
      }
    }

    /** The end of DoIP_ProcessRxBuffer: the unfinished rest goes to the front. */
    method DropFront(offset: nat)
      requires Valid() && offset <= rxLength
      modifies this`rxLength, rxBuffer
      ensures Valid() && Pending() == old(Pending())[offset..]
    {
      if offset > 0 {
        var remaining := rxLength - offset;
        if remaining > 0 {
          MoveToFront(offset, remaining);
        }
        rxLength := remaining;
      }
    }

    /** DoIP_ProcessRxBuffer: the loop handles whatever stands in the buffer as `Process` says, and leaves
        the unfinished rest at the front. Where the loop never ends, or depends on memory beyond the
        buffer, the method stops at that turn. */
    method ProcessRxBuffer() returns (ending: Ending)
      requires Valid()
      modifies this`active, this`tester, this`rxLength, this`outputs, rxBuffer, txBuffer
      ensures Valid()
      ensures var p := Process(old(SessionOf()), old(rxBuffer[..]), 0, old(rxLength));
              && ending == p.ending && SessionOf() == p.session && outputs == old(outputs) + p.outputs
              && Pending() == if ending.Waits? || ending.Refuses? then p.rest else old(Pending())
    {
      hide Process, TurnAt, HeadOf, Follows;
      ghost var bytes, whole, outputs0 := rxBuffer[..], Process(SessionOf(), rxBuffer[..], 0, rxLength), outputs;
      ghost var sent: seq<Output> := [];
      var offset := 0;
      NothingSent(whole, outputs0);
      while rxLength - offset >= HEADER_LENGTH
        invariant Valid() && offset <= rxLength == old(rxLength) && rxBuffer[..] == bytes
        invariant outputs == outputs0 + sent
        invariant Follows(whole, sent, Process(SessionOf(), bytes, offset, rxLength))
        decreases rxLength - offset
      {
        ghost var turn := TurnAt(SessionOf(), bytes, offset, rxLength);
        OneMoreTurn(whole, SessionOf(), bytes, offset, rxLength, sent, outputs0);
        var next;
        next, ending := ProcessTurn(offset);
        if next.None? {
          if ending.Waits? {
            break;
          }
          return;
        }
        sent := sent + turn.h.outputs;
        offset := next.value;
      }
      if rxLength - offset < HEADER_LENGTH {
        ShortHead(bytes[offset..rxLength]);
      }
      LastTurn(whole, SessionOf(), bytes, offset, rxLength, sent);
      assert Pending()[offset..] == bytes[offset..rxLength];
      DropFront(offset);
      return Waits;
    }

    /** The body of the loop: where the next turn starts, or how the loop ends. */
    method ProcessTurn(offset: nat) returns (next: Option<nat>, ending: Ending)
      requires Valid() && offset + HEADER_LENGTH <= rxLength
      modifies this`active, this`tester, this`rxLength, this`outputs, txBuffer
      ensures Valid() && rxBuffer[..] == old(rxBuffer[..])
      ensures rxLength == if next.None? && ending.Refuses? then 0 else old(rxLength)
      ensures var t := TurnAt(old(SessionOf()), old(rxBuffer[..]), offset, old(rxLength));
              if t.Next? then
                next == Some(t.next) && SessionOf() == t.h.session && outputs == old(outputs) + t.h.outputs
              else
                && next == None && ending == t.p.ending
                && SessionOf() == t.p.session && outputs == old(outputs) + t.p.outputs
    {
      hide TurnAt, HeadOf, Handle, HandleAt, NackOutput, U16, U32, VersionOk, DeclaredType, DeclaredLength;
      ghost var bytes := rxBuffer[..];
      HeaderInBuffer(bytes, offset, rxLength);
      TurnCases(SessionOf(), bytes, offset, rxLength);
      if rxBuffer[offset] != VERSION || rxBuffer[offset + 1] != INVERSE_VERSION {
        SendGenericNack(NACK_INVALID_HEADER);
        rxLength := 0;
        return None, Refuses(NACK_INVALID_HEADER);
      }
      var payloadType := U16(rxBuffer[offset + 2], rxBuffer[offset + 3]);
      var payloadLength := U32(rxBuffer[offset + 4], rxBuffer[offset + 5], rxBuffer[offset + 6], rxBuffer[offset + 7]);
      var messageLength := (HEADER_LENGTH + payloadLength) % 0x1_0000_0000;
      if messageLength > BUFFER_SIZE {
        SendGenericNack(NACK_MESSAGE_TOO_LARGE);
        rxLength := 0;
        return None, Refuses(NACK_MESSAGE_TOO_LARGE);
      }
      if rxLength - offset < messageLength {
        return None, Waits;
      }
      assert rxBuffer[offset + HEADER_LENGTH..] == bytes[offset + HEADER_LENGTH..];
      var beyond := HandleMessage(payloadType, rxBuffer[offset + HEADER_LENGTH..], payloadLength);
      if beyond {
        return None, ReadsBeyond;
      }
      if messageLength == 0 {
        return None, Endless; // the next turn would be this one again
      }
      return Some(offset + messageLength), Waits;
    }

    /** The loop as a whole is what it has sent so far and then `p`. */
    static ghost predicate Follows(whole: Outcome, sent: seq<Output>, p: Outcome) {
      whole.session == p.session && whole.rest == p.rest && whole.ending == p.ending && whole.outputs == sent + p.outputs
    }

    static lemma NothingSent(whole: Outcome, before: seq<Output>)
      ensures Follows(whole, [], whole) && before + [] == before
    {}

    static lemma OneMoreTurn(whole: Outcome, d: Session, bytes: seq<byte>, offset: nat, end: nat,
                             sent: seq<Output>, before: seq<Output>)
      requires offset <= end <= |bytes| && Follows(whole, sent, Process(d, bytes, offset, end))
      ensures var t := TurnAt(d, bytes, offset, end);
              if t.Last? then
                && whole.session == t.p.session && whole.ending == t.p.ending
                && before + whole.outputs == before + sent + t.p.outputs
                && (t.p.ending.Waits? ==> HeadOf(bytes[offset..end]) == NeedMore && t.p.session == d && t.p.outputs == [])
                && (t.p.ending.Refuses? ==> whole.rest == [])
              else
                && Follows(whole, sent + t.h.outputs, Process(t.h.session, bytes, t.next, end))
                && before + (sent + t.h.outputs) == before + sent + t.h.outputs
    {
      hide Handle, HandleAt, NackOutput, HeadOf;
      var t := TurnAt(d, bytes, offset, end);
      if t.Next? {
        var q := Process(t.h.session, bytes, t.next, end);
        assert sent + (t.h.outputs + q.outputs) == (sent + t.h.outputs) + q.outputs;
      }
    }

    static lemma LastTurn(whole: Outcome, d: Session, bytes: seq<byte>, offset: nat, end: nat, sent: seq<Output>)
      requires offset <= end <= |bytes| && HeadOf(bytes[offset..end]) == NeedMore
      requires Follows(whole, sent, Process(d, bytes, offset, end))
      ensures whole.session == d && whole.rest == bytes[offset..end] && whole.ending == Waits && whole.outputs == sent
    {
      hide HeadOf;
    }

    static lemma HeaderInBuffer(bytes: seq<byte>, offset: nat, end: nat)
      requires offset + HEADER_LENGTH <= end <= |bytes|
      ensures var s := bytes[offset..end];
              && (VersionOk(s) <==> bytes[offset] == VERSION && bytes[offset + 1] == INVERSE_VERSION)
              && DeclaredType(s) == U16(bytes[offset + 2], bytes[offset + 3])
              && DeclaredLength(s) == U32(bytes[offset + 4], bytes[offset + 5], bytes[offset + 6], bytes[offset + 7])
    {}

    /** The tests of the code, on the 32-bit sum, lead to the turn of the model. */
    static lemma TurnCases(d: Session, bytes: seq<byte>, offset: nat, end: nat)
      requires offset + HEADER_LENGTH <= end <= |bytes|
      ensures var s, t := bytes[offset..end], TurnAt(d, bytes, offset, end);
              var sum := (HEADER_LENGTH + DeclaredLength(s)) % 0x1_0000_0000;
              var h := HandleAt(d, DeclaredType(s), bytes[offset + HEADER_LENGTH..], DeclaredLength(s));
              if !VersionOk(s) then
                t == Last(Outcome(d, [NackOutput(NACK_INVALID_HEADER)], [Refused(NACK_INVALID_HEADER)], [],
                                  Refuses(NACK_INVALID_HEADER)))
              else if sum > BUFFER_SIZE then
                t == Last(Outcome(d, [NackOutput(NACK_MESSAGE_TOO_LARGE)], [Refused(NACK_MESSAGE_TOO_LARGE)], [],
                                  Refuses(NACK_MESSAGE_TOO_LARGE)))
              else if end - offset < sum then
                t == Last(Outcome(d, [], [], s, Waits))
              else if h.None? then
                t.Last? && t.p.session == d && t.p.outputs == [] && t.p.ending == ReadsBeyond
              else if sum == 0 then
                t.Last? && t.p.session == h.value.session && t.p.outputs == h.value.outputs && t.p.ending == Endless
              else
                t.Next? && t.h == h.value && t.next == offset + sum
    {
      hide HandleAt, Handle, NackOutput, U32, U16;
      var s := bytes[offset..end];
      if HeadOf(s).Whole? {
        var n := HeadOf(s).length;
        MessageInBuffer(bytes, offset, end, n);
        HandledInBuffer(d, DeclaredType(s), bytes[offset + HEADER_LENGTH..], DeclaredLength(s));
        SliceOfTail(bytes, offset + HEADER_LENGTH, DeclaredLength(s));
      }
    }

    static lemma SliceOfTail(bytes: seq<byte>, from: nat, n: nat)
      requires from + n <= |bytes|
      ensures bytes[from..][..n] == bytes[from..from + n]
    {}

    static lemma MessageInBuffer(bytes: seq<byte>, offset: nat, end: nat, n: nat)
      requires HEADER_LENGTH <= n && offset + n <= end <= |bytes|
      ensures bytes[offset..end][HEADER_LENGTH..n] == bytes[offset + HEADER_LENGTH..offset + n]
    {
      SliceOfSlice(bytes, offset, end, HEADER_LENGTH, n);
    }

    /** DoIP_TpRxIndication: on the whole buffer as `Process` says; and as long as no length wraps, the
        messages framed out of what was pending and what arrives are handled one by one. */
    method TpRxIndication(soAdRxPduId: nat, chunk: seq<byte>) returns (ending: Ending)
      requires Valid()
      modifies this`active, this`tester, this`rxLength, this`outputs, rxBuffer, txBuffer
      ensures Valid()
      ensures soAdRxPduId != SOAD_RX_PDU ==>
                && ending == Waits && Pending() == old(Pending())
                && SessionOf() == old(SessionOf()) && outputs == old(outputs)
      ensures soAdRxPduId == SOAD_RX_PDU && |old(Pending())| + |chunk| > BUFFER_SIZE ==>
                && ending == Refuses(NACK_MESSAGE_TOO_LARGE) && Pending() == []
                && SessionOf() == old(SessionOf())
                && outputs == old(outputs) + [NackOutput(NACK_MESSAGE_TOO_LARGE)]
      ensures soAdRxPduId == SOAD_RX_PDU && |old(Pending())| + |chunk| <= BUFFER_SIZE ==>
                var memory := Overwrite(old(rxBuffer[..]), old(rxLength), chunk);
                var p := Process(old(SessionOf()), memory, 0, old(rxLength) + |chunk|);
                && ending == p.ending && SessionOf() == p.session && outputs == old(outputs) + p.outputs
                && Pending() == if ending.Waits? || ending.Refuses? then p.rest else old(Pending()) + chunk
      ensures soAdRxPduId == SOAD_RX_PDU && |old(Pending())| + |chunk| <= BUFFER_SIZE ==>
                var f := Frame(old(Pending()) + chunk);
                var h := HandleAll(old(SessionOf()), f.messages);
                f.stop != LengthWraps ==>
                  && ending == (if f.stop.Nack? then Refuses(f.stop.code) else Waits) && Pending() == f.rest
                  && SessionOf() == h.session
                  && outputs == old(outputs) + (h.outputs + if f.stop.Nack? then [NackOutput(f.stop.code)] else [])
    {
      if soAdRxPduId != SOAD_RX_PDU {
        return Waits;
      }
      if rxLength + |chunk| > BUFFER_SIZE {
        SendGenericNack(NACK_MESSAGE_TOO_LARGE);
        rxLength := 0;
        return Refuses(NACK_MESSAGE_TOO_LARGE);
      }
      hide Process, Frame, HandleAll, NackOutput, Overwrite;
      AsFrames(SessionOf(), rxBuffer[..], rxLength, chunk);
      ending := AppendAndProcess(chunk);
    }

    method AppendAndProcess(chunk: seq<byte>) returns (ending: Ending)
      requires Valid() && rxLength + |chunk| <= BUFFER_SIZE
      modifies this`active, this`tester, this`rxLength, this`outputs, rxBuffer, txBuffer
      ensures Valid()
      ensures var memory := Overwrite(old(rxBuffer[..]), old(rxLength), chunk);
              var p := Process(old(SessionOf()), memory, 0, old(rxLength) + |chunk|);
              && ending == p.ending && SessionOf() == p.session && outputs == old(outputs) + p.outputs
              && Pending() == if ending.Waits? || ending.Refuses? then p.rest else old(Pending()) + chunk
    {
      hide Process, Overwrite;
      Appended(rxBuffer[..], rxLength, chunk);
      Copy(rxBuffer, rxLength, chunk);
      rxLength := rxLength + |chunk|;
      assert Pending() == rxBuffer[..][0..rxLength];
      assert old(Pending()) == old(rxBuffer[..])[..old(rxLength)];
      ending := ProcessRxBuffer();
    }

    /** Processing what was appended, as long as no length wraps. */
    static lemma AsFrames(d: Session, bytes: seq<byte>, n: nat, chunk: seq<byte>)
      requires n + |chunk| <= |bytes|
      ensures var p := Process(d, Overwrite(bytes, n, chunk), 0, n + |chunk|);
              var f := Frame(bytes[..n] + chunk);
              var h := HandleAll(d, f.messages);
              f.stop != LengthWraps ==>
                && p.ending == (if f.stop.Nack? then Refuses(f.stop.code) else Waits) && p.rest == f.rest
                && p.session == h.session && p.outputs == h.outputs + if f.stop.Nack? then [NackOutput(f.stop.code)] else []
    {
      hide Process, Frame, HandleAll, NackOutput, Overwrite;
      Appended(bytes, n, chunk);
      if Frame(bytes[..n] + chunk).stop != LengthWraps {
        ProcessFrames(d, Overwrite(bytes, n, chunk), 0, n + |chunk|);
      }
    }

    static lemma Appended(bytes: seq<byte>, n: nat, chunk: seq<byte>)
      requires n + |chunk| <= |bytes|
      ensures Overwrite(bytes, n, chunk)[0..n + |chunk|] == bytes[..n] + chunk
    {}

    /** DoIP_TpTransmit: the payload is assembled in place, behind where the header will go. */
    method TpTransmit(doipTxPduId: nat, uds: seq<byte>) returns (ok: bool)
      requires Valid()
      modifies this`outputs, txBuffer
      ensures Valid()
      ensures var m := Transmit(SessionOf(), doipTxPduId, uds);
              && (ok <==> m.Some? && accepts)
              && outputs == old(outputs) + if m.Some? then [ToSoAd(m.value)] else []
    {
      var source := FindSource(doipTxPduId);
      if source.None? {
        return false;
      }
      if !active {
        return false;
      }
      var payloadLength := |uds| + 4;
      if payloadLength + HEADER_LENGTH > BUFFER_SIZE {
        return false;
      }
      Copy(txBuffer, HEADER_LENGTH, Be16(source.value));
      Copy(txBuffer, HEADER_LENGTH + 2, Be16(tester));
      Copy(txBuffer, HEADER_LENGTH + 4, uds);
      ghost var payload := Be16(source.value) + Be16(tester) + uds;
      assert txBuffer[HEADER_LENGTH..HEADER_LENGTH + payloadLength] == payload;
      ok := SendMessage(TYPE_DIAG_MESSAGE, txBuffer[HEADER_LENGTH..HEADER_LENGTH + payloadLength]);
    }
  }
}
