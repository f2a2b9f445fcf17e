/** The gateway's Dcm as it runs: the request latch, the response buffer, and the service handlers. */
module DcmRuntime {

  import opened Bytes
  import opened DcmModel

  class DcmServer {
    var session: Session
    var state: FotaState
    var result: FotaResult
    var expected: byte
    var pending: bool
    var rxLength: nat
    const rxBuffer: array<byte>
    const txBuffer: array<byte>
    const rids: Routines

    // The responses given to PduR_DcmTransmit, in order.
    var responses: seq<seq<byte>>

    ghost predicate Valid()
      reads this
    {
      && rxBuffer != txBuffer && rxBuffer.Length == RX_BUFFER_SIZE && txBuffer.Length == RX_BUFFER_SIZE
      && rxLength <= RX_BUFFER_SIZE
    }

    ghost function Abs(): Dcm
      reads this
    {
      Dcm(session, state, result, expected)
    }

    /** Dcm_Init. */
    constructor (rids: Routines)
      ensures Valid() && fresh(rxBuffer) && fresh(txBuffer)
      ensures Abs() == INIT && !pending && rxLength == 0 && responses == [] && this.rids == rids
    {
      session, state, result, expected := DefaultSession, Idle, NoResult, 1;
      pending, rxLength, responses := false, 0, [];
      rxBuffer := new byte[RX_BUFFER_SIZE](_ => 0);
      txBuffer := new byte[RX_BUFFER_SIZE](_ => 0);
      this.rids := rids;
    }

    /** Dcm_RxIndication: a request is only copied; one that does not fit is ignored, and one that
        comes before the main function has run replaces the one before it. */
    method RxIndication(pdu: seq<byte>)
      requires Valid()
      modifies this`rxLength, this`pending, rxBuffer
      ensures Valid()
      ensures |pdu| <= RX_BUFFER_SIZE ==> pending && rxBuffer[..rxLength] == pdu
      ensures |pdu| > RX_BUFFER_SIZE ==>
                pending == old(pending) && rxLength == old(rxLength) && rxBuffer[..] == old(rxBuffer[..])
    {
      if |pdu| > RX_BUFFER_SIZE {
        return;
      }
      Copy(rxBuffer, 0, pdu);
      rxLength := |pdu|;
      pending := true;
    }

    /** Dcm_SendPositiveResponse. */
    method SendPositive(sid: byte, payload: seq<byte>)
      requires Valid() && sid < 0xC0 && |payload| < RX_BUFFER_SIZE
      modifies this`responses, txBuffer
      ensures responses == old(responses) + [Positive(sid, payload)]
    {
      txBuffer[0] := sid + 0x40;
      Copy(txBuffer, 1, payload);
      assert txBuffer[..1 + |payload|] == Positive(sid, payload);
      responses := responses + [txBuffer[..1 + |payload|]];
    }

    /** Dcm_SendNegativeResponse. */
    method SendNegative(sid: byte, nrc: byte)
      requires Valid()
      modifies this`responses, txBuffer
      ensures responses == old(responses) + [Negative(sid, nrc)]
    {
      txBuffer[0], txBuffer[1], txBuffer[2] := 0x7F, sid, nrc;
      assert txBuffer[..3] == Negative(sid, nrc);
      responses := responses + [txBuffer[..3]];
    }

    /** Dcm_HandleDiagnosticSessionControl. */
    method HandleSessionControl(req: seq<byte>)
      requires Valid() && |req| > 0
      modifies this`session, this`state, this`responses, txBuffer
      ensures var a := SessionControl(old(Abs()), req); Abs() == a.dcm && responses == old(responses) + [a.response]
    {
      if |req| < 2 {
        SendNegative(SID_SESSION, NRC_LENGTH);
        return;
      }
      var sub := req[1] % 128;
      if sub == 1 {
        session := DefaultSession;
      } else if sub == 3 {
        session := ExtendedSession;
        if state == Idle {
          state := Extended;
        }
      } else if sub == 2 {
        if state != Verified && state != Programming {
          SendNegative(SID_SESSION, NRC_CONDITIONS);
          return;
        }
        session := ProgrammingSession;
        state := Programming;
      } else {
        SendNegative(SID_SESSION, NRC_SUBFUNCTION);
        return;
      }
      SendPositive(SID_SESSION, [sub, 0x00, 0x32, 0x01, 0xF4]);
    }

    /** Dcm_HandleEcuReset. */
    method HandleEcuReset(req: seq<byte>)
      requires Valid() && |req| > 0
      modifies this`state, this`result, this`responses, txBuffer
      ensures var a := EcuReset(old(Abs()), req); Abs() == a.dcm && responses == old(responses) + [a.response]
    {
      if |req| < 2 {
        SendNegative(SID_RESET, NRC_LENGTH);
        return;
      }
      var resetType := req[1] % 128;
      if resetType != 1 {
        SendNegative(SID_RESET, NRC_SUBFUNCTION);
        return;
      }
      if state == ActivationPending {
        state, result := Activated, Success;
      }
      SendPositive(SID_RESET, [resetType]);
    }

    /** Dcm_HandleTesterPresent. */
    method HandleTesterPresent(req: seq<byte>)
      requires Valid() && |req| > 0
      modifies this`responses, txBuffer
      ensures var a := TesterPresent(old(Abs()), req); Abs() == a.dcm && responses == old(responses) + [a.response]
    {
      if |req| < 2 {
        SendNegative(SID_TESTER_PRESENT, NRC_LENGTH);
        return;
      }
      if req[1] % 128 != 0 {
        SendNegative(SID_TESTER_PRESENT, NRC_SUBFUNCTION);
        return;
      }
      SendPositive(SID_TESTER_PRESENT, [req[1] % 128]);
    }

    /** Dcm_HandleRequestDownload. */
    method HandleRequestDownload(req: seq<byte>)
      requires Valid() && |req| > 0
      modifies this`state, this`result, this`expected, this`responses, txBuffer
      ensures var a := RequestDownload(old(Abs()), req); Abs() == a.dcm && responses == old(responses) + [a.response]
    {
      if |req| < 5 {
        SendNegative(SID_DOWNLOAD, NRC_LENGTH);
        return;
      }
      if session != ExtendedSession {
        SendNegative(SID_DOWNLOAD, NRC_CONDITIONS);
        return;
      }
      if state != Extended && state != Idle {
        SendNegative(SID_DOWNLOAD, NRC_SEQUENCE);
        return;
      }
      state, result, expected := DownloadAccepted, NoResult, 1;
      SendPositive(SID_DOWNLOAD, [0x20, 0x00, 0x40]);
    }

    /** Dcm_HandleTransferData. */
    method HandleTransferData(req: seq<byte>)
      requires Valid() && |req| > 0
      modifies this`state, this`result, this`expected, this`responses, txBuffer
      ensures var a := TransferData(old(Abs()), req); Abs() == a.dcm && responses == old(responses) + [a.response]
    {
      if |req| < 2 {
        SendNegative(SID_TRANSFER, NRC_LENGTH);
        return;
      }
      if state != DownloadAccepted && state != InProgress {
        SendNegative(SID_TRANSFER, NRC_SEQUENCE);
        return;
      }
      var counter := req[1];
      if counter != expected {
        state, result := Failed, TransferFailed;
        SendNegative(SID_TRANSFER, NRC_SEQUENCE);
        return;
      }
      state := InProgress;
      if expected == 0xFF {
        expected := 0;
      } else {
        expected := expected + 1;
      }
      SendPositive(SID_TRANSFER, [counter]);
    }

    /** Dcm_HandleRequestTransferExit. */
    method HandleTransferExit(req: seq<byte>)
      requires Valid() && |req| > 0
      modifies this`state, this`responses, txBuffer
      ensures var a := TransferExit(old(Abs()), req); Abs() == a.dcm && responses == old(responses) + [a.response]
    {
      if state != InProgress {
        SendNegative(SID_EXIT, NRC_SEQUENCE);
        return;
      }
      state := Completed;
      SendPositive(SID_EXIT, []);
    }

    /** Dcm_HandleRoutineControl. */
    method HandleRoutineControl(req: seq<byte>)
      requires Valid() && |req| > 0
      modifies this`state, this`result, this`responses, txBuffer
      ensures var a := RoutineControl(old(Abs()), req, rids); Abs() == a.dcm && responses == old(responses) + [a.response]
    {
      if |req| < 4 {
        SendNegative(SID_ROUTINE, NRC_LENGTH);
        return;
      }
      var controlType := req[1] % 128;
      var rid := U16(req[2], req[3]);
      if controlType != 1 {
        SendNegative(SID_ROUTINE, NRC_SUBFUNCTION);
        return;
      }
      if rid == rids.verify {
        if state != Completed {
          SendNegative(SID_ROUTINE, NRC_SEQUENCE);
          return;
        }
        state := Verified;
      } else if rid == rids.activate {
        if state != Programming {
          SendNegative(SID_ROUTINE, NRC_SEQUENCE);
          return;
        }
        state := ActivationPending;
      } else if rid == rids.rollback {
        state, result := RollbackDone, ResultRollback;
      } else {
        SendNegative(SID_ROUTINE, NRC_RANGE);
        return;
      }
      Be16OfParsed(req[2], req[3]);
      assert [controlType] + Be16(rid) == [controlType, req[2], req[3]];
      SendPositive(SID_ROUTINE, [controlType] + Be16(rid));
    }

    /** Dcm_MainFunction: the latched request is dispatched once; an empty one is dropped. */
    method MainFunction()
      requires Valid()
      modifies this, txBuffer
      ensures Valid() && !pending && rxLength == old(rxLength)
      ensures !old(pending) || rxLength == 0 ==> Abs() == old(Abs()) && responses == old(responses)
      ensures old(pending) && rxLength > 0 ==>
                var a := Dispatch(old(Abs()), old(rxBuffer[..rxLength]), rids);
                Abs() == a.dcm && responses == old(responses) + [a.response]
    {
      if pending {
        if rxLength > 0 {
          ProcessRequest(rxBuffer[..rxLength]);
        }
        pending := false;
      }
    }

    /** Dcm_DispatchService. */
    method ProcessRequest(req: seq<byte>)
      requires Valid() && |req| > 0
      modifies this`session, this`state, this`result, this`expected, this`responses, txBuffer
      ensures var a := Dispatch(old(Abs()), req, rids); Abs() == a.dcm && responses == old(responses) + [a.response]
    {
      hide SessionControl, EcuReset, TesterPresent, RequestDownload, TransferData, TransferExit, RoutineControl;
      var sid := req[0];
      if sid == SID_SESSION {
        HandleSessionControl(req);
      } else if sid == SID_RESET {
        HandleEcuReset(req);
      } else if sid == SID_TESTER_PRESENT {
        HandleTesterPresent(req);
      } else if sid == SID_DOWNLOAD {
        HandleRequestDownload(req);
      } else if sid == SID_TRANSFER {
        HandleTransferData(req);
      } else if sid == SID_EXIT {
        HandleTransferExit(req);
      } else if sid == SID_ROUTINE {
        HandleRoutineControl(req);
      } else {
        SendNegative(sid, NRC_SERVICE);
      }
    }

    /** Dcm_TxConfirmation. */
    method Confirm(ok: bool)
      modifies this`result, this`state
      ensures Abs() == TxConfirmation(old(Abs()), ok)
    {
      if !ok {
        result := ResultFailed;
        if state != Idle && state != Activated {
          state := Failed;
        }
      }
    }
  }
}
