/** The gateway's diagnostic server: sessions and the firmware-update states of one run, service by
    service (ISO 14229-1:2013, sections 9.2, 9.3, 13.2, 14.2, 14.4 and 14.5). */
module DcmModel {

  import opened Bytes

  const RX_BUFFER_SIZE := 2048

  const SID_SESSION: byte := 0x10
  const SID_RESET: byte := 0x11
  const SID_ROUTINE: byte := 0x31
  const SID_DOWNLOAD: byte := 0x34
  const SID_TRANSFER: byte := 0x36
  const SID_EXIT: byte := 0x37
  const SID_TESTER_PRESENT: byte := 0x3E

  const NRC_SERVICE: byte := 0x11
  const NRC_SUBFUNCTION: byte := 0x12
  const NRC_LENGTH: byte := 0x13
  const NRC_CONDITIONS: byte := 0x22
  const NRC_SEQUENCE: byte := 0x24
  const NRC_RANGE: byte := 0x31

  datatype Session = DefaultSession | ProgrammingSession | ExtendedSession

  datatype FotaState =
    | Idle | Extended | DownloadAccepted | InProgress | Completed | Verified
    | Programming | ActivationPending | Activated | Failed | RollbackDone

  datatype FotaResult = NoResult | Success | ResultFailed | TransferFailed | ResultRollback

  /** The routine identifiers are configuration. */
  datatype Routines = Routines(verify: nat, activate: nat, rollback: nat)

  predicate RoutinesValid(r: Routines) {
    r.verify != r.activate && r.verify != r.rollback && r.activate != r.rollback
  }

  /** Dcm_Runtime without its buffers. */
  datatype Dcm = Dcm(session: Session, state: FotaState, result: FotaResult, expected: byte)

  const INIT := Dcm(DefaultSession, Idle, NoResult, 1)

  /** The runtime after a request, and the response given to PduR. */
  datatype Answer = Answer(dcm: Dcm, response: seq<byte>)

  function Positive(sid: byte, payload: seq<byte>): seq<byte>
    requires sid < 0xC0
  {
    [sid + 0x40] + payload
  }

  function Negative(sid: byte, nrc: byte): seq<byte> {
    [0x7F, sid, nrc]
  }

  function Refuse(d: Dcm, sid: byte, nrc: byte): Answer {
    Answer(d, Negative(sid, nrc))
  }

  function SessionControl(d: Dcm, req: seq<byte>): Answer
    requires |req| > 0
  {
    if |req| < 2 then
      Refuse(d, SID_SESSION, NRC_LENGTH)
    else
      var sub := req[1] % 128;
      var ok := Positive(SID_SESSION, [sub, 0x00, 0x32, 0x01, 0xF4]);
      if sub == 1 then
        Answer(d.(session := DefaultSession), ok)
      else if sub == 3 then
        Answer(d.(session := ExtendedSession, state := if d.state.Idle? then Extended else d.state), ok)
      else if sub == 2 then
        if !d.state.Verified? && !d.state.Programming? then
          Refuse(d, SID_SESSION, NRC_CONDITIONS)
        else
          Answer(d.(session := ProgrammingSession, state := Programming), ok)
      else
        Refuse(d, SID_SESSION, NRC_SUBFUNCTION)
  }

  function EcuReset(d: Dcm, req: seq<byte>): Answer
    requires |req| > 0
  {
    if |req| < 2 then
      Refuse(d, SID_RESET, NRC_LENGTH)
    else if req[1] % 128 != 1 then
      Refuse(d, SID_RESET, NRC_SUBFUNCTION)
    else
      Answer(
        if d.state.ActivationPending? then d.(state := Activated, result := Success) else d,
        Positive(SID_RESET, [req[1] % 128]))
  }

  function TesterPresent(d: Dcm, req: seq<byte>): Answer
    requires |req| > 0
  {
    if |req| < 2 then
      Refuse(d, SID_TESTER_PRESENT, NRC_LENGTH)
    else if req[1] % 128 != 0 then
      Refuse(d, SID_TESTER_PRESENT, NRC_SUBFUNCTION)
    else
      Answer(d, Positive(SID_TESTER_PRESENT, [req[1] % 128]))
  }

  function RequestDownload(d: Dcm, req: seq<byte>): Answer
    requires |req| > 0
  {
    if |req| < 5 then
      Refuse(d, SID_DOWNLOAD, NRC_LENGTH)
    else if !d.session.ExtendedSession? then
      Refuse(d, SID_DOWNLOAD, NRC_CONDITIONS)
    else if !d.state.Extended? && !d.state.Idle? then
      Refuse(d, SID_DOWNLOAD, NRC_SEQUENCE)
    else
      Answer(d.(state := DownloadAccepted, result := NoResult, expected := 1),
             Positive(SID_DOWNLOAD, [0x20, 0x00, 0x40]))
  }

  function NextCounter(c: byte): byte {
    if c == 0xFF then 0 else c + 1
  }

  function TransferData(d: Dcm, req: seq<byte>): Answer
    requires |req| > 0
  {
    if |req| < 2 then
      Refuse(d, SID_TRANSFER, NRC_LENGTH)
    else if !d.state.DownloadAccepted? && !d.state.InProgress? then
      Refuse(d, SID_TRANSFER, NRC_SEQUENCE)
    else if req[1] != d.expected then
      Refuse(d.(state := Failed, result := TransferFailed), SID_TRANSFER, NRC_SEQUENCE)
    else
      Answer(d.(state := InProgress, expected := NextCounter(d.expected)), Positive(SID_TRANSFER, [req[1]]))
  }

  function TransferExit(d: Dcm, req: seq<byte>): Answer
    requires |req| > 0
  {
    if !d.state.InProgress? then
      Refuse(d, SID_EXIT, NRC_SEQUENCE)
    else
      Answer(d.(state := Completed), Positive(SID_EXIT, []))
  }

  function RoutineControl(d: Dcm, req: seq<byte>, rids: Routines): Answer
    requires |req| > 0
  {
    if |req| < 4 then
      Refuse(d, SID_ROUTINE, NRC_LENGTH)
    else if req[1] % 128 != 1 then
      Refuse(d, SID_ROUTINE, NRC_SUBFUNCTION)
    else
      var rid := U16(req[2], req[3]);
      var ok := Positive(SID_ROUTINE, [req[1] % 128, req[2], req[3]]);
      if rid == rids.verify then
        if !d.state.Completed? then Refuse(d, SID_ROUTINE, NRC_SEQUENCE)
        else Answer(d.(state := Verified), ok)
      else if rid == rids.activate then
        if !d.state.Programming? then Refuse(d, SID_ROUTINE, NRC_SEQUENCE)
        else Answer(d.(state := ActivationPending), ok)
      else if rid == rids.rollback then
        Answer(d.(state := RollbackDone, result := ResultRollback), ok)
      else
        Refuse(d, SID_ROUTINE, NRC_RANGE)
  }

  /** Dcm_DispatchService. */
  function Dispatch(d: Dcm, req: seq<byte>, rids: Routines): Answer
    requires |req| > 0
  {
    if req[0] == SID_SESSION then SessionControl(d, req)
    else if req[0] == SID_RESET then EcuReset(d, req)
    else if req[0] == SID_TESTER_PRESENT then TesterPresent(d, req)
    else if req[0] == SID_DOWNLOAD then RequestDownload(d, req)
    else if req[0] == SID_TRANSFER then TransferData(d, req)
    else if req[0] == SID_EXIT then TransferExit(d, req)
    else if req[0] == SID_ROUTINE then RoutineControl(d, req, rids)
    else Refuse(d, req[0], NRC_SERVICE)
  }

  /** Dcm_TxConfirmation. */
  function TxConfirmation(d: Dcm, ok: bool): Dcm {
    if ok then d
    else if !d.state.Idle? && !d.state.Activated? then d.(result := ResultFailed, state := Failed)
    else d.(result := ResultFailed)
  }
}
