/** FotaHandler of a target ECU as values: the hand-shake between the diagnostic server, which hands
    over one chunk at a time and polls, and a cyclic writer that passes it to the flash core. */
module FotaModel {

  import opened Bytes
  import S = SotaModel

  const MAX_CHUNK := 2048

  datatype HandlerState = Uninit | Idle | DownloadStarted | Transferring | Verified | ActivationArmed | RollbackArmed | Error

  datatype HandlerResult =
    | NoResult | ResultOk | InvalidParam | InvalidState | Busy
    | UpdateFailed | VerifyFailed | ActivationFailed | RollbackFailed | ProvisionFailed

  datatype ChunkState = ChunkIdle | Received | Processing | Done | ChunkError

  datatype OpStatus = Initial | Pending | OtherOp

  datatype WriteResult = WriteOk | WritePending | WriteFailed

  /** g_fotaHandlerContext with the state of the update core it drives. */
  datatype Fota = Fota(
    handler: HandlerState, result: HandlerResult,
    chunk: ChunkState, buffer: seq<byte>, length: nat, counter: byte,
    expectedLength: nat, expectedCrc: bv32, total: nat,
    initialized: bool, downloadStarted: bool, verified: bool, activationArmed: bool, rollbackArmed: bool,
    core: S.Core)

  /** The zeroed context at power-up. */
  const POWER_UP := Fota(
    Uninit, NoResult, ChunkIdle, Zeros(MAX_CHUNK), 0, 0, 0, 0, 0, false, false, false, false, false, S.CORE_RESET)

  /** FOTA_ResetContext. */
  const RESET := POWER_UP.(handler := Idle, initialized := true)

  predicate FotaValid(f: Fota) {
    && |f.buffer| == MAX_CHUNK && f.length <= MAX_CHUNK
    && S.CoreValid(f.core)
    && (f.chunk.Received? ==> f.length > 0)
  }

  datatype StdResult = StdResult(fota: Fota, ok: bool)
  datatype WriteStep = WriteStep(fota: Fota, ret: WriteResult)

  /** FOTA_StartDownload. */
  function StartDownload(f: Fota, imageLength: nat, bankOk: bool, eraseOk: bool): (r: StdResult)
    requires FotaValid(f)
    ensures FotaValid(r.fota)
  {
    if imageLength == 0 then
      StdResult(f.(result := InvalidParam, handler := Error), false)
    else
      var begun := S.Begin(imageLength, bankOk, eraseOk);
      if begun.result != S.Ok then
        StdResult(RESET.(core := begun.core, result := UpdateFailed, handler := Error), false)
      else
        StdResult(
          RESET.(core := begun.core, expectedLength := imageLength, downloadStarted := true,
                 handler := DownloadStarted, result := ResultOk),
          true)
  }

  function SetHandlerError(f: Fota, result: HandlerResult): Fota {
    f.(result := result, chunk := ChunkError, handler := Error)
  }

  /** FOTA_ProcessTransferDataWrite. */
  function ProcessWrite(f: Fota, op: OpStatus, data: seq<byte>, counter: byte): (r: WriteStep)
    requires FotaValid(f)
    ensures FotaValid(r.fota)
  {
    var f := if f.initialized then f else RESET;
    if !f.downloadStarted then
      WriteStep(f.(result := InvalidState), WriteFailed)
    else if op.Initial? then
      if |data| == 0 || |data| > MAX_CHUNK then
        WriteStep(SetHandlerError(f, InvalidParam), WriteFailed)
      else if f.chunk.ChunkIdle? then
        WriteStep(
          f.(buffer := Overwrite(f.buffer, 0, data), length := |data|, counter := counter,
             result := Busy, chunk := Received, handler := Transferring),
          WritePending)
      else if f.chunk.Received? || f.chunk.Processing? || f.chunk.Done? then
        WriteStep(f.(result := Busy), WritePending)
      else
        WriteStep(f, WriteFailed)
    else if op.Pending? then
      if f.chunk.Done? then
        WriteStep(f.(chunk := ChunkIdle, length := 0, counter := 0, result := ResultOk), WriteOk)
      else if f.chunk.ChunkError? then
        WriteStep(f, WriteFailed)
      else if f.chunk.Received? || f.chunk.Processing? then
        WriteStep(f, WritePending)
      else
        WriteStep(f.(result := InvalidState), WriteFailed)
    else
      WriteStep(f.(result := InvalidParam), WriteFailed)
  }

  /** FOTAHandlerMain. */
  function CyclicMain(f: Fota, failing: set<nat>): (r: Fota)
    requires FotaValid(f)
    ensures FotaValid(r)
  {
    if !f.chunk.Received? then
      f
    else
      var o := S.WriteChunk(f.core, f.buffer[..f.length], failing);
      if o.result == S.Ok then
        f.(core := o.core, total := (f.total + f.length) % 0x1_0000_0000, chunk := Done, result := ResultOk)
      else
        SetHandlerError(f.(core := o.core), UpdateFailed)
  }

  predicate HasActiveChunk(f: Fota) {
    f.chunk.Received? || f.chunk.Processing? || f.chunk.Done?
  }

  /** FOTA_RequestTransferExit, also called as FOTA_VerifyImage. */
  function TransferExit(f: Fota, expectedCrc: bv32, failing: set<nat>): (r: StdResult)
    requires FotaValid(f)
    ensures FotaValid(r.fota)
  {
    if !f.downloadStarted then
      StdResult(f.(result := InvalidState), false)
    else if HasActiveChunk(f) then
      StdResult(f.(result := Busy), false)
    else
      var g := f.(expectedCrc := expectedCrc);
      if f.verified then
        StdResult(g, true)
      else
        Finished(g, S.Finalize(f.core, expectedCrc, failing))
  }

  function Finished(f: Fota, o: S.Outcome): StdResult {
    if o.result != S.Ok then
      StdResult(f.(core := o.core, result := VerifyFailed, handler := Error), false)
    else
      StdResult(f.(core := o.core, result := ResultOk, verified := true, handler := Verified), true)
  }

  /** FOTA_ActivateImage; `swapOk` is the answer of SotaProvision_ProgramNextSwapEntry. */
  function Activate(f: Fota, swapOk: bool): (r: StdResult)
    requires FotaValid(f)
    ensures FotaValid(r.fota)
  {
    if !f.verified then
      StdResult(f.(result := InvalidState), false)
    else if !swapOk then
      StdResult(f.(result := ActivationFailed, handler := Error), false)
    else
      StdResult(f.(result := ResultOk, activationArmed := true, handler := ActivationArmed), true)
  }

  /** FOTA_RollbackImage. */
  function Rollback(f: Fota, swapOk: bool): (r: StdResult)
    requires FotaValid(f)
    ensures FotaValid(r.fota)
  {
    if !swapOk then
      StdResult(f.(result := RollbackFailed, handler := Error), false)
    else
      StdResult(f.(result := ResultOk, rollbackArmed := true, handler := RollbackArmed), true)
  }

  /** FOTA_ProvisionInitialOnce. */
  function Provision(f: Fota, provisionOk: bool): (r: StdResult)
    requires FotaValid(f)
    ensures FotaValid(r.fota)
  {
    var g := if f.initialized then f else RESET;
    if provisionOk then StdResult(g.(result := ResultOk), true)
    else StdResult(g.(result := ProvisionFailed, handler := Error), false)
  }
}
