/** FotaHandler as it runs: one static context with its chunk buffer, driving one update core. */
module FotaRuntime {

  import opened Bytes
  import opened FotaModel
  import S = SotaModel
  import opened SotaRuntime

  class FotaHandler {
    var handler: HandlerState
    var result: HandlerResult
    var chunk: ChunkState
    const buffer: array<byte>
    var length: nat
    var counter: byte
    var expectedLength: nat
    var expectedCrc: bv32
    var total: nat
    var initialized: bool
    var downloadStarted: bool
    var verified: bool
    var activationArmed: bool
    var rollbackArmed: bool
    const core: SotaUpdate

    /** The handler's own context, with a fresh core in place of the one it drives. */
    ghost function Context(): Fota
      reads this, buffer
    {
      Fota(handler, result, chunk, buffer[..], length, counter, expectedLength, expectedCrc, total,
           initialized, downloadStarted, verified, activationArmed, rollbackArmed, S.CORE_RESET)
    }

    ghost predicate Valid()
      reads *
    {
      && FotaValid(Context())
      && this !in core.Repr && buffer !in core.Repr && core in core.Repr
      && core.Valid()
    }

    ghost function Abs(): (f: Fota)
      requires Valid()
      reads *
      ensures FotaValid(f)
    {
      Context().(core := core.Abs())
    }

    constructor ()
      ensures Valid() && fresh(buffer) && fresh(core.Repr) && Abs() == POWER_UP && core.failing == {}
    {
      handler, result, chunk := Uninit, NoResult, ChunkIdle;
      length, counter, expectedLength, expectedCrc, total := 0, 0, 0, 0, 0;
      initialized, downloadStarted, verified, activationArmed, rollbackArmed := false, false, false, false, false;
      buffer := new byte[MAX_CHUNK](_ => 0);
      var c := new SotaUpdate();
      core := c;
      new;
      assert buffer[..] == Zeros(MAX_CHUNK);
    }

    /** The memset of FOTA_ResetContext. */
    method ClearContext()
      requires buffer.Length == MAX_CHUNK
      modifies this, buffer
      ensures Context() == POWER_UP
    {
      handler, result, chunk := Uninit, NoResult, ChunkIdle;
      length, counter, expectedLength, expectedCrc, total := 0, 0, 0, 0, 0;
      initialized, downloadStarted, verified, activationArmed, rollbackArmed := false, false, false, false, false;
      Fill(buffer, 0);
      assert buffer[..] == Zeros(MAX_CHUNK);
    }

    /** FOTA_SetDefaultsAfterMemset. */
    method SetDefaults()
      modifies this`initialized, this`handler, this`result, this`chunk
      ensures Context() == old(Context()).(initialized := true, handler := HandlerState.Idle, result := NoResult, chunk := ChunkIdle)
    {
      initialized := true;
      handler, result, chunk := HandlerState.Idle, NoResult, ChunkIdle;
    }

    /** FOTA_ClearChunkOnly. */
    method ClearChunkOnly()
      modifies this`length, this`counter
      ensures Context() == old(Context()).(length := 0, counter := 0)
    {
      length, counter := 0, 0;
    }

    /** FOTA_SetHandlerError. */
    method SetHandlerError(r: HandlerResult)
      modifies this`result, this`chunk, this`handler
      ensures Context() == FotaModel.SetHandlerError(old(Context()), r)
    {
      result, chunk, handler := r, ChunkError, Error;
    }

    /** FOTA_ResetContext. */
    method ResetContext()
      requires Valid()
      modifies this, buffer, core.Repr
      ensures Valid() && Abs() == RESET && core.failing == old(core.failing)
    {
      hide SotaUpdate.Valid, SotaUpdate.Abs, S.CoreValid;
      ClearContext();
      SetDefaults();
      core.Reset();
    }

    /** FOTA_MapUpdateResult for a result that is not SOTA_UPDATE_OK. */
    method MapFailure(failResult: HandlerResult)
      modifies this`result, this`handler
      ensures result == failResult && handler == Error
    {
      result, handler := failResult, Error;
    }

    method AcceptDownload(imageLength: nat)
      modifies this`expectedLength, this`expectedCrc, this`total, this`downloadStarted, this`verified,
               this`activationArmed, this`rollbackArmed, this`handler, this`result
      ensures expectedLength == imageLength && expectedCrc == 0 && total == 0
      ensures downloadStarted && !verified && !activationArmed && !rollbackArmed
      ensures handler == DownloadStarted && result == ResultOk
    {
      expectedLength, expectedCrc, total := imageLength, 0, 0;
      downloadStarted, verified, activationArmed, rollbackArmed := true, false, false, false;
      handler, result := DownloadStarted, ResultOk;
    }

    /** FOTA_StartDownload. */
    method StartDownload(imageLength: nat, bankOk: bool, eraseOk: bool) returns (ok: bool)
      requires Valid()
      modifies this, buffer, core.Repr
      ensures Valid() && core.failing == old(core.failing)
      ensures var r := FotaModel.StartDownload(old(Abs()), imageLength, bankOk, eraseOk); Abs() == r.fota && ok == r.ok
    {
      hide SotaUpdate.Valid, SotaUpdate.Abs, S.CoreValid, S.Begin, S.WriteChunk, S.Finalize;
      if imageLength == 0 {
        MapFailure(InvalidParam);
        return false;
      }
      ResetContext();
      ok := BeginDownload(imageLength, bankOk, eraseOk);
    }

    method BeginDownload(imageLength: nat, bankOk: bool, eraseOk: bool) returns (ok: bool)
      requires Valid() && Abs() == RESET && imageLength > 0
      modifies this, core.Repr
      ensures Valid() && core.failing == old(core.failing)
      ensures var r := FotaModel.StartDownload(RESET, imageLength, bankOk, eraseOk); Abs() == r.fota && ok == r.ok
    {
      hide SotaUpdate.Valid, SotaUpdate.Abs, S.CoreValid, S.Begin;
      var begun := core.Begin(imageLength, bankOk, eraseOk);
      if begun != S.Ok {
        MapFailure(UpdateFailed);
        return false;
      }
      AcceptDownload(imageLength);
      return true;
    }

    method TakeChunk(data: seq<byte>, blockCounter: byte)
      requires |data| <= buffer.Length
      modifies this, buffer
      ensures Context() ==
              old(Context()).(buffer := Overwrite(old(buffer[..]), 0, data), length := |data|, counter := blockCounter,
                              result := Busy, chunk := Received, handler := Transferring)
    {
      Copy(buffer, 0, data);
      length, counter := |data|, blockCounter;
      result, chunk, handler := Busy, Received, Transferring;
    }

    /** The DCM_OP_INITIAL branch of FOTA_ProcessTransferDataWrite. */
    method WriteInitial(data: seq<byte>, blockCounter: byte) returns (ret: WriteResult)
      requires Valid() && initialized && downloadStarted
      modifies this, buffer
      ensures Valid()
      ensures var r := ProcessWrite(old(Abs()), Initial, data, blockCounter); Abs() == r.fota && ret == r.ret
    {
      hide SotaUpdate.Valid, SotaUpdate.Abs, S.CoreValid, Overwrite;
      if |data| == 0 || |data| > MAX_CHUNK {
        SetHandlerError(InvalidParam);
        return WriteFailed;
      }
      if chunk == ChunkIdle {
        TakeChunk(data, blockCounter);
        return WritePending;
      }
      if chunk == Received || chunk == Processing {
        result := Busy;
        return WritePending;
      }
      if chunk == Done {
        result := Busy;
        return WritePending;
      }
      return WriteFailed;
    }

    /** The DCM_OP_PENDING branch of FOTA_ProcessTransferDataWrite. */
    method WritePoll() returns (ret: WriteResult)
      requires Valid() && initialized && downloadStarted
      modifies this
      ensures Valid()
      ensures forall data, blockCounter ::
                var r := ProcessWrite(old(Abs()), Pending, data, blockCounter); Abs() == r.fota && ret == r.ret
    {
      hide SotaUpdate.Valid, SotaUpdate.Abs, S.CoreValid, Overwrite;
      if chunk == Done {
        chunk := ChunkIdle;
        ClearChunkOnly();
        result := ResultOk;
        return WriteOk;
      }
      if chunk == ChunkError {
        return WriteFailed;
      }
      if chunk == Received || chunk == Processing {
        return WritePending;
      }
      result := InvalidState;
      return WriteFailed;
    }

    /** FOTA_ProcessTransferDataWrite. */
    method ProcessTransferDataWrite(op: OpStatus, data: seq<byte>, blockCounter: byte) returns (ret: WriteResult)
      requires Valid()
      modifies this, buffer, core.Repr
      ensures Valid() && core.failing == old(core.failing)
      ensures var r := ProcessWrite(old(Abs()), op, data, blockCounter); Abs() == r.fota && ret == r.ret
    {
      hide SotaUpdate.Valid, SotaUpdate.Abs, S.CoreValid, Overwrite;
      if !initialized {
        ResetContext();
      }
      if !downloadStarted {
        result := InvalidState;
        return WriteFailed;
      }
      if op == Initial {
        ret := WriteInitial(data, blockCounter);
        return;
      }
      if op == Pending {
        ret := WritePoll();
        return;
      }
      result := InvalidParam;
      return WriteFailed;
    }

    method FinishChunk()
      modifies this`total, this`chunk, this`result
      ensures total == (old(total) + length) % 0x1_0000_0000 && chunk == Done && result == ResultOk
    {
      total := (total + length) % 0x1_0000_0000;
      chunk := Done;
      result := ResultOk;
    }

    /** FOTAHandlerMain: writes the chunk handed over, if there is one. */
    method CyclicMain()
      requires Valid()
      modifies this, buffer, core.Repr
      ensures Valid() && core.failing == old(core.failing)
      ensures Abs() == FotaModel.CyclicMain(old(Abs()), old(core.failing))
    {
      hide SotaUpdate.Valid, SotaUpdate.Abs, S.CoreValid, S.Begin, S.WriteChunk, S.Finalize;
      if chunk != Received {
        return;
      }
      chunk := Processing;
      var written := core.WriteChunk(buffer[..length]);
      if written == S.Ok {
        FinishChunk();
      } else {
        SetHandlerError(UpdateFailed);
      }
    }

    method MarkVerified()
      modifies this`result, this`verified, this`handler
      ensures result == ResultOk && verified && handler == HandlerState.Verified
    {
      result := ResultOk;
      verified := true;
      handler := HandlerState.Verified;
    }

    method FinalizeImage(crc: bv32) returns (ok: bool)
      requires Valid()
      modifies this`result, this`verified, this`handler, core.Repr
      ensures Valid() && core.failing == old(core.failing)
      ensures var r := Finished(old(Abs()), S.Finalize(old(Abs()).core, crc, old(core.failing)));
              Abs() == r.fota && ok == r.ok
    {
      hide SotaUpdate.Valid, SotaUpdate.Abs, S.CoreValid, S.Finalize;
      var finalized := core.FinalizeAndVerify(crc);
      if finalized != S.Ok {
        MapFailure(VerifyFailed);
        return false;
      }
      MarkVerified();
      return true;
    }

    /** FOTA_RequestTransferExit. */
    method RequestTransferExit(crc: bv32) returns (ok: bool)
      requires Valid()
      modifies this, buffer, core.Repr
      ensures Valid() && core.failing == old(core.failing)
      ensures var r := TransferExit(old(Abs()), crc, old(core.failing)); Abs() == r.fota && ok == r.ok
    {
      hide SotaUpdate.Valid, SotaUpdate.Abs, S.CoreValid, S.Begin, S.WriteChunk, S.Finalize;
      if !downloadStarted {
        result := InvalidState;
        return false;
      }
      if chunk == Received || chunk == Processing || chunk == Done {
        result := Busy;
        return false;
      }
      expectedCrc := crc;
      if verified {
        return true;
      }
      ok := FinalizeImage(crc);
    }

    /** FOTA_ActivateImage. */
    method ActivateImage(swapOk: bool) returns (ok: bool)
      requires Valid()
      modifies this
      ensures Valid()
      ensures var r := Activate(old(Abs()), swapOk); Abs() == r.fota && ok == r.ok
    {
      hide SotaUpdate.Valid, SotaUpdate.Abs, S.CoreValid, S.Begin, S.WriteChunk, S.Finalize;
      if !verified {
        result := InvalidState;
        return false;
      }
      if !swapOk {
        result, handler := ActivationFailed, Error;
        return false;
      }
      result := ResultOk;
      activationArmed := true;
      handler := HandlerState.ActivationArmed;
      return true;
    }

    /** FOTA_RollbackImage. */
    method RollbackImage(swapOk: bool) returns (ok: bool)
      requires Valid()
      modifies this
      ensures Valid()
      ensures var r := Rollback(old(Abs()), swapOk); Abs() == r.fota && ok == r.ok
    {
      hide SotaUpdate.Valid, SotaUpdate.Abs, S.CoreValid, S.Begin, S.WriteChunk, S.Finalize;
      if !swapOk {
        result, handler := RollbackFailed, Error;
        return false;
      }
      result := ResultOk;
      rollbackArmed := true;
      handler := HandlerState.RollbackArmed;
      return true;
    }

    /** FOTA_ProvisionInitialOnce. */
    method ProvisionInitialOnce(provisionOk: bool) returns (ok: bool)
      requires Valid()
      modifies this, buffer, core.Repr
      ensures Valid()
      ensures var r := Provision(old(Abs()), provisionOk); Abs() == r.fota && ok == r.ok
    {
      hide SotaUpdate.Valid, SotaUpdate.Abs, S.CoreValid, S.Begin, S.WriteChunk, S.Finalize;
      if !initialized {
        ResetContext();
      }
      if !provisionOk {
        result, handler := ProvisionFailed, Error;
        return false;
      }
      result := ResultOk;
      return true;
    }
  }
}
