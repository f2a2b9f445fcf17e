/** CanTp as it runs: one object per element of CanTp_TxRuntime and CanTp_RxRuntime, with the byte
    buffers it works in, and the CAN driver's single pending transmission. Every handler is proved
    to do to its buffers and fields exactly what the transition function of CanTpModel says. */
module CanTpRuntime {

  import opened Bytes
  import M = CanTpModel

  /** The transmit hardware object of one CAN controller. Whether the controller is started is for
      others to say, and `hardwareOk` is what the message RAM would answer; `bus` is the record of the
      frames it took. */
  class CanDriver {
    var started: bool
    var isPending: bool
    var swPduHandle: nat
    var hardwareOk: bool
    var bus: seq<M.Request>

    /** The handle kept for the confirmation is that of the frame taken last. */
    ghost predicate Consistent()
      reads this
    {
      isPending ==> bus != [] && swPduHandle == bus[|bus| - 1].canIfTxPduId
    }

    constructor ()
      ensures Consistent() && started && !isPending && bus == []
    {
      started, isPending, swPduHandle, hardwareOk, bus := true, false, 0, true, [];
    }

    predicate Accepts()
      reads this
    {
      started && !isPending && hardwareOk
    }

    /** Can_Write. */
    method Write(handle: nat, sdu: array<byte>) returns (ok: bool)
      requires Consistent() && sdu.Length == M.FRAME_LENGTH
      modifies this`isPending, this`swPduHandle, this`bus
      ensures Consistent()
      ensures ok == old(Accepts())
      ensures ok ==> isPending && swPduHandle == handle && bus == old(bus) + [M.Request(handle, sdu[..])]
      ensures !ok ==> isPending == old(isPending) && swPduHandle == old(swPduHandle) && bus == old(bus)
    {
      if !started {
        return false;
      }
      if isPending {
        return false;
      }
      if hardwareOk {
        isPending, swPduHandle := true, handle;
        bus := bus + [M.Request(handle, sdu[..])];
        return true;
      }
      return false;
    }

    /** Can_MainFunction_Write: once the hardware no longer holds the frame, the handle to confirm. */
    method MainFunctionWrite(requestPending: bool) returns (confirmed: Option<nat>)
      requires Consistent()
      modifies this`isPending
      ensures Consistent()
      ensures confirmed == if started && old(isPending) && !requestPending then Some(swPduHandle) else None
      ensures isPending == (old(isPending) && confirmed.None?)
    {
      confirmed := None;
      if !started {
        return;
      }
      if isPending {
        if !requestPending {
          isPending := false;
          confirmed := Some(swPduHandle);
        }
      }
    }
  }

  /** What the bus record gains from a request that CanIf did or did not accept. */
  function Queued(request: Option<M.Request>, accept: bool): seq<M.Request> {
    if request.Some? && accept then [request.value] else []
  }

  // ---------------------------------------------------------------------------------------------

  class TxRuntime {
    var state: M.TxState
    var config: M.TxConfig
    var totalLength: nat
    var transmittedLength: nat
    var nextSn: nat
    var blockSize: byte
    var blockCounter: byte
    var stMin: byte
    var waitFrameCount: byte
    const buffer: array<byte>
    const canFrameBuffer: array<byte>

    ghost const Repr: set<object>

    ghost predicate Valid()
      reads this, Repr
    {
      && Repr == {this, buffer, canFrameBuffer} && buffer != canFrameBuffer
      && buffer.Length == M.BUFFER_SIZE && canFrameBuffer.Length == M.FRAME_LENGTH
      && M.TxValid(Fields())
    }

    ghost function Fields(): M.Tx
      reads this, buffer
    {
      M.Tx(state, config, totalLength, transmittedLength, nextSn, blockSize, blockCounter, stMin, waitFrameCount, buffer[..])
    }

    /** The channel as a value. */
    ghost function Abs(): (tx: M.Tx)
      requires Valid()
      reads this, Repr
      ensures M.TxValid(tx)
    {
      Fields()
    }

    constructor ()
      ensures Valid() && fresh(Repr) && Abs() == M.TX_RESET
    {
      state, config := M.TxIdle, M.NO_TX_CONFIG;
      totalLength, transmittedLength, nextSn := 0, 0, 0;
      blockSize, blockCounter, stMin, waitFrameCount := 0, 0, 0, 0;
      buffer := new byte[M.BUFFER_SIZE](_ => 0);
      canFrameBuffer := new byte[M.FRAME_LENGTH](_ => 0);
      Repr := {this, buffer, canFrameBuffer};
      new;
      assert buffer[..] == Zeros(M.BUFFER_SIZE);
    }

    /** CanTp_ResetTxRuntime: memset over the whole structure. */
    method Reset()
      requires Repr == {this, buffer, canFrameBuffer} && buffer != canFrameBuffer
      requires buffer.Length == M.BUFFER_SIZE && canFrameBuffer.Length == M.FRAME_LENGTH
      modifies Repr
      ensures Valid() && Abs() == M.TX_RESET
    {
      state, config := M.TxIdle, M.NO_TX_CONFIG;
      totalLength, transmittedLength, nextSn := 0, 0, 0;
      blockSize, blockCounter, stMin, waitFrameCount := 0, 0, 0, 0;
      Fill(buffer, 0);
      Fill(canFrameBuffer, 0);
      assert buffer[..] == Zeros(M.BUFFER_SIZE);
    }

    /** CanTp_SendSingleFrame. */
    method SendSingleFrame(cfg: M.TxConfig, sdu: seq<byte>, can: CanDriver) returns (ok: bool)
      requires Valid() && state.TxIdle? && 1 <= |sdu| <= M.SF_MAX && can !in Repr && can.Consistent()
      modifies this`state, this`totalLength, canFrameBuffer, can`isPending, can`swPduHandle, can`bus
      ensures can.Consistent()
      ensures Valid()
      ensures Abs() == old(Abs()).(state := M.WaitTxConfirmation, totalLength := 0)
      ensures ok == old(can.Accepts())
      ensures can.bus == old(can.bus) + Queued(Some(M.Request(cfg.canIfTxNpduId, M.SfFrame(sdu))), ok)
      ensures can.isPending == (old(can.isPending) || ok)
    {
      Fill(canFrameBuffer, 0);
      canFrameBuffer[0] := |sdu| / 256 % 16;
      canFrameBuffer[1] := |sdu| % 256;
      Copy(canFrameBuffer, 2, sdu);
      assert canFrameBuffer[..] == M.SfFrame(sdu);
      state, totalLength := M.WaitTxConfirmation, 0;
      ok := can.Write(cfg.canIfTxNpduId, canFrameBuffer);
    }

    /** CanTp_SendFirstFrame. */
    method SendFirstFrame(cfg: M.TxConfig, can: CanDriver) returns (ok: bool)
      requires Repr == {this, buffer, canFrameBuffer} && buffer != canFrameBuffer && can !in Repr && can.Consistent()
      requires buffer.Length == M.BUFFER_SIZE && canFrameBuffer.Length == M.FRAME_LENGTH
      requires M.FF_DATA < totalLength <= M.BUFFER_SIZE
      modifies canFrameBuffer, can`isPending, can`swPduHandle, can`bus
      ensures can.Consistent()
      ensures ok == old(can.Accepts())
      ensures can.bus == old(can.bus) + Queued(Some(M.Request(cfg.canIfTxNpduId, M.FfFrame(totalLength, buffer[..M.FF_DATA]))), ok)
      ensures can.isPending == (old(can.isPending) || ok)
    {
      Fill(canFrameBuffer, 0);
      canFrameBuffer[0] := 16 + totalLength / 256 % 16;
      canFrameBuffer[1] := totalLength % 256;
      Copy(canFrameBuffer, 2, buffer[..M.FF_DATA]);
      assert canFrameBuffer[..] == M.FfFrame(totalLength, buffer[..M.FF_DATA]);
      ok := can.Write(cfg.canIfTxNpduId, canFrameBuffer);
    }

    /** What CanTp_Transmit writes before it sends the first frame. */
    method Prepare(cfg: M.TxConfig, sdu: seq<byte>)
      requires M.SF_MAX < |sdu| <= buffer.Length == M.BUFFER_SIZE && this as object != buffer
      modifies this, buffer
      ensures state == old(state)
      ensures Fields() == M.Tx(old(state), cfg, |sdu|, M.FF_DATA, 1, 0, 0, 0, 0, Overwrite(old(buffer[..]), 0, sdu))
      ensures buffer[..M.FF_DATA] == sdu[..M.FF_DATA]
    {
      Copy(buffer, 0, sdu);
      OverwriteStart(old(buffer[..]), sdu, M.FF_DATA);
      hide Overwrite;
      config := cfg;
      totalLength, transmittedLength := |sdu|, M.FF_DATA;
      nextSn, blockSize, blockCounter, stMin, waitFrameCount := 1, 0, 0, 0, 0;
    }

    /** CanTp_Transmit on this channel. */
    method Transmit(cfg: M.TxConfig, sdu: seq<byte>, can: CanDriver) returns (ok: bool)
      requires Valid() && can !in Repr && can.Consistent()
      modifies Repr, can`isPending, can`swPduHandle, can`bus
      ensures can.Consistent()
      ensures Valid()
      ensures var r := M.Transmit(old(Abs()), cfg, sdu, old(can.Accepts()));
              && Abs() == r.tx && ok == r.ok
              && can.bus == old(can.bus) + Queued(r.request, old(can.Accepts()))
              && (can.isPending <==> old(can.isPending) || (r.request.Some? && old(can.Accepts())))
    {
      hide Overwrite;
      if |sdu| == 0 || |sdu| > M.MAX_LENGTH_12BIT {
        return false;
      }
      if state != M.TxIdle {
        return false;
      }
      if |sdu| <= M.SF_MAX {
        ok := SendSingleFrame(cfg, sdu, can);
        config := cfg;
        return;
      }
      if |sdu| > M.BUFFER_SIZE {
        return false;
      }
      Prepare(cfg, sdu);
      ok := SendFirstFrame(cfg, can);
      if !ok {
        Reset();
        return;
      }
      state := M.WaitFc;
    }

    method BuildConsecutiveFrame(n: nat)
      requires buffer != canFrameBuffer && canFrameBuffer.Length == M.FRAME_LENGTH
      requires n <= M.CF_DATA && transmittedLength + n <= buffer.Length
      modifies canFrameBuffer
      ensures canFrameBuffer[..] == M.CfFrame(nextSn, buffer[transmittedLength..transmittedLength + n])
    {
      Fill(canFrameBuffer, 0);
      canFrameBuffer[0] := 32 + nextSn % 16;
      Copy(canFrameBuffer, 1, buffer[transmittedLength..transmittedLength + n]);
    }

    /** CanTp_SendNextConsecutiveFrame. */
    method SendNextConsecutiveFrame(can: CanDriver) returns (ok: bool, confirmed: Option<M.Confirmation>)
      requires Valid() && state.SendCf? && can !in Repr && can.Consistent()
      modifies Repr, can`isPending, can`swPduHandle, can`bus
      ensures can.Consistent()
      ensures Valid()
      ensures var r := M.SendNext(old(Abs()), old(can.Accepts()));
              && Abs() == r.tx && ok == r.ok && confirmed == r.confirmed
              && can.bus == old(can.bus) + Queued(r.request, old(can.Accepts()))
              && (can.isPending <==> old(can.isPending) || (r.request.Some? && old(can.Accepts())))
    {
      confirmed := None;
      if transmittedLength >= totalLength {
        assert false; // a finished channel is never left in this state
      }
      if blockSize != 0 && blockCounter >= blockSize {
        state := M.WaitFc;
        return true, confirmed;
      }
      var remaining := totalLength - transmittedLength;
      var n := if remaining > M.CF_DATA then M.CF_DATA else remaining;
      BuildConsecutiveFrame(n);
      ok := can.Write(config.canIfTxNpduId, canFrameBuffer);
      if ok {
        FrameAccepted(n);
      }
    }

    method FrameAccepted(n: nat)
      modifies this`transmittedLength, this`nextSn, this`blockCounter, this`state
      ensures transmittedLength == old(transmittedLength) + n && nextSn == (old(nextSn) + 1) % 16
      ensures blockCounter == (old(blockCounter) + 1) % 256 && state == M.WaitTxConfirmation
    {
      transmittedLength := transmittedLength + n;
      nextSn := (nextSn + 1) % 16;
      blockCounter := (blockCounter + 1) % 256;
      state := M.WaitTxConfirmation;
    }

    /** CanTp_TxConfirmation on this channel. */
    method TxConfirmation(ok: bool) returns (confirmed: Option<M.Confirmation>)
      requires Valid()
      modifies Repr
      ensures Valid()
      ensures var r := M.Confirm(old(Abs()), ok); Abs() == r.tx && confirmed == r.confirmed
    {
      confirmed := None;
      if state == M.TxIdle {
        return;
      }
      if !ok {
        confirmed := Some(M.Confirmation(config.pduRTxPduId, false));
        Reset();
        return;
      }
      if totalLength == 0 {
        confirmed := Some(M.Confirmation(config.pduRTxPduId, true));
        Reset();
        return;
      }
      if state == M.WaitTxConfirmation {
        if transmittedLength >= totalLength {
          confirmed := Some(M.Confirmation(config.pduRTxPduId, true));
          Reset();
        } else if blockSize != 0 && blockCounter >= blockSize {
          state := M.WaitFc;
        } else {
          state := M.SendCf;
        }
      }
    }

    /** CanTp_HandleFlowControl once this channel is found to wait for it. */
    method HandleFlowControl(data: M.Frame, length: nat) returns (confirmed: Option<M.Confirmation>)
      requires Valid()
      modifies Repr
      ensures Valid()
      ensures var r := M.FlowControl(old(Abs()), data, length); Abs() == r.tx && confirmed == r.confirmed
    {
      confirmed := None;
      if length < 3 {
        return;
      }
      if state != M.WaitFc {
        return;
      }
      var flowStatus := M.PciLow(data);
      if flowStatus == M.FC_CTS {
        blockSize, blockCounter, stMin, waitFrameCount := data[1], 0, data[2], 0;
        state := M.SendCf;
      } else if flowStatus == M.FC_WAIT {
        waitFrameCount := (waitFrameCount + 1) % 256;
        if waitFrameCount > M.MAX_WAIT_FRAMES {
          confirmed := Some(M.Confirmation(config.pduRTxPduId, false));
          Reset();
        }
      } else {
        confirmed := Some(M.Confirmation(config.pduRTxPduId, false));
        Reset();
      }
    }
  }

  // ---------------------------------------------------------------------------------------------

  class RxRuntime {
    var state: M.RxState
    var pduRRxPduId: nat
    var canTpRxNsduId: nat
    var canIfTxFcPduId: nat
    var totalLength: nat
    var receivedLength: nat
    var expectedSn: nat
    var blockCounter: byte
    const buffer: array<byte>
    const fcFrameBuffer: array<byte>

    ghost const Repr: set<object>

    ghost function Fields(): M.Rx
      reads this, buffer
    {
      M.Rx(state, pduRRxPduId, canTpRxNsduId, canIfTxFcPduId, totalLength, receivedLength, expectedSn, blockCounter, buffer[..])
    }

    ghost predicate Valid(config: M.RxConfig)
      reads this, Repr
    {
      && Repr == {this, buffer, fcFrameBuffer} && buffer != fcFrameBuffer
      && buffer.Length == M.BUFFER_SIZE && fcFrameBuffer.Length == M.FRAME_LENGTH
      && M.RxConfigValid(config) && M.RxValid(Fields(), config)
    }

    /** The channel as a value. */
    ghost function Abs(config: M.RxConfig): (rx: M.Rx)
      requires Valid(config)
      reads this, Repr
      ensures M.RxConfigValid(config) && M.RxValid(rx, config)
    {
      Fields()
    }

    constructor (config: M.RxConfig)
      requires M.RxConfigValid(config)
      ensures Valid(config) && fresh(Repr) && Abs(config) == M.RX_RESET
    {
      state := M.RxIdle;
      pduRRxPduId, canTpRxNsduId, canIfTxFcPduId := 0, 0, 0;
      totalLength, receivedLength, expectedSn, blockCounter := 0, 0, 0, 0;
      buffer := new byte[M.BUFFER_SIZE](_ => 0);
      fcFrameBuffer := new byte[M.FRAME_LENGTH](_ => 0);
      Repr := {this, buffer, fcFrameBuffer};
      new;
      assert buffer[..] == Zeros(M.BUFFER_SIZE);
    }

    /** CanTp_ResetRxRuntime. */
    method Reset(config: M.RxConfig)
      requires Repr == {this, buffer, fcFrameBuffer} && buffer != fcFrameBuffer && M.RxConfigValid(config)
      requires buffer.Length == M.BUFFER_SIZE && fcFrameBuffer.Length == M.FRAME_LENGTH
      modifies Repr
      ensures Valid(config) && Abs(config) == M.RX_RESET
    {
      state := M.RxIdle;
      pduRRxPduId, canTpRxNsduId, canIfTxFcPduId := 0, 0, 0;
      totalLength, receivedLength, expectedSn, blockCounter := 0, 0, 0, 0;
      Fill(buffer, 0);
      Fill(fcFrameBuffer, 0);
      assert buffer[..] == Zeros(M.BUFFER_SIZE);
    }

    /** The request a flow control reply makes of CanIf. */
    function FcRequest(config: M.RxConfig, reply: Option<nat>): Option<M.Request> {
      if reply.Some? then
        Some(M.Request(config.canIfTxFcPduId, M.FcFrame(reply.value, config.blockSize, config.stMin)))
      else
        None
    }

    /** CanTp_SendFlowControl. */
    method SendFlowControl(config: M.RxConfig, status: nat, can: CanDriver) returns (ok: bool)
      requires Valid(config) && can !in Repr && can.Consistent()
      modifies fcFrameBuffer, can`isPending, can`swPduHandle, can`bus
      ensures can.Consistent()
      ensures Valid(config) && Abs(config) == old(Abs(config))
      ensures ok == old(can.Accepts())
      ensures can.bus == old(can.bus) + Queued(FcRequest(config, Some(status)), ok)
      ensures can.isPending == (old(can.isPending) || ok)
    {
      Fill(fcFrameBuffer, 0);
      fcFrameBuffer[0] := 48 + status % 16;
      fcFrameBuffer[1] := config.blockSize;
      fcFrameBuffer[2] := config.stMin;
      assert fcFrameBuffer[..] == M.FcFrame(status, config.blockSize, config.stMin);
      ok := can.Write(config.canIfTxFcPduId, fcFrameBuffer);
    }

    /** CanTp_HandleSingleFrame. */
    method HandleSingleFrame(config: M.RxConfig, data: M.Frame, length: nat) returns (delivered: Option<M.Delivery>)
      requires Valid(config)
      modifies Repr
      ensures Valid(config)
      ensures var r := M.HandleSf(old(Abs(config)), config, data, length);
              Abs(config) == r.rx && delivered == r.delivered
    {
      delivered := None;
      if length < 2 {
        return;
      }
      var payloadLength := M.PciLength(data);
      if payloadLength > M.SF_MAX {
        return;
      }
      if payloadLength + 2 > length {
        return;
      }
      Copy(buffer, 0, data[2..2 + payloadLength]);
      assert buffer[..payloadLength] == data[2..2 + payloadLength];
      delivered := Some(M.Delivery(config.pduRRxPduId, buffer[..payloadLength]));
    }

    /** CanTp_HandleFirstFrame. */
    method HandleFirstFrame(config: M.RxConfig, data: M.Frame, length: nat, can: CanDriver)
      requires Valid(config) && can !in Repr && can.Consistent()
      modifies Repr, can`isPending, can`swPduHandle, can`bus
      ensures can.Consistent()
      ensures Valid(config)
      ensures var r := M.HandleFf(old(Abs(config)), config, data, length);
              && Abs(config) == r.rx
              && can.bus == old(can.bus) + Queued(FcRequest(config, r.reply), old(can.Accepts()))
              && (can.isPending <==> old(can.isPending) || (r.reply.Some? && old(can.Accepts())))
    {
      hide Overwrite;
      if state != M.RxIdle {
        var _ := SendFlowControl(config, M.FC_WAIT, can);
        return;
      }
      if length < M.FRAME_LENGTH {
        return;
      }
      var total := M.PciLength(data);
      if total == 0 || total <= M.FF_DATA || total > config.rxBufferSize {
        var _ := SendFlowControl(config, M.FC_OVERFLOW, can);
        return;
      }
      Fill(buffer, 0);
      assert buffer[..] == Zeros(M.BUFFER_SIZE);
      Copy(buffer, 0, data[2..]);
      state := M.Receiving;
      canTpRxNsduId, pduRRxPduId, canIfTxFcPduId := config.canTpRxNsduId, config.pduRRxPduId, config.canIfTxFcPduId;
      totalLength, receivedLength, expectedSn, blockCounter := total, M.FF_DATA, 1, 0;
      var _ := SendFlowControl(config, M.FC_CTS, can);
    }

    /** CanTp_HandleConsecutiveFrame. */
    method HandleConsecutiveFrame(config: M.RxConfig, data: M.Frame, length: nat, can: CanDriver)
      returns (delivered: Option<M.Delivery>)
      requires Valid(config) && can !in Repr && can.Consistent()
      modifies Repr, can`isPending, can`swPduHandle, can`bus
      ensures can.Consistent()
      ensures Valid(config)
      ensures var r := M.HandleCf(old(Abs(config)), config, data, length);
              && Abs(config) == r.rx && delivered == r.delivered
              && can.bus == old(can.bus) + Queued(FcRequest(config, r.reply), old(can.Accepts()))
              && (can.isPending <==> old(can.isPending) || (r.reply.Some? && old(can.Accepts())))
    {
      hide Overwrite;
      delivered := None;
      if state != M.Receiving {
        return;
      }
      if length < 1 {
        return;
      }
      if M.PciLow(data) != expectedSn {
        Reset(config);
        return;
      }
      var remaining := totalLength - receivedLength;
      var n := if remaining > M.CF_DATA then M.CF_DATA else remaining;
      if receivedLength + n > totalLength || receivedLength + n > config.rxBufferSize {
        assert false; // both length guards are dead code
      }
      Copy(buffer, receivedLength, data[1..1 + n]);
      receivedLength := receivedLength + n;
      expectedSn := (expectedSn + 1) % 16;
      blockCounter := (blockCounter + 1) % 256;
      if receivedLength >= totalLength {
        delivered := Some(M.Delivery(pduRRxPduId, buffer[..totalLength]));
        Reset(config);
        return;
      }
      if config.blockSize != 0 && blockCounter >= config.blockSize {
        blockCounter := 0;
        var _ := SendFlowControl(config, M.FC_CTS, can);
      }
    }

    /** The receive side of CanTp_RxIndication. */
    method Receive(config: M.RxConfig, data: M.Frame, length: nat, can: CanDriver)
      returns (delivered: Option<M.Delivery>)
      requires Valid(config) && can !in Repr && can.Consistent() && length > 0
      modifies Repr, can`isPending, can`swPduHandle, can`bus
      ensures can.Consistent()
      ensures Valid(config)
      ensures var r := M.Receive(old(Abs(config)), config, data, length);
              && Abs(config) == r.rx && delivered == r.delivered
              && can.bus == old(can.bus) + Queued(FcRequest(config, r.reply), old(can.Accepts()))
              && (can.isPending <==> old(can.isPending) || (r.reply.Some? && old(can.Accepts())))
    {
      hide M.HandleSf, M.HandleFf, M.HandleCf, M.RxValid;
      delivered := None;
      if M.PciType(data) == M.PCI_SF {
        delivered := HandleSingleFrame(config, data, length);
        SfNeverReplies(old(Abs(config)), config, data, length);
      } else if M.PciType(data) == M.PCI_FF {
        HandleFirstFrame(config, data, length, can);
        FfNeverDelivers(old(Abs(config)), config, data, length);
      } else if M.PciType(data) == M.PCI_CF {
        delivered := HandleConsecutiveFrame(config, data, length, can);
      }
    }

    static lemma SfNeverReplies(rx: M.Rx, config: M.RxConfig, data: M.Frame, length: nat)
      requires M.RxValid(rx, config)
      ensures M.HandleSf(rx, config, data, length).reply == None
    {}

    static lemma FfNeverDelivers(rx: M.Rx, config: M.RxConfig, data: M.Frame, length: nat)
      requires M.RxValid(rx, config)
      ensures M.HandleFf(rx, config, data, length).delivered == None
    {}
  }
}
