/** The transport layer as transition functions: what each handler of CanTp does to one transmit
    channel or one receive channel, which frame it hands to CanIf, and what it reports upwards.

    Frames are those of sections 9.6.2 to 9.6.5 of ISO 15765-2:2016 with the project's own layout:
    every frame has 64 bytes, and single and first frames carry a 12-bit length in two bytes. */
module CanTpModel {

  import opened Bytes

  const FRAME_LENGTH := 64
  const FF_DATA := 62
  const SF_MAX := 62
  const CF_DATA := 63
  const BUFFER_SIZE := 2048
  const MAX_LENGTH_12BIT := 0x0FFF
  const MAX_WAIT_FRAMES := 3

  const PCI_SF := 0
  const PCI_FF := 1
  const PCI_CF := 2
  const PCI_FC := 3

  const FC_CTS := 0
  const FC_WAIT := 1
  const FC_OVERFLOW := 2

  type Frame = f: seq<byte> | |f| == 64 witness Zeros(64)

  // ---------------------------------------------------------------------------------------------
  // Frame layout.

  function PciType(f: seq<byte>): nat
    requires |f| > 0
  {
    f[0] / 16
  }

  function PciLow(f: seq<byte>): nat
    requires |f| > 0
  {
    f[0] % 16
  }

  function PciLength(f: seq<byte>): nat
    requires |f| > 1
  {
    PciLow(f) * 256 + f[1]
  }

  function Padded(prefix: seq<byte>): (f: Frame)
    requires |prefix| <= 64
    ensures f[..|prefix|] == prefix
    ensures forall i :: |prefix| <= i < 64 ==> f[i] == 0
  {
    prefix + Zeros(64 - |prefix|)
  }

  function SfFrame(sdu: seq<byte>): Frame
    requires |sdu| <= SF_MAX
  {
    Padded([|sdu| / 256 % 16, |sdu| % 256] + sdu)
  }

  function FfFrame(total: nat, data: seq<byte>): Frame
    requires |data| == FF_DATA
  {
    Padded([16 + total / 256 % 16, total % 256] + data)
  }

  function CfFrame(sn: nat, data: seq<byte>): Frame
    requires |data| <= CF_DATA
  {
    Padded([32 + sn % 16] + data)
  }

  function FcFrame(status: nat, blockSize: byte, stMin: byte): Frame {
    Padded([48 + status % 16, blockSize, stMin])
  }

  // ---------------------------------------------------------------------------------------------
  // Transmit channel.

  datatype TxState = TxIdle | WaitFc | SendCf | WaitTxConfirmation

  datatype TxConfig = TxConfig(canTpTxNsduId: nat, canIfTxNpduId: nat, pduRTxPduId: nat, expectedRxNsduId: nat)

  const NO_TX_CONFIG := TxConfig(0, 0, 0, 0)

  /** One element of CanTp_TxRuntime. */
  datatype Tx = Tx(
    state: TxState, config: TxConfig,
    totalLength: nat, transmittedLength: nat, nextSn: nat,
    blockSize: byte, blockCounter: byte, stMin: byte, waitFrameCount: byte,
    buffer: seq<byte>)

  const TX_RESET := Tx(TxIdle, NO_TX_CONFIG, 0, 0, 0, 0, 0, 0, 0, Zeros(BUFFER_SIZE))

  /** A call of CanIf_Transmit. */
  datatype Request = Request(canIfTxPduId: nat, frame: Frame)

  /** A call of PduR_CanTpTxConfirmation. */
  datatype Confirmation = Confirmation(pduRTxPduId: nat, ok: bool)

  /** What a transmit handler does: the new channel, its return value, the frame it hands to CanIf
      (whatever CanIf answers) and the confirmation it gives to PduR. */
  datatype TxResult = TxResult(tx: Tx, ok: bool, request: Option<Request>, confirmed: Option<Confirmation>)

  /** What holds of every transmit channel between two calls. */
  predicate TxValid(tx: Tx) {
    && |tx.buffer| == BUFFER_SIZE
    && tx.nextSn < 16
    && (tx.state.TxIdle? ==> tx == TX_RESET)
    && (tx.state.WaitFc? || tx.state.SendCf? ==>
          && FF_DATA <= tx.transmittedLength < tx.totalLength <= BUFFER_SIZE
          && tx.totalLength > SF_MAX)
    && (tx.state.WaitTxConfirmation? ==>
          || tx.totalLength == 0
          || FF_DATA < tx.transmittedLength <= tx.totalLength <= BUFFER_SIZE)
  }

  /** CanTp_Transmit. `accept` is the answer of CanIf_Transmit. */
  function Transmit(tx: Tx, config: TxConfig, sdu: seq<byte>, accept: bool): (r: TxResult)
    requires TxValid(tx)
    ensures TxValid(r.tx)
    ensures r.tx == tx || r.tx.state.TxIdle? || r.tx.config == config
  {
    if |sdu| == 0 || |sdu| > MAX_LENGTH_12BIT || !tx.state.TxIdle? then
      TxResult(tx, false, None, None)
    else if |sdu| <= SF_MAX then
      TxResult(
        tx.(config := config, state := WaitTxConfirmation, totalLength := 0),
        accept, Some(Request(config.canIfTxNpduId, SfFrame(sdu))), None)
    else if |sdu| > BUFFER_SIZE then
      TxResult(tx, false, None, None)
    else
      var started := Tx(WaitFc, config, |sdu|, FF_DATA, 1, 0, 0, 0, 0, Overwrite(tx.buffer, 0, sdu));
      TxResult(
        if accept then started else TX_RESET,
        accept, Some(Request(config.canIfTxNpduId, FfFrame(|sdu|, sdu[..FF_DATA]))), None)
  }

  function Min(a: nat, b: nat): nat {
    if a <= b then a else b
  }

  /** CanTp_SendNextConsecutiveFrame. */
  function SendNext(tx: Tx, accept: bool): (r: TxResult)
    requires TxValid(tx) && tx.state.SendCf?
    ensures TxValid(r.tx)
    ensures r.tx.state.TxIdle? || r.tx.config == tx.config
  {
    if tx.transmittedLength >= tx.totalLength then
      TxResult(TX_RESET, true, None, Some(Confirmation(tx.config.pduRTxPduId, true)))
    else if tx.blockSize != 0 && tx.blockCounter >= tx.blockSize then
      TxResult(tx.(state := WaitFc), true, None, None)
    else
      var n := Min(tx.totalLength - tx.transmittedLength, CF_DATA);
      var data := tx.buffer[tx.transmittedLength..tx.transmittedLength + n];
      var request := Some(Request(tx.config.canIfTxNpduId, CfFrame(tx.nextSn, data)));
      if accept then
        TxResult(
          tx.(transmittedLength := tx.transmittedLength + n,
              nextSn := (tx.nextSn + 1) % 16,
              blockCounter := (tx.blockCounter + 1) % 256,
              state := WaitTxConfirmation),
          true, request, None)
      else
        TxResult(tx, false, request, None)
  }

  /** The visit of one channel by CanTp_MainFunction. */
  function Poll(tx: Tx, accept: bool): (r: TxResult)
    requires TxValid(tx)
    ensures TxValid(r.tx)
    ensures r.tx.state.TxIdle? || (r.tx.config == tx.config && !tx.state.TxIdle?)
  {
    if tx.state.SendCf? then SendNext(tx, accept) else TxResult(tx, true, None, None)
  }

  /** What is handed to CanIf does not depend on its answer. */
  lemma SameRequest(tx: Tx, accept: bool)
    requires TxValid(tx)
    ensures Poll(tx, accept).request == Poll(tx, true).request
  {}

  /** Whether channel `i` still finds the driver free when CanTp_MainFunction comes to it: nobody
      before it in the table has handed over a frame. */
  function TurnOf(txs: seq<Tx>, i: nat, free: bool): bool
    requires i <= |txs| && forall j :: 0 <= j < |txs| ==> TxValid(txs[j])
  {
    if i == 0 then free else TurnOf(txs, i - 1, free) && Poll(txs[i - 1], true).request.None?
  }

  lemma TurnStart(txs: seq<Tx>, free: bool)
    requires forall j :: 0 <= j < |txs| ==> TxValid(txs[j])
    ensures TurnOf(txs, 0, free) == free
  {}

  lemma TurnPasses(txs: seq<Tx>, i: nat, free: bool)
    requires i < |txs| && forall j :: 0 <= j < |txs| ==> TxValid(txs[j])
    ensures TurnOf(txs, i + 1, free) <==> TurnOf(txs, i, free) && Poll(txs[i], true).request.None?
  {}

  /** CanTp_TxConfirmation for this channel. */
  function Confirm(tx: Tx, ok: bool): (r: TxResult)
    requires TxValid(tx)
    ensures TxValid(r.tx)
    ensures r.tx.state.TxIdle? || (r.tx.config == tx.config && !tx.state.TxIdle?)
  {
    if tx.state.TxIdle? then
      TxResult(tx, true, None, None)
    else if !ok then
      TxResult(TX_RESET, true, None, Some(Confirmation(tx.config.pduRTxPduId, false)))
    else if tx.totalLength == 0 then
      TxResult(TX_RESET, true, None, Some(Confirmation(tx.config.pduRTxPduId, true)))
    else if tx.state.WaitTxConfirmation? then
      if tx.transmittedLength >= tx.totalLength then
        TxResult(TX_RESET, true, None, Some(Confirmation(tx.config.pduRTxPduId, true)))
      else if tx.blockSize != 0 && tx.blockCounter >= tx.blockSize then
        TxResult(tx.(state := WaitFc), true, None, None)
      else
        TxResult(tx.(state := SendCf), true, None, None)
    else
      TxResult(tx, true, None, None)
  }

  /** CanTp_HandleFlowControl once the channel waiting for this receive N-SDU is found. */
  function FlowControl(tx: Tx, data: Frame, length: nat): (r: TxResult)
    requires TxValid(tx)
    ensures TxValid(r.tx)
    ensures r.tx.state.TxIdle? || (r.tx.config == tx.config && !tx.state.TxIdle?)
  {
    if !tx.state.WaitFc? || length < 3 then
      TxResult(tx, true, None, None)
    else if PciLow(data) == FC_CTS then
      TxResult(
        tx.(blockSize := data[1], blockCounter := 0, stMin := data[2], waitFrameCount := 0, state := SendCf),
        true, None, None)
    else if PciLow(data) == FC_WAIT then
      var count := (tx.waitFrameCount + 1) % 256;
      if count > MAX_WAIT_FRAMES then
        TxResult(TX_RESET, true, None, Some(Confirmation(tx.config.pduRTxPduId, false)))
      else
        TxResult(tx.(waitFrameCount := count), true, None, None)
    else
      TxResult(TX_RESET, true, None, Some(Confirmation(tx.config.pduRTxPduId, false)))
  }

  // ---------------------------------------------------------------------------------------------
  // Receive channel.

  datatype RxState = RxIdle | Receiving

  datatype RxConfig = RxConfig(
    canTpRxNsduId: nat, canIfRxNpduId: nat, canIfTxFcPduId: nat, pduRRxPduId: nat,
    rxBufferSize: nat, blockSize: byte, stMin: byte)

  predicate RxConfigValid(config: RxConfig) {
    config.rxBufferSize <= BUFFER_SIZE
  }

  /** One element of CanTp_RxRuntime. */
  datatype Rx = Rx(
    state: RxState, pduRRxPduId: nat, canTpRxNsduId: nat, canIfTxFcPduId: nat,
    totalLength: nat, receivedLength: nat, expectedSn: nat, blockCounter: byte,
    buffer: seq<byte>)

  const RX_RESET := Rx(RxIdle, 0, 0, 0, 0, 0, 0, 0, Zeros(BUFFER_SIZE))

  /** A call of PduR_CanTpRxIndication. */
  datatype Delivery = Delivery(pduRRxPduId: nat, sdu: seq<byte>)

  /** What a receive handler does: the new channel, what it delivers, and the status of the flow
      control frame it tries to send. */
  datatype RxResult = RxResult(rx: Rx, delivered: Option<Delivery>, reply: Option<nat>)

  /** What holds of every receive channel between two calls. */
  predicate RxValid(rx: Rx, config: RxConfig) {
    && |rx.buffer| == BUFFER_SIZE
    && rx.expectedSn < 16
    && (rx.state.Receiving? ==>
          && FF_DATA <= rx.receivedLength < rx.totalLength <= config.rxBufferSize <= BUFFER_SIZE
          && rx.pduRRxPduId == config.pduRRxPduId)
  }

  /** CanTp_HandleSingleFrame. */
  function HandleSf(rx: Rx, config: RxConfig, data: Frame, length: nat): (r: RxResult)
    requires RxValid(rx, config)
    ensures RxConfigValid(config) ==> RxValid(r.rx, config)
  {
    if length < 2 || PciLength(data) > SF_MAX || PciLength(data) + 2 > length then
      RxResult(rx, None, None)
    else
      var n := PciLength(data);
      var sdu := data[2..2 + n];
      RxResult(rx.(buffer := Overwrite(rx.buffer, 0, sdu)), Some(Delivery(config.pduRRxPduId, sdu)), None)
  }

  /** CanTp_HandleFirstFrame. */
  function HandleFf(rx: Rx, config: RxConfig, data: Frame, length: nat): (r: RxResult)
    requires RxValid(rx, config)
    ensures RxConfigValid(config) ==> RxValid(r.rx, config)
  {
    if !rx.state.RxIdle? then
      RxResult(rx, None, Some(FC_WAIT))
    else if length < FRAME_LENGTH then
      RxResult(rx, None, None)
    else if PciLength(data) <= FF_DATA || PciLength(data) > config.rxBufferSize then
      RxResult(rx, None, Some(FC_OVERFLOW))
    else
      RxResult(
        Rx(Receiving, config.pduRRxPduId, config.canTpRxNsduId, config.canIfTxFcPduId,
           PciLength(data), FF_DATA, 1, 0, Overwrite(Zeros(BUFFER_SIZE), 0, data[2..])),
        None, Some(FC_CTS))
  }

  /** The two length guards of CanTp_HandleConsecutiveFrame. */
  predicate LengthGuard(rx: Rx, config: RxConfig, n: nat) {
    rx.receivedLength + n > rx.totalLength || rx.receivedLength + n > config.rxBufferSize
  }

  /** The number of bytes a consecutive frame contributes. */
  function CfShare(rx: Rx): nat
    requires rx.receivedLength <= rx.totalLength
  {
    Min(rx.totalLength - rx.receivedLength, CF_DATA)
  }

  /** CanTp_HandleConsecutiveFrame. */
  function HandleCf(rx: Rx, config: RxConfig, data: Frame, length: nat): (r: RxResult)
    requires RxValid(rx, config)
    ensures RxConfigValid(config) ==> RxValid(r.rx, config)
  {
    if !rx.state.Receiving? || length < 1 then
      RxResult(rx, None, None)
    else if PciLow(data) != rx.expectedSn then
      RxResult(RX_RESET, None, None)
    else
      var n := CfShare(rx);
      if LengthGuard(rx, config, n) then
        RxResult(RX_RESET, None, None)
      else
        var filled := rx.(
          buffer := Overwrite(rx.buffer, rx.receivedLength, data[1..1 + n]),
          receivedLength := rx.receivedLength + n,
          expectedSn := (rx.expectedSn + 1) % 16,
          blockCounter := (rx.blockCounter + 1) % 256);
        if filled.receivedLength >= filled.totalLength then
          RxResult(RX_RESET, Some(Delivery(rx.pduRRxPduId, filled.buffer[..rx.totalLength])), None)
        else if config.blockSize != 0 && filled.blockCounter >= config.blockSize then
          RxResult(filled.(blockCounter := 0), None, Some(FC_CTS))
        else
          RxResult(filled, None, None)
  }

  /** CanTp_RxIndication on the receive side: every frame type but flow control. `data` is the
      64-byte buffer the CAN driver fills, `length` the length of the received frame. */
  function Receive(rx: Rx, config: RxConfig, data: Frame, length: nat): (r: RxResult)
    requires RxValid(rx, config)
    ensures RxConfigValid(config) ==> RxValid(r.rx, config)
  {
    if length == 0 then
      RxResult(rx, None, None)
    else if PciType(data) == PCI_SF then
      HandleSf(rx, config, data, length)
    else if PciType(data) == PCI_FF then
      HandleFf(rx, config, data, length)
    else if PciType(data) == PCI_CF then
      HandleCf(rx, config, data, length)
    else
      RxResult(rx, None, None)
  }

  /** Both length guards of the consecutive-frame handler are dead code in every valid state. */
  lemma LengthGuardsAreDead(rx: Rx, config: RxConfig)
    requires RxValid(rx, config) && rx.state.Receiving?
    ensures !LengthGuard(rx, config, CfShare(rx))
    ensures 0 < CfShare(rx) <= CF_DATA && rx.receivedLength + CfShare(rx) <= BUFFER_SIZE
  {}
}
