/** The CAN interface and the receive path of the CAN driver: handle and identifier tables, the
    CAN FD length codes, and the padding of received frames to 64 bytes. */
module CanInterface {

  import opened Bytes
  import opened CanTpModel
  import opened Reassembly
  import T = TransportSystem

  const UNUSED: byte := 0x11

  // ---------------------------------------------------------------------------------------------
  // Tables.

  datatype TxRow = TxRow(canTpTxPduId: nat, canIfTxPduId: nat, canId: nat, hth: nat)
  datatype RxRow = RxRow(canTpRxPduId: nat, canIfRxPduId: nat, canId: nat, hrh: nat)

  /** Gateway, Motion ECU, Lighting ECU. */
  function TxRows(node: T.NodeId): seq<TxRow> {
    if node == 0 then [TxRow(0, 0, 0x501, 0), TxRow(1, 1, 0x601, 0)]
    else if node == 1 then [TxRow(0, 0, 0x500, 0)]
    else [TxRow(0, 0, 0x600, 0)]
  }

  function RxRows(node: T.NodeId): seq<RxRow> {
    if node == 0 then [RxRow(0, 0, 0x500, 1), RxRow(1, 1, 0x600, 2)]
    else if node == 1 then [RxRow(0, 0, 0x501, 1)]
    else [RxRow(0, 0, 0x601, 1)]
  }

  /** CanIf_FindTxPduConfig: the first row with this handle. */
  method FindTxPduConfig(rows: seq<TxRow>, id: nat) returns (found: Option<TxRow>)
    ensures found == FirstTx(rows, id)
  {
    for i := 0 to |rows|
      invariant FirstTx(rows, id) == FirstTx(rows[i..], id)
    {
      assert rows[i..][1..] == rows[i + 1..];
      if rows[i].canIfTxPduId == id {
        return Some(rows[i]);
      }
    }
    return None;
  }

  function FirstTx(rows: seq<TxRow>, id: nat): Option<TxRow> {
    if rows == [] then None else if rows[0].canIfTxPduId == id then Some(rows[0]) else FirstTx(rows[1..], id)
  }

  /** Can_FindRxHohByCanId and CanIf_FindRxPduConfig: the range filters of the hardware objects are
      single identifiers, the same ones the rows name. */
  method FindRxPduConfig(rows: seq<RxRow>, hoh: nat, canId: nat) returns (found: Option<RxRow>)
    ensures found == FirstRx(rows, hoh, canId)
  {
    for i := 0 to |rows|
      invariant FirstRx(rows, hoh, canId) == FirstRx(rows[i..], hoh, canId)
    {
      assert rows[i..][1..] == rows[i + 1..];
      if rows[i].hrh == hoh && rows[i].canId == canId {
        return Some(rows[i]);
      }
    }
    return None;
  }

  function FirstRx(rows: seq<RxRow>, hoh: nat, canId: nat): Option<RxRow> {
    if rows == [] then None
    else if rows[0].hrh == hoh && rows[0].canId == canId then Some(rows[0])
    else FirstRx(rows[1..], hoh, canId)
  }

  function Hoh(rows: seq<RxRow>, canId: nat): Option<nat> {
    if rows == [] then None else if rows[0].canId == canId then Some(rows[0].hrh) else Hoh(rows[1..], canId)
  }

  /** The channel a node hands a frame with this identifier to. */
  function ChannelFor(node: T.NodeId, canId: nat): Option<nat> {
    var hoh := Hoh(RxRows(node), canId);
    if hoh.None? then None
    else
      var row := FirstRx(RxRows(node), hoh.value, canId);
      if row.None? then None else Some(row.value.canTpRxPduId)
  }

  /** The identifier under which an end's frames go on the bus. */
  function IdOf(e: T.EndId): (id: nat)
    ensures id == [0x501, 0x601, 0x500, 0x600][e]
  {
    assert TxRows(0)[1..] == [TxRow(1, 1, 0x601, 0)];
    FirstTx(TxRows(T.NodeOf(e)), T.ChannelOf(e)).value.canId
  }

  /** The wiring behind TransportSystem: what an end sends reaches its peer's channel, and no other
      channel of any node; and the driver confirms it under the handle of the very channel that sent it. */
  lemma Wiring(e: T.EndId)
    ensures ChannelFor(T.NodeOf(T.Peer(e)), IdOf(e)) == Some(T.ChannelOf(T.Peer(e)))
    ensures forall node: T.NodeId :: ChannelFor(node, IdOf(e)).Some? ==> node == T.NodeOf(T.Peer(e))
    ensures FirstTx(TxRows(T.NodeOf(e)), T.ChannelOf(e)).value.canTpTxPduId == T.ChannelOf(e)
    ensures FirstTx(TxRows(T.NodeOf(e)), T.ChannelOf(e)).value.hth == 0
  {}

  // ---------------------------------------------------------------------------------------------
  // Frame lengths.

  /** Can_ConvertLengthToDlc. */
  function LengthToDlc(length: nat): (dlc: nat)
    ensures dlc < 16
  {
    if length <= 8 then length
    else if length <= 12 then 9
    else if length <= 16 then 10
    else if length <= 20 then 11
    else if length <= 24 then 12
    else if length <= 32 then 13
    else if length <= 48 then 14
    else 15
  }

  const DLC_LENGTHS: seq<nat> := [0, 1, 2, 3, 4, 5, 6, 7, 8, 12, 16, 20, 24, 32, 48, 64]

  /** Can_ConvertDlcToLength. */
  function DlcToLength(dlc: nat): nat {
    if dlc < |DLC_LENGTHS| then DLC_LENGTHS[dlc] else 0
  }

  /** The code chosen for a length is the smallest that can carry it, and the round trip is exact for
      the lengths CAN FD has. */
  lemma SmallestDlc(length: nat)
    requires length <= 64
    ensures length <= DlcToLength(LengthToDlc(length)) <= 64
    ensures forall dlc :: 0 <= dlc < LengthToDlc(length) ==> DlcToLength(dlc) < length
    ensures DlcToLength(LengthToDlc(length)) == length <==> length in DLC_LENGTHS
  {}

  /** Can_Write and Can_ReadRxFifo0: what the peer's CanIf gets for a payload put on the bus. */
  function OverTheBus(payload: seq<byte>): (f: RxFrame)
    requires |payload| <= 64
    ensures f.length == DlcToLength(LengthToDlc(|payload|))
    ensures f.data[..|payload|] == payload && forall i :: |payload| <= i < 64 ==> f.data[i] == UNUSED
  {
    RxFrame(payload + Repeat(UNUSED, 64 - |payload|), DlcToLength(LengthToDlc(|payload|)))
  }

  /** Every frame CanTp builds crosses the bus unchanged and at full length. */
  lemma FullFramesCross(f: Frame)
    ensures OverTheBus(f) == RxFrame(f, FRAME_LENGTH)
  {}

  // ---------------------------------------------------------------------------------------------
  // Short frames.

  ghost predicate SameFrame(a: Frame, b: Frame, length: nat) {
    forall i :: 0 <= i < 64 && i < length ==> a[i] == b[i]
  }

  /** A frame that the handler of consecutive frames takes as the next one. */
  predicate Awaited(rx: Rx, f: Frame, length: nat) {
    rx.state.Receiving? && length >= 1 && PciType(f) == PCI_CF && PciLow(f) == rx.expectedSn
  }

  /** Where the code checks the length itself, or takes no data, what lies beyond it does not matter. */
  lemma PaddingIgnored(rx: Rx, config: RxConfig, a: Frame, b: Frame, length: nat)
    requires RxConfigValid(config) && RxValid(rx, config) && SameFrame(a, b, length)
    requires !Awaited(rx, a, length)
    ensures Receive(rx, config, a, length) == Receive(rx, config, b, length)
  {
    if length > 0 {
      assert a[0] == b[0];
      if length >= 2 {
        assert a[1] == b[1];
        if PciType(a) == PCI_SF && PciLength(a) <= SF_MAX && PciLength(a) + 2 <= length {
          assert a[2..2 + PciLength(a)] == b[2..2 + PciLength(a)];
        }
        if length >= 64 {
          assert a == b;
        }
      }
    }
  }

  /** A consecutive frame that covers its share is read only within its length. */
  lemma ShareCovered(rx: Rx, config: RxConfig, a: Frame, b: Frame, length: nat)
    requires RxConfigValid(config) && RxValid(rx, config) && SameFrame(a, b, length)
    requires Awaited(rx, a, length) && CfShare(rx) < length
    ensures Receive(rx, config, a, length) == Receive(rx, config, b, length)
  {
    assert a[0] == b[0];
    assert a[1..1 + CfShare(rx)] == b[1..1 + CfShare(rx)];
  }

  /** What an awaited consecutive frame writes: its share, wherever the reception goes on. */
  lemma ShareWritten(rx: Rx, config: RxConfig, f: Frame, length: nat, i: nat)
    requires RxConfigValid(config) && RxValid(rx, config) && Awaited(rx, f, length) && i < CfShare(rx)
    ensures var r := Receive(rx, config, f, length);
            if rx.receivedLength + CfShare(rx) == rx.totalLength then
              r.delivered.Some? && |r.delivered.value.sdu| == rx.totalLength
              && r.delivered.value.sdu[rx.receivedLength + i] == f[1 + i]
            else
              |r.rx.buffer| == BUFFER_SIZE && r.rx.buffer[rx.receivedLength + i] == f[1 + i]
  {
    hide Overwrite;
    OverwrittenAt(rx.buffer, rx.receivedLength, f[1..1 + CfShare(rx)], i);
  }

  lemma OverwrittenAt(dst: seq<byte>, at: nat, src: seq<byte>, i: nat)
    requires at + |src| <= |dst| && i < |src|
    ensures Overwrite(dst, at, src)[at + i] == src[i]
  {}

  /** Exactly when the bytes beyond the length of a received frame do not matter: unless it is the
      consecutive frame being waited for and does not cover its share, a test the code lacks. */
  lemma PaddingIgnoredIff(rx: Rx, config: RxConfig, a: Frame, length: nat)
    requires RxConfigValid(config) && RxValid(rx, config)
    ensures (forall b: Frame :: SameFrame(a, b, length) ==> Receive(rx, config, b, length) == Receive(rx, config, a, length))
            <==> (Awaited(rx, a, length) ==> CfShare(rx) < length)
  {
    hide Receive;
    if Awaited(rx, a, length) && length <= CfShare(rx) {
      var b: Frame := a[length := if a[length] == UNUSED then 0 else UNUSED];
      assert SameFrame(a, b, length) && Awaited(rx, b, length);
      ShareWritten(rx, config, a, length, length - 1);
      ShareWritten(rx, config, b, length, length - 1);
      assert Receive(rx, config, b, length) != Receive(rx, config, a, length);
    } else {
      forall b: Frame | SameFrame(a, b, length)
        ensures Receive(rx, config, b, length) == Receive(rx, config, a, length)
      {
        if Awaited(rx, a, length) {
          ShareCovered(rx, config, a, b, length);
        } else {
          PaddingIgnored(rx, config, a, b, length);
        }
      }
    }
  }

  /** What the short frame leaves in the SDU is the driver's padding. */
  lemma ShortConsecutiveFramePadded(rx: Rx, config: RxConfig, payload: seq<byte>, i: nat)
    requires RxConfigValid(config) && RxValid(rx, config)
    requires 1 <= |payload| <= i + 1 && rx.state.Receiving? && i < CfShare(rx)
    requires payload[0] / 16 == PCI_CF && payload[0] % 16 == rx.expectedSn
    ensures var f := OverTheBus(payload);
            var r := Receive(rx, config, f.data, f.length);
            if rx.receivedLength + CfShare(rx) == rx.totalLength then
              r.delivered.Some? && |r.delivered.value.sdu| == rx.totalLength
              && r.delivered.value.sdu[rx.receivedLength + i] == UNUSED
            else
              |r.rx.buffer| == BUFFER_SIZE && r.rx.buffer[rx.receivedLength + i] == UNUSED
  {
    hide Receive;
    var f := OverTheBus(payload);
    ShareWritten(rx, config, f.data, f.length, i);
  }
}
