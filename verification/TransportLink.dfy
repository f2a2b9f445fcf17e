/** One direction of a transport connection: the sending side of one end, the frames on the way,
    and the receiving side of the other end. The invariant `Link` says that whatever is on the way,
    followed by what the sender still has to send, completes the receiver's state to exactly the
    SDUs accepted for sending. Every handler of either end keeps it, whatever CanIf answers. */
module TransportLink {

  import opened Bytes
  import opened CanTpModel
  import opened Segmentation

  /** One CanTp channel pair of one node with what its surroundings have seen of it: the frames it
      has put on the bus that the peer has not read, the SDUs CanTp_Transmit answered E_OK for, the
      SDUs passed to PduR_CanTpRxIndication, the results passed to PduR_CanTpTxConfirmation, and
      the number of single frames CanIf refused. */
  datatype End = End(
    tx: Tx, rx: Rx, unread: seq<Frame>,
    accepted: seq<seq<byte>>, delivered: seq<seq<byte>>, confirmed: seq<bool>, refusedSf: nat)

  const START := End(TX_RESET, RX_RESET, [], [], [], [], 0)

  /** An end after a step, and the frame it handed to the driver, if the driver took it. */
  datatype StepResult = StepResult(end: End, emitted: Option<Frame>)

  /** A frame handed to CanIf reaches the bus if and only if CanIf accepts it. */
  function Emit(end: End, frame: Option<Frame>, accept: bool): StepResult {
    if frame.Some? && accept then
      StepResult(end.(unread := end.unread + [frame.value]), frame)
    else
      StepResult(end, None)
  }

  function RequestFrame(request: Option<Request>): Option<Frame> {
    if request.Some? then Some(request.value.frame) else None
  }

  function Confirmed(confirmation: Option<Confirmation>): seq<bool> {
    if confirmation.Some? then [confirmation.value.ok] else []
  }

  function SendStep(end: End, config: TxConfig, sdu: seq<byte>, accept: bool): StepResult
    requires TxValid(end.tx)
  {
    var r := Transmit(end.tx, config, sdu, accept);
    var refused := r.request.Some? && !accept && |sdu| <= SF_MAX;
    Emit(
      end.(tx := r.tx,
           accepted := end.accepted + if r.ok then [sdu] else [],
           refusedSf := end.refusedSf + if refused then 1 else 0),
      RequestFrame(r.request), accept)
  }

  function PollStep(end: End, accept: bool): StepResult
    requires TxValid(end.tx)
  {
    var r := Poll(end.tx, accept);
    Emit(end.(tx := r.tx, confirmed := end.confirmed + Confirmed(r.confirmed)),
         RequestFrame(r.request), accept)
  }

  function ConfirmStep(end: End): StepResult
    requires TxValid(end.tx)
  {
    var r := Confirm(end.tx, true);
    StepResult(end.(tx := r.tx, confirmed := end.confirmed + Confirmed(r.confirmed)), None)
  }

  /** CanTp_RxIndication with a full frame: flow control goes to the transmit channel, every other
      frame to the receive channel, whose flow control reply may or may not be accepted. */
  function ReadStep(end: End, config: RxConfig, f: Frame, accept: bool): StepResult
    requires TxValid(end.tx) && RxValid(end.rx, config)
  {
    if PciType(f) == PCI_FC then
      var r := FlowControl(end.tx, f, FRAME_LENGTH);
      StepResult(end.(tx := r.tx, confirmed := end.confirmed + Confirmed(r.confirmed)), None)
    else
      var r := Receive(end.rx, config, f, FRAME_LENGTH);
      Emit(
        end.(rx := r.rx, delivered := end.delivered + Delivered(r.delivered)),
        if r.reply.Some? then Some(FcFrame(r.reply.value, config.blockSize, config.stMin)) else None,
        accept)
  }

  // ---------------------------------------------------------------------------------------------
  // The invariant of one direction.

  /** The consecutive frames the sender still has to send. */
  function Remaining(tx: Tx): seq<Frame>
    requires TxValid(tx)
  {
    if tx.state.TxIdle? || tx.totalLength == 0 then
      []
    else
      Cfs(tx.buffer[..tx.totalLength], tx.transmittedLength, tx.nextSn)
  }

  function Future(s: End, r: End, config: RxConfig): Run
    requires TxValid(s.tx) && RxConfigValid(config) && RxValid(r.rx, config)
  {
    RunRx(r.rx, config, s.unread + Remaining(s.tx))
  }

  ghost predicate OnlyCts(frames: seq<Frame>) {
    forall i :: 0 <= i < |frames| && PciType(frames[i]) == PCI_FC ==> PciLow(frames[i]) == FC_CTS
  }

  ghost predicate Link(s: End, r: End, config: RxConfig) {
    && TxValid(s.tx)
    && RxConfigValid(config) && config.rxBufferSize == BUFFER_SIZE && RxValid(r.rx, config)
    && OnlyCts(r.unread)
    && var future := Future(s, r, config);
       && future.rx.state.RxIdle?
       && future.clean
       && s.accepted == r.delivered + future.delivered
  }

  // ---------------------------------------------------------------------------------------------
  // Every step of the sending end keeps it.

  lemma TransmitAppendsSegments(tx: Tx, config: TxConfig, sdu: seq<byte>, accept: bool)
    requires TxValid(tx)
    ensures var r := Transmit(tx, config, sdu, accept);
            && (r.ok ==> accept && r.request.Some? && tx.state.TxIdle? && 1 <= |sdu| <= BUFFER_SIZE
                         && [r.request.value.frame] + Remaining(r.tx) == Segment(sdu))
            && (!r.ok ==> Remaining(r.tx) == Remaining(tx) && (accept ==> r.request.None?))
  {
    var r := Transmit(tx, config, sdu, accept);
    if r.ok && |sdu| > SF_MAX {
      assert r.tx.buffer[..|sdu|] == sdu;
    }
  }

  lemma IdleRemainsNothing(tx: Tx)
    requires TxValid(tx) && tx.state.TxIdle?
    ensures Remaining(tx) == []
  {}

  lemma SendKeepsLink(s: End, r: End, config: RxConfig, txConfig: TxConfig, sdu: seq<byte>, accept: bool)
    requires Link(s, r, config)
    ensures Link(SendStep(s, txConfig, sdu, accept).end, r, config)
  {
    hide Transmit, Receive, RunRx, Segment, TxValid, RxValid, Remaining;
    TransmitAppendsSegments(s.tx, txConfig, sdu, accept);
    var sent := Transmit(s.tx, txConfig, sdu, accept);
    var next := SendStep(s, txConfig, sdu, accept).end;
    if sent.ok {
      IdleRemainsNothing(s.tx);
      assert s.unread + Remaining(s.tx) == s.unread;
      assert next.unread + Remaining(next.tx) == s.unread + Segment(sdu);
      RunConcat(r.rx, config, s.unread, Segment(sdu));
      SegmentationRoundTrip(Future(s, r, config).rx, config, sdu);
    }
  }

  lemma PollSendsNext(tx: Tx, accept: bool)
    requires TxValid(tx)
    ensures var r := Poll(tx, accept);
            && (accept && r.request.Some? ==> [r.request.value.frame] + Remaining(r.tx) == Remaining(tx))
            && (!(accept && r.request.Some?) ==> Remaining(r.tx) == Remaining(tx))
            && r.confirmed.None?
  {
    hide CfFrame;
    if tx.state.SendCf? && !(tx.blockSize != 0 && tx.blockCounter >= tx.blockSize) {
      var from, n := tx.transmittedLength, Min(tx.totalLength - tx.transmittedLength, CF_DATA);
      SliceOfSlice(tx.buffer, 0, tx.totalLength, from, from + n);
      assert tx.buffer[0..tx.totalLength] == tx.buffer[..tx.totalLength];
      var f := CfFrame(tx.nextSn, tx.buffer[from..from + n]);
      assert Remaining(tx) == [f] + Cfs(tx.buffer[..tx.totalLength], from + n, (tx.nextSn + 1) % 16);
    }
  }

  lemma PollKeepsLink(s: End, r: End, config: RxConfig, accept: bool)
    requires Link(s, r, config)
    ensures Link(PollStep(s, accept).end, r, config)
  {
    hide Poll, RunRx, Remaining;
    PollSendsNext(s.tx, accept);
    var sent := Poll(s.tx, accept);
    var next := PollStep(s, accept).end;
    if accept && sent.request.Some? {
      assert next.unread + Remaining(next.tx) == s.unread + ([sent.request.value.frame] + Remaining(next.tx));
    }
  }

  lemma ConfirmKeepsLink(s: End, r: End, config: RxConfig)
    requires Link(s, r, config)
    ensures Link(ConfirmStep(s).end, r, config)
  {}

  /** Reading a frame at the sending end: a clear-to-send moves the transmit channel but not what it
      has to send, and a reply to a data frame slips a flow control frame into the stream, which the
      receiver at the far end does not notice. */
  lemma ReadKeepsOutgoing(s: End, r: End, config: RxConfig, own: RxConfig, f: Frame, accept: bool)
    requires Link(s, r, config) && RxValid(s.rx, own)
    requires PciType(f) == PCI_FC ==> PciLow(f) == FC_CTS
    ensures Link(ReadStep(s, own, f, accept).end, r, config)
  {
    hide RunRx, Receive;
    var next := ReadStep(s, own, f, accept).end;
    if PciType(f) == PCI_FC {
      assert Remaining(next.tx) == Remaining(s.tx);
    } else {
      assert next.tx == s.tx && next.accepted == s.accepted;
      var reply := Receive(s.rx, own, f, FRAME_LENGTH).reply;
      if reply.Some? && accept {
        FcRoundTrip(reply.value % 16, own.blockSize, own.stMin);
        FlowControlIgnored(r.rx, config, s.unread, FcFrame(reply.value, own.blockSize, own.stMin), Remaining(s.tx));
      }
    }
  }

  // ---------------------------------------------------------------------------------------------
  // Every step of the receiving end keeps it.

  /** Reading the next frame on the way: the frame moves from the future into the past. */
  lemma ReadKeepsIncoming(s: End, r: End, config: RxConfig, accept: bool)
    requires Link(s, r, config) && TxValid(r.tx)
    requires s.unread != []
    ensures Link(s.(unread := s.unread[1..]), ReadStep(r, config, s.unread[0], accept).end, config)
    ensures var f := s.unread[0];
            PciType(f) != PCI_FC ==> IsClean(Receive(r.rx, config, f, FRAME_LENGTH).reply)
  {
    hide Receive, Remaining, FlowControl;
    var f, rest := s.unread[0], s.unread[1..];
    assert s.unread + Remaining(s.tx) == [f] + (rest + Remaining(s.tx));
    var next := ReadStep(r, config, f, accept).end;
    if PciType(f) == PCI_FC {
      FlowControlFirst(r.rx, config, f, rest + Remaining(s.tx));
    } else {
      ReadAppendsCts(r, config, f, accept);
      assert ([f] + (rest + Remaining(s.tx)))[1..] == rest + Remaining(s.tx);
    }
  }

  lemma ReadAppendsCts(r: End, config: RxConfig, f: Frame, accept: bool)
    requires TxValid(r.tx) && RxConfigValid(config) && RxValid(r.rx, config)
    requires PciType(f) != PCI_FC && IsClean(Receive(r.rx, config, f, FRAME_LENGTH).reply)
    requires OnlyCts(r.unread)
    ensures OnlyCts(ReadStep(r, config, f, accept).end.unread)
  {}

  /** Steps of the receiving end that read nothing put no flow control on the bus. */
  lemma ReceiverMayTransmit(s: End, r: End, config: RxConfig, r': End)
    requires Link(s, r, config)
    requires r'.rx == r.rx && r'.delivered == r.delivered
    requires r'.unread == r.unread || exists f :: PciType(f) != PCI_FC && r'.unread == r.unread + [f]
    ensures Link(s, r', config)
  {}
}
