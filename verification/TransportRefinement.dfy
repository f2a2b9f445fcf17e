/** The nodes as they run refine the network model: a node that stands for its part of a network state
    stands, after any of its entry points, for its part of the state the model steps to. */
module TransportRefinement {

  import opened Bytes
  import opened CanTpModel
  import opened CanTpRuntime
  import opened CanTpNode
  import opened TransportLink
  import opened TransportSystem

  function ChannelCount(n: NodeId): nat {
    if n == 0 then 2 else 1
  }

  function EndAt(n: NodeId, i: nat): (e: EndId)
    requires i < ChannelCount(n)
    ensures NodeOf(e) == n && ChannelOf(e) == i
  {
    if n == 0 then i else n + 1
  }

  /** The tables of a node are those of the model. */
  ghost predicate Configured(node: CanTp, n: NodeId, b: BlockSizes) {
    && |node.tx| == |node.rx| == |node.txConfig| == |node.rxConfig| == ChannelCount(n)
    && forall i :: 0 <= i < ChannelCount(n) ==>
         node.txConfig[i] == TxConfigOf(EndAt(n, i)) && node.rxConfig[i] == RxConfigOf(EndAt(n, i), b)
  }

  /** The driver's pending frame, the one it took last, is the one in the node's slot. */
  ghost predicate SameSlot(isPending: bool, bus: seq<Request>, n: NodeId, slot: Option<Pending>) {
    && (isPending <==> slot.Some?)
    && (slot.Some? ==>
          && NodeOf(slot.value.owner) == n && bus != []
          && bus[|bus| - 1] == Request(ChannelOf(slot.value.owner), slot.value.frame))
  }

  ghost predicate SameTx(n: NodeId, txs: seq<Tx>, ends: seq<End>) {
    && |txs| == ChannelCount(n) && |ends| == 4
    && forall i :: 0 <= i < ChannelCount(n) ==> txs[i] == ends[EndAt(n, i)].tx
  }

  ghost predicate SameRx(n: NodeId, rxs: seq<Rx>, ends: seq<End>) {
    && |rxs| == ChannelCount(n) && |ends| == 4
    && forall i :: 0 <= i < ChannelCount(n) ==> rxs[i] == ends[EndAt(n, i)].rx
  }

  ghost predicate Represents(node: CanTp, n: NodeId, s: System, b: BlockSizes)
    reads *
  {
    && node.Valid() && Configured(node, n, b) && |s.slots| == 3
    && SameTx(n, node.TxStates(), s.ends) && SameRx(n, node.RxStates(), s.ends)
    && node.can.started && SameSlot(node.can.isPending, node.can.bus, n, s.slots[n])
  }

  // ---------------------------------------------------------------------------------------------
  // What a model step of end `e` leaves at its node.

  lemma AfterApply(n: NodeId, txs: seq<Tx>, rxs: seq<Rx>, s: System, e: EndId, r: StepResult)
    requires NodeOf(e) == n && |s.slots| == 3 && SameTx(n, txs, s.ends) && SameRx(n, rxs, s.ends)
    ensures var t, c := Apply(s, e, r), ChannelOf(e);
            && c < |txs| && c < |rxs| && txs[c] == s.ends[e].tx && rxs[c] == s.ends[e].rx
            && t.ends[e] == r.end
            && SameTx(n, txs[c := r.end.tx], t.ends) && SameRx(n, rxs[c := r.end.rx], t.ends)
            && (r.end.tx == s.ends[e].tx ==> SameTx(n, txs, t.ends))
            && (r.end.rx == s.ends[e].rx ==> SameRx(n, rxs, t.ends))
            && t.slots[n] == if r.emitted.Some? then Some(Pending(e, r.emitted.value)) else s.slots[n]
  {}

  lemma SlotAfter(isPending: bool, bus: seq<Request>, n: NodeId, slot: Option<Pending>, e: EndId, request: Option<Request>, accept: bool)
    requires SameSlot(isPending, bus, n, slot) && NodeOf(e) == n
    requires request.Some? ==> request.value.canIfTxPduId == ChannelOf(e)
    ensures SameSlot(isPending || (request.Some? && accept), bus + Queued(request, accept), n,
                     if request.Some? && accept then Some(Pending(e, request.value.frame)) else slot)
  {
    assert bus + [] == bus;
  }

  lemma ConfigAt(node: CanTp, n: NodeId, b: BlockSizes, e: EndId)
    requires Configured(node, n, b) && NodeOf(e) == n
    ensures ChannelOf(e) < ChannelCount(n) && EndAt(n, ChannelOf(e)) == e
    ensures node.txConfig[ChannelOf(e)] == TxConfigOf(e) && node.rxConfig[ChannelOf(e)] == RxConfigOf(e, b)
  {}

  lemma AcceptsAlike(node: CanTp, n: NodeId, s: System, b: BlockSizes, e: EndId)
    requires Represents(node, n, s, b) && NodeOf(e) == n
    ensures node.can.Accepts() == Accepts(s, e, node.can.hardwareOk)
  {
    hide CanTp.Valid, CanTp.TxStates, CanTp.RxStates, SameTx, SameRx, Configured;
  }

  lemma Requested(end: End, config: TxConfig, sdu: seq<byte>, accept: bool)
    requires TxValid(end.tx)
    ensures var r, m := SendStep(end, config, sdu, accept), CanTpModel.Transmit(end.tx, config, sdu, accept);
            && r.end.tx == m.tx && r.end.rx == end.rx
            && r.end.accepted == end.accepted + (if m.ok then [sdu] else [])
            && r.emitted == (if m.request.Some? && accept then Some(m.request.value.frame) else None)
            && (m.request.Some? ==> m.request.value.canIfTxPduId == config.canIfTxNpduId)
  {}

  /** CanTp_Transmit is the model's request. */
  method TransmitRefines(node: CanTp, ghost n: NodeId, ghost s: System, ghost b: BlockSizes, e: EndId, sdu: seq<byte>)
    returns (ok: bool, ghost t: System)
    requires Ready(s, b) && Represents(node, n, s, b) && NodeOf(e) == n
    modifies node.TxFootprint(), node.can`isPending, node.can`swPduHandle, node.can`bus
    ensures t == Step(s, b, Send(e, sdu, node.can.hardwareOk))
    ensures Represents(node, n, t, b)
    ensures t.ends[e].accepted == s.ends[e].accepted + if ok then [sdu] else []
  {
    hide CanTpModel.Transmit, SendStep, Apply, SameSlot, Queued, TxValid, RxValid, SameTx, SameRx, CanTp.Valid, CanTp.TxStates, CanTp.RxStates, CanTp.TxFootprint;
    ghost var accept := Accepts(s, e, node.can.hardwareOk);
    AcceptsAlike(node, n, s, b, e);
    Requested(s.ends[e], TxConfigOf(e), sdu, accept);
    AfterApply(n, node.TxStates(), node.RxStates(), s, e, SendStep(s.ends[e], TxConfigOf(e), sdu, accept));
    ConfigAt(node, n, b, e);
    node.Apart();
    t := Step(s, b, Send(e, sdu, node.can.hardwareOk));
    ghost var m := CanTpModel.Transmit(s.ends[e].tx, TxConfigOf(e), sdu, accept);
    SlotAfter(node.can.isPending, node.can.bus, n, s.slots[n], e, m.request, accept);
    ghost var channel;
    ok, channel := node.Transmit(ChannelOf(e), sdu);
    assert channel == Some(ChannelOf(e));
  }

  // ---------------------------------------------------------------------------------------------
  // Confirmations.

  function Oks(cs: seq<Confirmation>): seq<bool> {
    seq(|cs|, i requires 0 <= i < |cs| => cs[i].ok)
  }

  /** Can_MainFunction_Write with the frame sent. */
  method ReleaseSlot(node: CanTp) returns (confirmed: Option<nat>)
    requires node.Valid() && node.can.started
    modifies node.can`isPending
    ensures node.Valid() && node.TxStates() == old(node.TxStates()) && node.RxStates() == old(node.RxStates())
    ensures confirmed == if old(node.can.isPending) then Some(node.can.swPduHandle) else None
    ensures !node.can.isPending
  {
    hide TxValid, RxValid, TxRuntime.Abs, TxRuntime.Valid, RxRuntime.Abs, RxRuntime.Valid;
    confirmed := node.can.MainFunctionWrite(false);
  }

  lemma ConfirmedEnd(end: End)
    requires TxValid(end.tx)
    ensures var r, m := ConfirmStep(end), Confirm(end.tx, true);
            && r.end.tx == m.tx && r.end.rx == end.rx && r.emitted == None
            && r.end.confirmed == end.confirmed + Oks(if m.confirmed.Some? then [m.confirmed.value] else [])
  {}

  lemma PendingHandle(can: CanDriver, n: NodeId, slot: Option<Pending>)
    requires can.Consistent() && SameSlot(can.isPending, can.bus, n, slot) && slot.Some?
    ensures can.isPending && can.swPduHandle == ChannelOf(slot.value.owner) && NodeOf(slot.value.owner) == n
  {}

  /** Can_MainFunction_Write and the confirmation it leads to are the model's confirmation. */
  method ConfirmRefines(node: CanTp, ghost n: NodeId, ghost s: System, ghost b: BlockSizes) returns (ghost t: System)
    requires Ready(s, b) && Represents(node, n, s, b)
    modifies node`confirmations, node.TxFootprint(), node.can`isPending
    ensures t == Step(s, b, DriverConfirms(n))
    ensures Represents(node, n, t, b)
    ensures s.slots[n].Some? ==>
              var e := s.slots[n].value.owner;
              old(node.confirmations) <= node.confirmations
              && t.ends[e].confirmed == s.ends[e].confirmed + Oks(node.confirmations[|old(node.confirmations)|..])
  {
    hide Confirm, ConfirmStep, Apply, TxValid, RxValid, SameTx, SameRx, Oks, CanTp.Valid, CanTp.TxStates, CanTp.RxStates, CanTp.TxFootprint;
    t := Step(s, b, DriverConfirms(n));
    node.Apart();
    if s.slots[n].Some? {
      ghost var e := s.slots[n].value.owner;
      DriverConsistent(node);
      PendingHandle(node.can, n, s.slots[n]);
      ConfirmedEnd(s.ends[e]);
      AfterApply(n, node.TxStates(), node.RxStates(), s.(slots := s.slots[n := None]), e, ConfirmStep(s.ends[e]));
      ConfigAt(node, n, b, e);
    }
    var handle := ReleaseSlot(node);
    if handle.Some? {
      ghost var channel := node.TxConfirmation(handle.value, true);
      assert channel == Some(handle.value);
    }
  }

  lemma DriverConsistent(node: CanTp)
    requires node.Valid()
    ensures node.can.Consistent()
  {}

  // ---------------------------------------------------------------------------------------------
  // Frames read.

  lemma FlowControlRead(end: End, config: RxConfig, f: Frame, accept: bool)
    requires TxValid(end.tx) && RxValid(end.rx, config) && PciType(f) == PCI_FC
    ensures var r, m := ReadStep(end, config, f, accept), FlowControl(end.tx, f, FRAME_LENGTH);
            && r.end.tx == m.tx && r.end.rx == end.rx && r.emitted == None && r.end.delivered == end.delivered
            && r.end.confirmed == end.confirmed + Oks(if m.confirmed.Some? then [m.confirmed.value] else [])
            && (!end.tx.state.WaitFc? ==> m.tx == end.tx && m.confirmed == None)
  {}

  lemma DataRead(end: End, config: RxConfig, f: Frame, accept: bool)
    requires TxValid(end.tx) && RxValid(end.rx, config) && PciType(f) != PCI_FC
    ensures var r, m := ReadStep(end, config, f, accept), CanTpModel.Receive(end.rx, config, f, FRAME_LENGTH);
            && r.end.tx == end.tx && r.end.rx == m.rx && r.end.confirmed == end.confirmed
            && r.end.delivered == end.delivered + (if m.delivered.Some? then [m.delivered.value.sdu] else [])
            && r.emitted == (if m.reply.Some? && accept then Some(FcFrame(m.reply.value, config.blockSize, config.stMin)) else None)
  {}

  function Sdus(ds: seq<Delivery>): seq<seq<byte>> {
    seq(|ds|, i requires 0 <= i < |ds| => ds[i].sdu)
  }

  /** All given to PduR under this handle. */
  predicate OnlyUnder(ds: seq<Delivery>, id: nat) {
    forall i :: 0 <= i < |ds| ==> ds[i].pduRRxPduId == id
  }

  lemma DeliveredUnder(rx: Rx, config: RxConfig, f: Frame)
    requires RxValid(rx, config)
    ensures var d := CanTpModel.Receive(rx, config, f, FRAME_LENGTH).delivered;
            d.Some? ==> d.value.pduRRxPduId == config.pduRRxPduId
  {}

  lemma FewerUnreadAlike(n: NodeId, txs: seq<Tx>, rxs: seq<Rx>, s: System, p: EndId)
    requires SameTx(n, txs, s.ends) && SameRx(n, rxs, s.ends) && s.ends[p].unread != []
    ensures var ends := s.ends[p := s.ends[p].(unread := s.ends[p].unread[1..])];
            SameTx(n, txs, ends) && SameRx(n, rxs, ends)
  {}

  lemma AfterRead(n: NodeId, txs: seq<Tx>, rxs: seq<Rx>, s: System, b: BlockSizes, e: EndId, hwOk: bool)
    requires Ready(s, b) && NodeOf(e) == n && SameTx(n, txs, s.ends) && SameRx(n, rxs, s.ends)
    requires s.ends[Peer(e)].unread != []
    ensures var t, c := Step(s, b, ReadFrame(e, hwOk)), ChannelOf(e);
            var r := ReadStep(s.ends[e], RxConfigOf(e, b), s.ends[Peer(e)].unread[0], Accepts(s, e, hwOk));
            && c < |txs| && c < |rxs| && txs[c] == s.ends[e].tx && rxs[c] == s.ends[e].rx && t.ends[e] == r.end
            && SameTx(n, txs[c := r.end.tx], t.ends) && SameRx(n, rxs[c := r.end.rx], t.ends)
            && (r.end.tx == s.ends[e].tx ==> SameTx(n, txs, t.ends))
            && (r.end.rx == s.ends[e].rx ==> SameRx(n, rxs, t.ends))
            && t.slots[n] == if r.emitted.Some? then Some(Pending(e, r.emitted.value)) else s.slots[n]
  {
    hide ReadStep, Apply, SameTx, SameRx;
    var p := Peer(e);
    var taken := s.(ends := s.ends[p := s.ends[p].(unread := s.ends[p].unread[1..])]);
    FewerUnreadAlike(n, txs, rxs, s, p);
    AfterApply(n, txs, rxs, taken, e,
               ReadStep(s.ends[e], RxConfigOf(e, b), s.ends[p].unread[0], Accepts(s, e, hwOk)));
  }

  /** CanTp_RxIndication with a flow control frame that is next on the way. */
  method FlowControlRefines(node: CanTp, ghost n: NodeId, ghost s: System, ghost b: BlockSizes, e: EndId, f: Frame)
    returns (ghost t: System)
    requires Ready(s, b) && Represents(node, n, s, b) && NodeOf(e) == n
    requires s.ends[Peer(e)].unread != [] && f == s.ends[Peer(e)].unread[0] && PciType(f) == PCI_FC
    modifies node, node.TxFootprint(), node.RxFootprint(), node.can`isPending, node.can`swPduHandle, node.can`bus
    ensures t == Step(s, b, ReadFrame(e, node.can.hardwareOk))
    ensures Represents(node, n, t, b)
    ensures t.ends[e].delivered == s.ends[e].delivered && node.indications == old(node.indications)
    ensures old(node.confirmations) <= node.confirmations
            && t.ends[e].confirmed == s.ends[e].confirmed + Oks(node.confirmations[|old(node.confirmations)|..])
  {
    hide CanTpModel.Receive, FlowControl, ReadStep, Step, SameSlot, Queued, TxValid, RxValid, SameTx, SameRx,
         CanTp.Valid, CanTp.TxStates, CanTp.RxStates, CanTp.TxFootprint, CanTp.RxFootprint, Oks;
    ghost var accept, c := Accepts(s, e, node.can.hardwareOk), ChannelOf(e);
    ghost var config := RxConfigOf(e, b);
    AcceptsAlike(node, n, s, b, e);
    AfterRead(n, node.TxStates(), node.RxStates(), s, b, e, node.can.hardwareOk);
    ConfigAt(node, n, b, e);
    node.Apart();
    node.BusyUnderOwnRow(c);
    FlowControlRead(s.ends[e], config, f, accept);
    NewOks(node.confirmations, FlowControl(s.ends[e].tx, f, FRAME_LENGTH).confirmed);
    assert node.confirmations + [] == node.confirmations;
    t := Step(s, b, ReadFrame(e, node.can.hardwareOk));
    ghost var channel, released := node.RxIndication(ChannelOf(e), f, FRAME_LENGTH);
    assert channel == Some(c);
  }

  /** CanTp_RxIndication with a data frame that is next on the way. */
  method DataRefines(node: CanTp, ghost n: NodeId, ghost s: System, ghost b: BlockSizes, e: EndId, f: Frame)
    returns (ghost t: System)
    requires Ready(s, b) && Represents(node, n, s, b) && NodeOf(e) == n
    requires s.ends[Peer(e)].unread != [] && f == s.ends[Peer(e)].unread[0] && PciType(f) != PCI_FC
    modifies node, node.TxFootprint(), node.RxFootprint(), node.can`isPending, node.can`swPduHandle, node.can`bus
    ensures t == Step(s, b, ReadFrame(e, node.can.hardwareOk))
    ensures Represents(node, n, t, b)
    ensures old(node.indications) <= node.indications
            && t.ends[e].delivered == s.ends[e].delivered + Sdus(node.indications[|old(node.indications)|..])
    ensures OnlyUnder(node.indications[|old(node.indications)|..], ChannelOf(e))
    ensures t.ends[e].confirmed == s.ends[e].confirmed && node.confirmations == old(node.confirmations)
  {
    hide CanTpModel.Receive, FlowControl, ReadStep, Step, SameSlot, Queued, TxValid, RxValid, SameTx, SameRx,
         CanTp.Valid, CanTp.TxStates, CanTp.RxStates, CanTp.TxFootprint, CanTp.RxFootprint, Sdus;
    ghost var accept, c := Accepts(s, e, node.can.hardwareOk), ChannelOf(e);
    ghost var config := RxConfigOf(e, b);
    AcceptsAlike(node, n, s, b, e);
    AfterRead(n, node.TxStates(), node.RxStates(), s, b, e, node.can.hardwareOk);
    ConfigAt(node, n, b, e);
    node.Apart();
    DataRead(s.ends[e], config, f, accept);
    ghost var r := CanTpModel.Receive(s.ends[e].rx, config, f, FRAME_LENGTH);
    SlotAfter(node.can.isPending, node.can.bus, n, s.slots[n], e, node.rx[c].FcRequest(config, r.reply), accept);
    NewSdus(node.indications, r.delivered);
    DeliveredUnder(s.ends[e].rx, config, f);
    t := Step(s, b, ReadFrame(e, node.can.hardwareOk));
    ghost var channel, released := node.RxIndication(ChannelOf(e), f, FRAME_LENGTH);
    assert channel == Some(c);
  }

  /** CanTp_RxIndication with the next frame on the way is the model's read. */
  method ReadRefines(node: CanTp, ghost n: NodeId, ghost s: System, ghost b: BlockSizes, e: EndId, f: Frame)
    returns (ghost t: System)
    requires Ready(s, b) && Represents(node, n, s, b) && NodeOf(e) == n
    requires s.ends[Peer(e)].unread != [] && f == s.ends[Peer(e)].unread[0]
    modifies node, node.TxFootprint(), node.RxFootprint(), node.can`isPending, node.can`swPduHandle, node.can`bus
    ensures t == Step(s, b, ReadFrame(e, node.can.hardwareOk))
    ensures Represents(node, n, t, b)
    ensures old(node.indications) <= node.indications
            && t.ends[e].delivered == s.ends[e].delivered + Sdus(node.indications[|old(node.indications)|..])
            && OnlyUnder(node.indications[|old(node.indications)|..], ChannelOf(e))
    ensures old(node.confirmations) <= node.confirmations
            && t.ends[e].confirmed == s.ends[e].confirmed + Oks(node.confirmations[|old(node.confirmations)|..])
  {
    hide Step, SameTx, SameRx, SameSlot, Configured, CanTp.Valid, CanTp.TxStates, CanTp.RxStates, CanTp.TxFootprint, CanTp.RxFootprint;
    node.Apart();
    if PciType(f) == PCI_FC {
      t := FlowControlRefines(node, n, s, b, e, f);
    } else {
      t := DataRefines(node, n, s, b, e, f);
    }
  }

  lemma NewOks(before: seq<Confirmation>, c: Option<Confirmation>)
    ensures var added := if c.Some? then [c.value] else [];
            before <= before + added && Oks((before + added)[|before|..]) == Oks(added)
  {
    var added := if c.Some? then [c.value] else [];
    assert (before + added)[|before|..] == added;
  }

  lemma NewSdus(before: seq<Delivery>, d: Option<Delivery>)
    ensures var after := before + if d.Some? then [d.value] else [];
            before <= after && Sdus(after[|before|..]) == if d.Some? then [d.value.sdu] else []
  {
    var added := if d.Some? then [d.value] else [];
    assert (before + added)[|before|..] == added;
  }

  // ---------------------------------------------------------------------------------------------
  // The main function.

  lemma PolledEnd(end: End, accept: bool)
    requires TxValid(end.tx)
    ensures var r, m := PollStep(end, accept), Poll(end.tx, accept);
            && r.end.tx == m.tx && r.end.rx == end.rx
            && r.emitted == (if m.request.Some? && accept then Some(m.request.value.frame) else None)
            && m.request == Poll(end.tx, true).request
            && (m.request.Some? ==> !end.tx.state.TxIdle? && m.request.value.canIfTxPduId == end.tx.config.canIfTxNpduId)
  {}

  /** The model's visits of all channels of a node, in table order. */
  ghost function VisitAll(n: NodeId, s: System, b: BlockSizes, hwOk: bool): System
    requires Linked(s, b)
  {
    LinkedIsReady(s, b);
    var first := Step(s, b, MainFunction(EndAt(n, 0), hwOk));
    if n == 0 then
      StepKeepsLinked(s, b, MainFunction(0, hwOk));
      LinkedIsReady(first, b);
      Step(first, b, MainFunction(1, hwOk))
    else
      first
  }

  /** What a node is after one visit, as values. */
  lemma Visited(n: NodeId, txs: seq<Tx>, rxs: seq<Rx>, s: System, b: BlockSizes, k: nat, hwOk: bool,
                isPending: bool, bus: seq<Request>)
    requires Ready(s, b) && k < ChannelCount(n) && SameTx(n, txs, s.ends) && SameRx(n, rxs, s.ends)
    requires SameSlot(isPending, bus, n, s.slots[n])
    requires !s.ends[EndAt(n, k)].tx.state.TxIdle? ==> s.ends[EndAt(n, k)].tx.config == TxConfigOf(EndAt(n, k))
    ensures k < |txs| && TxValid(txs[k])
    ensures var accept, t := !isPending && hwOk, Step(s, b, MainFunction(EndAt(n, k), hwOk));
            var request := Poll(txs[k], true).request;
            && SameTx(n, txs[k := Poll(txs[k], accept).tx], t.ends) && SameRx(n, rxs, t.ends)
            && SameSlot(isPending || (request.Some? && accept), bus + Queued(request, accept), n, t.slots[n])
            && forall e: EndId :: e != EndAt(n, k) ==> t.ends[e].tx == s.ends[e].tx
  {
    var e := EndAt(n, k);
    assert Accepts(s, e, hwOk) == (!isPending && hwOk);
    hide Poll, PollStep, Apply, SameSlot, Queued, TxValid, RxValid, SameTx, SameRx;
    PolledEnd(s.ends[e], Accepts(s, e, hwOk));
    AfterApply(n, txs, rxs, s, e, PollStep(s.ends[e], Accepts(s, e, hwOk)));
    SlotAfter(isPending, bus, n, s.slots[n], e, Poll(s.ends[e].tx, true).request, Accepts(s, e, hwOk));
    OthersUntouched(s, e, PollStep(s.ends[e], Accepts(s, e, hwOk)));
  }

  lemma OthersUntouched(s: System, e: EndId, r: StepResult)
    requires |s.ends| == 4 && |s.slots| == 3
    ensures forall d: EndId :: d != e ==> Apply(s, e, r).ends[d] == s.ends[d]
  {}

  /** CanTp_MainFunction is the model's visits of all its channels. */
  method MainFunctionRefines(node: CanTp, ghost n: NodeId, ghost s: System, ghost b: BlockSizes) returns (ghost t: System)
    requires Linked(s, b) && Ready(s, b) && Represents(node, n, s, b)
    modifies node.TxFootprint(), node.can`isPending, node.can`swPduHandle, node.can`bus
    ensures t == VisitAll(n, s, b, node.can.hardwareOk)
    ensures Represents(node, n, t, b)
  {
    hide Poll, Step, SameSlot, Queued, TxValid, RxValid, SameTx, SameRx, Linked,
         CanTp.Valid, CanTp.TxStates, CanTp.RxStates, CanTp.TxFootprint;
    ghost var txs, rxs, hwOk, free := node.TxStates(), node.RxStates(), node.can.hardwareOk, node.can.Accepts();
    ghost var isPending, bus := node.can.isPending, node.can.bus;
    node.Apart();
    t := VisitAll(n, s, b, hwOk);
    ConfigAt(node, n, b, EndAt(n, 0));
    node.BusyUnderOwnRow(0);
    TxAt(n, txs, s.ends, 0);
    Visited(n, txs, rxs, s, b, 0, hwOk, isPending, bus);
    TurnStart(txs, free);
    ghost var request := Poll(txs[0], true).request;
    if n == 0 {
      ConfigAt(node, n, b, 1);
      node.BusyUnderOwnRow(1);
      TxAt(n, txs, s.ends, 1);
      TurnPasses(txs, 0, free);
      ghost var first := Step(s, b, MainFunction(0, hwOk));
      StepKeepsLinked(s, b, MainFunction(0, hwOk));
      LinkedIsReady(first, b);
      Visited(n, txs[0 := Poll(txs[0], free).tx], rxs, first, b, 1, hwOk,
              isPending || (request.Some? && free), bus + Queued(request, free));
    }
    node.MainFunction();
    AllPolled(n, txs, node.TxStates(), free, isPending, bus, node.can.isPending, node.can.bus);
  }

  /** What the contract of the main function comes to for the one or two channels of a node. */
  lemma AllPolled(n: NodeId, txs: seq<Tx>, after: seq<Tx>, free: bool,
                  isPending: bool, bus: seq<Request>, isPending': bool, bus': seq<Request>)
    requires |txs| == |after| == ChannelCount(n) && forall i :: 0 <= i < |txs| ==> TxValid(txs[i])
    requires forall i :: 0 <= i < |txs| ==> after[i] == Poll(txs[i], TurnOf(txs, i, free)).tx
    requires forall i :: CanTp.Sends(txs, i, free) ==> isPending' && bus' == bus + Queued(Poll(txs[i], true).request, true)
    requires (forall i :: !CanTp.Sends(txs, i, free)) ==> isPending' == isPending && bus' == bus
    ensures var request := Poll(txs[0], true).request;
            var sent, queued := isPending || (request.Some? && free), bus + Queued(request, free);
            if n == 0 then
              var next, turn := Poll(txs[1], true).request, free && request.None?;
              && after == txs[0 := Poll(txs[0], free).tx][1 := Poll(txs[1], turn).tx]
              && isPending' == (sent || (next.Some? && turn)) && bus' == queued + Queued(next, turn)
            else
              && after == txs[0 := Poll(txs[0], free).tx]
              && isPending' == sent && bus' == queued
  {
    PolledPending(n, txs, free, isPending, bus, isPending', bus');
    hide Poll, TxValid, TurnOf, CanTp.Sends, Queued;
    TurnStart(txs, free);
    if n == 0 {
      TurnPasses(txs, 0, free);
      BothReplaced(txs, after);
    } else {
      OneReplaced(txs, after);
    }
  }

  lemma OneReplaced<T>(s: seq<T>, t: seq<T>)
    requires |s| == |t| == 1
    ensures t == s[0 := t[0]]
  {}

  lemma BothReplaced<T>(s: seq<T>, t: seq<T>)
    requires |s| == |t| == 2
    ensures t == s[0 := t[0]][1 := t[1]]
  {}

  lemma PolledPending(n: NodeId, txs: seq<Tx>, free: bool,
                      isPending: bool, bus: seq<Request>, isPending': bool, bus': seq<Request>)
    requires |txs| == ChannelCount(n) && forall i :: 0 <= i < |txs| ==> TxValid(txs[i])
    requires forall i :: CanTp.Sends(txs, i, free) ==> isPending' && bus' == bus + Queued(Poll(txs[i], true).request, true)
    requires (forall i :: !CanTp.Sends(txs, i, free)) ==> isPending' == isPending && bus' == bus
    ensures var request := Poll(txs[0], true).request;
            var sent, queued := isPending || (request.Some? && free), bus + Queued(request, free);
            if n == 0 then
              var next, turn := Poll(txs[1], true).request, free && request.None?;
              isPending' == (sent || (next.Some? && turn)) && bus' == queued + Queued(next, turn)
            else
              isPending' == sent && bus' == queued
  {
    hide Poll, TxValid, TurnOf;
    TurnStart(txs, free);
    assert bus + [] == bus;
    assert CanTp.Sends(txs, 0, free) <==> free && Poll(txs[0], true).request.Some?;
    if n == 0 {
      TurnPasses(txs, 0, free);
      assert CanTp.Sends(txs, 1, free) <==> free && Poll(txs[0], true).request.None? && Poll(txs[1], true).request.Some?;
    }
    assert forall i :: CanTp.Sends(txs, i, free) ==> 0 <= i < |txs|;
    hide CanTp.Sends;
  }

  lemma TxAt(n: NodeId, txs: seq<Tx>, ends: seq<End>, i: nat)
    requires SameTx(n, txs, ends) && i < ChannelCount(n)
    ensures i < |txs| && txs[i] == ends[EndAt(n, i)].tx
  {}

  // ---------------------------------------------------------------------------------------------
  // The beginning, and the other nodes.

  ghost function NodeFootprint(node: CanTp): set<object> {
    {node, node.can} + node.TxFootprint() + node.RxFootprint()
  }

  /** CanTp_Init of a target, and of the gateway. */
  method InitTarget(n: NodeId, b: BlockSizes) returns (node: CanTp)
    requires n != 0
    ensures Represents(node, n, INITIAL, b) && node.confirmations == [] && node.indications == [] && fresh(NodeFootprint(node))
  {
    hide TxRuntime.Abs, TxRuntime.Valid, RxRuntime.Abs, RxRuntime.Valid, TxValid, RxValid;
    var can := new CanDriver();
    var tx := new TxRuntime();
    var rxConfig := RxConfigOf(EndAt(n, 0), b);
    var rx := new RxRuntime(rxConfig);
    node := new CanTp([TxConfigOf(EndAt(n, 0))], [rxConfig], [tx], [rx], can);
  }

  method InitGateway(b: BlockSizes) returns (node: CanTp)
    ensures Represents(node, 0, INITIAL, b) && node.confirmations == [] && node.indications == [] && fresh(NodeFootprint(node))
  {
    hide CanTp.Valid, CanTp.TxStates, CanTp.RxStates;
    node := TwoChannels(TxConfigOf(0), TxConfigOf(1), RxConfigOf(0, b), RxConfigOf(1, b));
  }

  method TwoSenders() returns (tx0: TxRuntime, tx1: TxRuntime)
    ensures fresh(tx0.Repr + tx1.Repr) && tx0.Repr !! tx1.Repr && tx0 in tx0.Repr && tx1 in tx1.Repr
    ensures tx0.Valid() && tx1.Valid() && tx0.Abs() == TX_RESET && tx1.Abs() == TX_RESET
  {
    hide TxRuntime.Abs, TxValid;
    tx0 := new TxRuntime();
    tx1 := new TxRuntime();
  }

  method TwoReceivers(r0: RxConfig, r1: RxConfig) returns (rx0: RxRuntime, rx1: RxRuntime)
    requires RxConfigValid(r0) && RxConfigValid(r1)
    ensures fresh(rx0.Repr + rx1.Repr) && rx0.Repr !! rx1.Repr && rx0 in rx0.Repr && rx1 in rx1.Repr
    ensures rx0.Valid(r0) && rx1.Valid(r1) && rx0.Abs(r0) == RX_RESET && rx1.Abs(r1) == RX_RESET
  {
    hide RxRuntime.Abs, RxValid;
    rx0 := new RxRuntime(r0);
    rx1 := new RxRuntime(r1);
  }

  method TwoChannels(t0: TxConfig, t1: TxConfig, r0: RxConfig, r1: RxConfig) returns (node: CanTp)
    requires RxConfigValid(r0) && RxConfigValid(r1)
    ensures node.Valid() && node.txConfig == [t0, t1] && node.rxConfig == [r0, r1]
    ensures node.TxStates() == [TX_RESET, TX_RESET] && node.RxStates() == [RX_RESET, RX_RESET]
    ensures node.can.started && !node.can.isPending && node.can.bus == []
    ensures node.confirmations == [] && node.indications == [] && fresh(NodeFootprint(node))
  {
    hide TxRuntime.Abs, TxRuntime.Valid, RxRuntime.Abs, RxRuntime.Valid, TxValid, RxValid;
    var tx0, tx1 := TwoSenders();
    var rx0, rx1 := TwoReceivers(r0, r1);
    var can := new CanDriver();
    node := new CanTp([t0, t1], [r0, r1], [tx0, tx1], [rx0, rx1], can);
  }

  /** The node an event happens on. */
  function EventNode(event: Event): NodeId {
    match event
    case Send(e, _, _) => NodeOf(e)
    case MainFunction(e, _) => NodeOf(e)
    case ReadFrame(e, _) => NodeOf(e)
    case DriverConfirms(n) => n
  }

  /** What happens on one node does not concern another. */
  lemma OtherNodeKeeps(node: CanTp, n: NodeId, s: System, b: BlockSizes, event: Event)
    requires Ready(s, b) && Represents(node, n, s, b) && EventNode(event) != n
    requires forall m: NodeId :: s.slots[m].Some? ==> NodeOf(s.slots[m].value.owner) == m
    ensures Represents(node, n, Step(s, b, event), b)
  {
    hide SendStep, PollStep, ConfirmStep, ReadStep, TxValid, RxValid, SameSlot, CanTp.Valid, CanTp.TxStates, CanTp.RxStates;
  }
}
