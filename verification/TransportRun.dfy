/** A whole run of the three nodes: the entry points of their CanTps called in any order, the frames they
    put on the bus carried to their peers. What the nodes report is what the network model says of the
    same run, and so everything proved of every run of the model holds of the nodes' own records. */
module TransportRun {

  import opened Bytes
  import opened CanTpModel
  import opened CanTpRuntime
  import opened CanTpNode
  import opened TransportLink
  import opened TransportSystem
  import opened TransportSafety
  import opened TransportCompletion
  import opened TransportRefinement

  // ---------------------------------------------------------------------------------------------
  // Three nodes.

  ghost predicate NodesApart(nodes: seq<CanTp>) {
    |nodes| == 3 && forall m, n :: 0 <= m < n < 3 ==> NodeFootprint(nodes[m]) !! NodeFootprint(nodes[n])
  }

  ghost predicate AllRepresent(nodes: seq<CanTp>, s: System, b: BlockSizes)
    reads *
  {
    NodesApart(nodes) && forall n: NodeId :: Represents(nodes[n], n, s, b)
  }

  twostate predicate Same(node: CanTp)
    reads NodeFootprint(node)
  {
    unchanged(NodeFootprint(node))
  }

  /** A node that nothing has touched has the channels it had. */
  twostate lemma UntouchedChannels(node: CanTp)
    requires old(node.Valid()) && Same(node)
    ensures node.Valid() && node.TxStates() == old(node.TxStates()) && node.RxStates() == old(node.RxStates())
    ensures unchanged(node.can)
  {
    hide TxValid, RxValid, RxConfigValid, TxRuntime.Abs, TxRuntime.Valid, RxRuntime.Abs, RxRuntime.Valid;
    forall i | 0 <= i < |node.tx| ensures unchanged(node.tx[i]) && unchanged(node.tx[i].Repr) {
      assert node.tx[i].Repr <= node.TxFootprint();
    }
    forall i | 0 <= i < |node.rx| ensures unchanged(node.rx[i]) && unchanged(node.rx[i].Repr) {
      assert node.rx[i].Repr <= node.RxFootprint();
    }
  }

  ghost function AllFootprints(nodes: seq<CanTp>): set<object> {
    set n: nat, o: object | n < |nodes| && o in NodeFootprint(nodes[n]) :: o
  }

  /** So it stands for what it stood for. */
  twostate lemma Untouched(node: CanTp, new n: NodeId, new s: System, new b: BlockSizes)
    requires old(Represents(node, n, s, b)) && Same(node)
    ensures Represents(node, n, s, b)
  {
    hide NodeFootprint, Same, TxValid, RxValid, SameTx, SameRx, SameSlot, Configured, CanTp.Valid, CanTp.TxStates, CanTp.RxStates;
    UntouchedChannels(node);
  }

  /** One node stands for its part of `t`, and the others, which stood for theirs, are untouched. */
  twostate lemma AllButOneUntouched(nodes: seq<CanTp>, new n: NodeId, new t: System, new b: BlockSizes)
    requires NodesApart(nodes) && Represents(nodes[n], n, t, b)
    requires forall m: NodeId :: m != n ==> old(Represents(nodes[m], m, t, b)) && Same(nodes[m])
    ensures AllRepresent(nodes, t, b)
  {
    hide Represents, NodeFootprint, Same;
    forall m: NodeId ensures Represents(nodes[m], m, t, b) {
      if m != n {
        Untouched(nodes[m], m, t, b);
      }
    }
  }

  ghost predicate Owned(s: System) {
    |s.slots| == 3 && forall k: NodeId :: s.slots[k].Some? ==> NodeOf(s.slots[k].value.owner) == k
  }

  lemma AllOwned(nodes: seq<CanTp>, s: System, b: BlockSizes)
    requires AllRepresent(nodes, s, b)
    ensures Owned(s)
  {
    assert Represents(nodes[0], 0, s, b);
    forall k: NodeId | s.slots[k].Some? ensures NodeOf(s.slots[k].value.owner) == k {
      assert Represents(nodes[k], k, s, b);
    }
  }

  lemma StepKeepsOwned(s: System, b: BlockSizes, event: Event)
    requires Ready(s, b) && Owned(s)
    ensures Owned(Step(s, b, event))
  {
    hide SendStep, PollStep, ConfirmStep, ReadStep, TxValid, RxValid;
  }

  lemma {:induction false} OthersKeep(nodes: seq<CanTp>, n: NodeId, s: System, b: BlockSizes, events: seq<Event>)
    requires Linked(s, b) && Owned(s) && |nodes| == 3 && forall i :: 0 <= i < |events| ==> EventNode(events[i]) == n
    requires forall m: NodeId :: m != n ==> Represents(nodes[m], m, s, b)
    ensures forall m: NodeId :: m != n ==> Represents(nodes[m], m, Play(s, b, events), b)
    decreases |events|
  {
    hide Linked, Ready, Represents, Step;
    if events != [] {
      LinkedIsReady(s, b);
      StepKeepsLinked(s, b, events[0]);
      StepKeepsOwned(s, b, events[0]);
      forall m: NodeId | m != n ensures Represents(nodes[m], m, Step(s, b, events[0]), b) {
        OtherNodeKeeps(nodes[m], m, s, b, events[0]);
      }
      OthersKeep(nodes, n, Step(s, b, events[0]), b, events[1..]);
    }
  }

  /** The hardware of a node becomes ready or busy. */
  method SetHardware(node: CanTp, ghost n: NodeId, hwOk: bool, ghost s: System, ghost b: BlockSizes)
    requires Represents(node, n, s, b)
    modifies node.can`hardwareOk
    ensures Represents(node, n, s, b) && node.can.hardwareOk == hwOk
  {
    hide TxValid, RxValid, RxConfigValid, SameTx, SameRx, SameSlot, Configured,
         TxRuntime.Abs, TxRuntime.Valid, RxRuntime.Abs, RxRuntime.Valid;
    ghost var txs, rxs := node.TxStates(), node.RxStates();
    node.can.hardwareOk := hwOk;
    assert node.Valid();
    assert node.TxStates() == txs;
    assert node.RxStates() == rxs;
  }

  // ---------------------------------------------------------------------------------------------
  // What the nodes have done, as it shows outside.

  /** What a node has given to PduR under one handle. */
  function SdusFor(ds: seq<Delivery>, id: nat): seq<seq<byte>> {
    if ds == [] then
      []
    else
      var last := ds[|ds| - 1];
      SdusFor(ds[..|ds| - 1], id) + if last.pduRRxPduId == id then [last.sdu] else []
  }

  lemma {:induction false} SdusForGrows(before: seq<Delivery>, added: seq<Delivery>, id: nat, other: nat)
    requires OnlyUnder(added, id)
    ensures SdusFor(before + added, other) == SdusFor(before, other) + if other == id then Sdus(added) else []
    decreases |added|
  {
    if added == [] {
      assert before + added == before;
    } else {
      var all, fewer := before + added, added[..|added| - 1];
      assert all[..|all| - 1] == before + fewer;
      SdusForGrows(before, fewer, id, other);
      assert Sdus(added) == Sdus(fewer) + [added[|added| - 1].sdu];
    }
  }

  function Unread(s: System): (lanes: seq<seq<Frame>>)
    requires |s.ends| == 4
    ensures |lanes| == 4 && forall e: EndId :: lanes[e] == s.ends[e].unread
  {
    [s.ends[0].unread, s.ends[1].unread, s.ends[2].unread, s.ends[3].unread]
  }

  /** The lanes of the bus once a node's slot has changed: a frame that is new in it is on the bus. */
  function Placed(lanes: seq<seq<Frame>>, before: Option<Pending>, after: Option<Pending>): (r: seq<seq<Frame>>)
    requires |lanes| == 4
    ensures |r| == 4
  {
    if before.None? && after.Some? then
      lanes[after.value.owner := lanes[after.value.owner] + [after.value.frame]]
    else
      lanes
  }

  function Taken(lanes: seq<seq<Frame>>, event: Event): (r: seq<seq<Frame>>)
    requires |lanes| == 4
    ensures |r| == 4
  {
    if event.ReadFrame? && lanes[Peer(event.e)] != [] then
      lanes[Peer(event.e) := lanes[Peer(event.e)][1..]]
    else
      lanes
  }

  lemma EndRecords(end: End, config: TxConfig, own: RxConfig, sdu: seq<byte>, f: Frame, accept: bool)
    requires TxValid(end.tx) && RxValid(end.rx, own)
    ensures var r := SendStep(end, config, sdu, accept);
            && r.end.unread == end.unread + Emitted(r) && (r.emitted.Some? ==> accept) && r.end.delivered == end.delivered
    ensures var r := PollStep(end, accept);
            && r.end.unread == end.unread + Emitted(r) && (r.emitted.Some? ==> accept)
            && r.end.accepted == end.accepted && r.end.delivered == end.delivered
    ensures var r := ReadStep(end, own, f, accept);
            && r.end.unread == end.unread + Emitted(r) && (r.emitted.Some? ==> accept) && r.end.accepted == end.accepted
    ensures var r := ConfirmStep(end);
            && r.end.unread == end.unread && r.emitted == None
            && r.end.accepted == end.accepted && r.end.delivered == end.delivered
  {
    hide Transmit, Poll, Confirm, FlowControl, Receive;
  }

  function Emitted(r: StepResult): seq<Frame> {
    if r.emitted.Some? then [r.emitted.value] else []
  }

  /** A step, seen from outside: the lanes, and what is accepted and delivered at other ends. */
  lemma StepSeen(s: System, b: BlockSizes, event: Event)
    requires Ready(s, b)
    ensures var t, n := Step(s, b, event), EventNode(event);
            && Unread(t) == Placed(Taken(Unread(s), event), s.slots[n], t.slots[n])
            && (forall d: EndId :: (event.Send? && event.e == d) || t.ends[d].accepted == s.ends[d].accepted)
            && (forall d: EndId :: (event.ReadFrame? && event.e == d) || t.ends[d].delivered == s.ends[d].delivered)
  {
    hide SendStep, PollStep, ReadStep, ConfirmStep, TxValid, RxValid, Apply, Placed;
    match event
    case Send(e, sdu, hwOk) =>
      EndRecords(s.ends[e], TxConfigOf(e), RxConfigOf(e, b), sdu, Zeros(64), Accepts(s, e, hwOk));
      ApplySeen(s, e, SendStep(s.ends[e], TxConfigOf(e), sdu, Accepts(s, e, hwOk)));
    case MainFunction(e, hwOk) =>
      EndRecords(s.ends[e], TxConfigOf(e), RxConfigOf(e, b), [], Zeros(64), Accepts(s, e, hwOk));
      ApplySeen(s, e, PollStep(s.ends[e], Accepts(s, e, hwOk)));
    case DriverConfirms(n) => ConfirmSeen(s, b, n);
    case ReadFrame(e, hwOk) =>
      if s.ends[Peer(e)].unread != [] {
        ReadSeen(s, b, e, hwOk);
      } else {
        NothingPlaced(Unread(s), s.slots[NodeOf(e)]);
      }
  }

  lemma ReadSeen(s: System, b: BlockSizes, e: EndId, hwOk: bool)
    requires Ready(s, b) && s.ends[Peer(e)].unread != []
    ensures var t, n := Step(s, b, ReadFrame(e, hwOk)), NodeOf(e);
            && Unread(t) == Placed(Taken(Unread(s), ReadFrame(e, hwOk)), s.slots[n], t.slots[n])
            && (forall d: EndId :: t.ends[d].accepted == s.ends[d].accepted)
            && (forall d: EndId :: d != e ==> t.ends[d].delivered == s.ends[d].delivered)
  {
    hide ReadStep, TxValid, RxValid, Apply, Placed, Unread, Taken;
    var p, f := Peer(e), s.ends[Peer(e)].unread[0];
    EndRecords(s.ends[e], TxConfigOf(e), RxConfigOf(e, b), [], f, Accepts(s, e, hwOk));
    var taken := s.(ends := s.ends[p := s.ends[p].(unread := s.ends[p].unread[1..])]);
    FrameTaken(s, e, hwOk);
    ApplySeen(taken, e, ReadStep(s.ends[e], RxConfigOf(e, b), f, Accepts(s, e, hwOk)));
  }

  lemma FrameTaken(s: System, e: EndId, hwOk: bool)
    requires |s.ends| == 4 && s.ends[Peer(e)].unread != []
    ensures var p := Peer(e);
            Unread(s.(ends := s.ends[p := s.ends[p].(unread := s.ends[p].unread[1..])])) == Taken(Unread(s), ReadFrame(e, hwOk))
  {}

  lemma NothingPlaced(lanes: seq<seq<Frame>>, slot: Option<Pending>)
    requires |lanes| == 4
    ensures Placed(lanes, slot, slot) == lanes
  {}

  lemma ApplySeen(s: System, e: EndId, r: StepResult)
    requires |s.ends| == 4 && |s.slots| == 3
    requires r.end.unread == s.ends[e].unread + Emitted(r) && (r.emitted.Some? ==> s.slots[NodeOf(e)].None?)
    ensures var t := Apply(s, e, r);
            && Unread(t) == Placed(Unread(s), s.slots[NodeOf(e)], t.slots[NodeOf(e)])
            && t.ends[e] == r.end && forall d: EndId :: d != e ==> t.ends[d] == s.ends[d]
  {
    assert s.ends[e].unread + [] == s.ends[e].unread;
  }

  lemma ConfirmSeen(s: System, b: BlockSizes, n: NodeId)
    requires Ready(s, b)
    ensures var t := Step(s, b, DriverConfirms(n));
            && Unread(t) == Unread(s) == Placed(Unread(s), s.slots[n], t.slots[n])
            && forall d: EndId :: t.ends[d].accepted == s.ends[d].accepted && t.ends[d].delivered == s.ends[d].delivered
  {
    hide ConfirmStep, TxValid, RxValid;
    if s.slots[n].Some? {
      var e := s.slots[n].value.owner;
      EndRecords(s.ends[e], TxConfigOf(e), RxConfigOf(e, b), [], Zeros(64), false);
    }
  }

  // ---------------------------------------------------------------------------------------------
  // Single calls.

  /** The lanes and the SDUs accepted so far are the model's. */
  ghost predicate Outside(lanes: seq<seq<Frame>>, accepted: seq<seq<seq<byte>>>, s: System) {
    && |lanes| == 4 && |accepted| == 4 && |s.ends| == 4 && lanes == Unread(s)
    && forall e: EndId :: accepted[e] == s.ends[e].accepted
  }

  /** What a node has given to PduR is what the model's ends of this node have delivered. */
  ghost predicate Given(indications: seq<Delivery>, n: NodeId, s: System) {
    |s.ends| == 4 && forall e: EndId :: NodeOf(e) == n ==> SdusFor(indications, ChannelOf(e)) == s.ends[e].delivered
  }

  /** What the bus carries away when a call has put a frame on it. */
  method Collect(node: CanTp, n: NodeId, wasPending: bool, lanes: seq<seq<Frame>>, ghost before: Option<Pending>,
                 ghost t: System, ghost b: BlockSizes)
    returns (lanes': seq<seq<Frame>>)
    requires Represents(node, n, t, b) && |lanes| == 4 && (wasPending <==> before.Some?)
    ensures lanes' == Placed(lanes, before, t.slots[n])
  {
    hide CanTp.Valid, CanTp.TxStates, CanTp.RxStates, SameTx, SameRx;
    lanes' := lanes;
    if !wasPending && node.can.isPending {
      var last := node.can.bus[|node.can.bus| - 1];
      var e := EndAt(n, last.canIfTxPduId);
      lanes' := lanes[e := lanes[e] + [last.frame]];
    }
  }

  lemma OwnParts(node: CanTp, n: NodeId, s: System, b: BlockSizes)
    requires Represents(node, n, s, b)
    ensures node.can !in node.TxFootprint() && node.can !in node.RxFootprint()
    ensures node !in node.TxFootprint() && node !in node.RxFootprint()
    ensures |s.slots| == 3 && (node.can.isPending <==> s.slots[n].Some?)
  {
    hide CanTp.Valid, CanTp.TxFootprint, CanTp.RxFootprint, SameTx, SameRx;
    node.Apart();
  }

  /** What the environment calls: CanTp_Transmit, CanTp_MainFunction, the driver's main function with the
    frame sent, and CanTp_RxIndication with the next frame on the way to an end; each with hardware that
    does or does not take a frame. */
  datatype Call =
    | CallTransmit(e: EndId, sdu: seq<byte>, hwOk: bool)
    | CallMain(n: NodeId, hwOk: bool)
    | CallConfirm(n: NodeId)
    | CallRead(e: EndId, hwOk: bool)

  function CallNode(call: Call): NodeId {
    match call
    case CallTransmit(e, _, _) => NodeOf(e)
    case CallMain(n, _) => n
    case CallConfirm(n) => n
    case CallRead(e, _) => NodeOf(e)
  }

  /** The model's events of a call: the main function visits every channel. */
  function EventsOf(call: Call): (events: seq<Event>)
    ensures forall i :: 0 <= i < |events| ==> EventNode(events[i]) == CallNode(call)
  {
    match call
    case CallTransmit(e, sdu, hwOk) => [Send(e, sdu, hwOk)]
    case CallMain(n, hwOk) =>
      if n == 0 then [MainFunction(0, hwOk), MainFunction(1, hwOk)] else [MainFunction(EndAt(n, 0), hwOk)]
    case CallConfirm(n) => [DriverConfirms(n)]
    case CallRead(e, hwOk) => [ReadFrame(e, hwOk)]
  }

  method TransmitAt(node: CanTp, lanes: seq<seq<Frame>>, accepted: seq<seq<seq<byte>>>, e: EndId, sdu: seq<byte>,
                    hwOk: bool, ghost s: System, ghost b: BlockSizes)
    returns (lanes': seq<seq<Frame>>, accepted': seq<seq<seq<byte>>>, ghost t: System)
    requires Ready(s, b) && Represents(node, NodeOf(e), s, b) && Outside(lanes, accepted, s)
    modifies NodeFootprint(node)
    ensures t == Step(s, b, Send(e, sdu, hwOk)) && Represents(node, NodeOf(e), t, b)
    ensures Outside(lanes', accepted', t) && node.indications == old(node.indications)
  {
    hide Represents, Step, Placed, Unread, TxValid, RxValid, CanTp.TxFootprint, CanTp.RxFootprint;
    OwnParts(node, NodeOf(e), s, b);
    StepSeen(s, b, Send(e, sdu, hwOk));
    var wasPending := node.can.isPending;
    SetHardware(node, NodeOf(e), hwOk, s, b);
    var ok;
    ok, t := TransmitRefines(node, NodeOf(e), s, b, e, sdu);
    lanes' := Collect(node, NodeOf(e), wasPending, lanes, s.slots[NodeOf(e)], t, b);
    accepted' := if ok then accepted[e := accepted[e] + [sdu]] else accepted;
  }

  method ConfirmAt(node: CanTp, lanes: seq<seq<Frame>>, accepted: seq<seq<seq<byte>>>, n: NodeId, ghost s: System, ghost b: BlockSizes)
    returns (ghost t: System)
    requires Ready(s, b) && Represents(node, n, s, b) && Outside(lanes, accepted, s)
    modifies NodeFootprint(node)
    ensures t == Step(s, b, DriverConfirms(n)) && Represents(node, n, t, b)
    ensures Outside(lanes, accepted, t) && node.indications == old(node.indications)
  {
    hide Represents, Step, Unread, TxValid, RxValid, CanTp.TxFootprint, CanTp.RxFootprint;
    OwnParts(node, n, s, b);
    ConfirmSeen(s, b, n);
    t := ConfirmRefines(node, n, s, b);
  }

  method ReadAt(node: CanTp, lanes: seq<seq<Frame>>, accepted: seq<seq<seq<byte>>>, e: EndId,
                hwOk: bool, ghost s: System, ghost b: BlockSizes)
    returns (lanes': seq<seq<Frame>>, ghost t: System)
    requires Ready(s, b) && Represents(node, NodeOf(e), s, b) && Outside(lanes, accepted, s)
    requires Given(node.indications, NodeOf(e), s)
    modifies NodeFootprint(node)
    ensures t == Step(s, b, ReadFrame(e, hwOk)) && Represents(node, NodeOf(e), t, b)
    ensures Outside(lanes', accepted, t) && Given(node.indications, NodeOf(e), t)
  {
    hide Represents, Step, Placed, Unread, SdusFor, TxValid, RxValid, CanTp.TxFootprint, CanTp.RxFootprint;
    ghost var event, before := ReadFrame(e, hwOk), node.indications;
    OwnParts(node, NodeOf(e), s, b);
    StepSeen(s, b, event);
    if lanes[Peer(e)] == [] {
      NothingRead(s, b, e, hwOk);
      lanes', t := lanes, s;
      return;
    }
    var f, wasPending := lanes[Peer(e)][0], node.can.isPending;
    SetHardware(node, NodeOf(e), hwOk, s, b);
    t := ReadRefines(node, NodeOf(e), s, b, e, f);
    lanes' := lanes[Peer(e) := lanes[Peer(e)][1..]];
    lanes' := Collect(node, NodeOf(e), wasPending, lanes', s.slots[NodeOf(e)], t, b);
    MoreGiven(before, node.indications, NodeOf(e), s, t, e);
  }

  lemma NothingRead(s: System, b: BlockSizes, e: EndId, hwOk: bool)
    requires Ready(s, b) && s.ends[Peer(e)].unread == []
    ensures Step(s, b, ReadFrame(e, hwOk)) == s
  {}

  lemma MoreGiven(before: seq<Delivery>, after: seq<Delivery>, n: NodeId, s: System, t: System, e: EndId)
    requires Given(before, n, s) && |t.ends| == 4 && NodeOf(e) == n && before <= after
    requires OnlyUnder(after[|before|..], ChannelOf(e))
    requires t.ends[e].delivered == s.ends[e].delivered + Sdus(after[|before|..])
    requires forall d: EndId :: d != e ==> t.ends[d].delivered == s.ends[d].delivered
    ensures Given(after, n, t)
  {
    hide SdusFor, Sdus, OnlyUnder;
    assert before + after[|before|..] == after;
    forall d: EndId | NodeOf(d) == n ensures SdusFor(after, ChannelOf(d)) == t.ends[d].delivered {
      SdusForGrows(before, after[|before|..], ChannelOf(e), ChannelOf(d));
    }
  }

  method MainAt(node: CanTp, lanes: seq<seq<Frame>>, accepted: seq<seq<seq<byte>>>, n: NodeId,
                hwOk: bool, ghost s: System, ghost b: BlockSizes)
    returns (lanes': seq<seq<Frame>>, ghost t: System)
    requires Linked(s, b) && Ready(s, b) && Represents(node, n, s, b) && Outside(lanes, accepted, s)
    modifies NodeFootprint(node)
    ensures t == VisitAll(n, s, b, hwOk) && Represents(node, n, t, b)
    ensures Outside(lanes', accepted, t) && node.indications == old(node.indications)
  {
    hide Represents, Step, VisitAll, Placed, Unread, Linked, Ready, TxValid, RxValid, CanTp.TxFootprint, CanTp.RxFootprint;
    OwnParts(node, n, s, b);
    VisitsSeen(s, b, n, hwOk);
    var wasPending := node.can.isPending;
    SetHardware(node, n, hwOk, s, b);
    t := MainFunctionRefines(node, n, s, b);
    lanes' := Collect(node, n, wasPending, lanes, s.slots[n], t, b);
  }

  lemma VisitsSeen(s: System, b: BlockSizes, n: NodeId, hwOk: bool)
    requires Linked(s, b) && |s.ends| == 4 && |s.slots| == 3
    ensures var t := VisitAll(n, s, b, hwOk);
            && |t.ends| == 4 && |t.slots| == 3 && Unread(t) == Placed(Unread(s), s.slots[n], t.slots[n])
            && forall d: EndId :: t.ends[d].accepted == s.ends[d].accepted && t.ends[d].delivered == s.ends[d].delivered
  {
    hide Step, Unread, Linked, Ready;
    LinkedIsReady(s, b);
    StepSeen(s, b, MainFunction(EndAt(n, 0), hwOk));
    if n == 0 {
      var first := Step(s, b, MainFunction(0, hwOk));
      StepKeepsLinked(s, b, MainFunction(0, hwOk));
      LinkedIsReady(first, b);
      StepSeen(first, b, MainFunction(1, hwOk));
      SlotStays(s, b, MainFunction(0, hwOk));
      SlotStays(first, b, MainFunction(1, hwOk));
    }
  }

  /** A main function does not touch a slot that is taken. */
  lemma SlotStays(s: System, b: BlockSizes, event: Event)
    requires Ready(s, b) && event.MainFunction?
    ensures s.slots[EventNode(event)].Some? ==> Step(s, b, event).slots[EventNode(event)] == s.slots[EventNode(event)]
  {
    hide Poll;
  }

  // ---------------------------------------------------------------------------------------------
  // All three nodes.

  /** A call on its node: the node and all records move as the model does. */
  method CallAt(node: CanTp, lanes: seq<seq<Frame>>, accepted: seq<seq<seq<byte>>>, call: Call, ghost s: System, ghost b: BlockSizes)
    returns (lanes': seq<seq<Frame>>, accepted': seq<seq<seq<byte>>>, ghost t: System)
    requires Linked(s, b) && Represents(node, CallNode(call), s, b) && Outside(lanes, accepted, s)
    requires Given(node.indications, CallNode(call), s)
    modifies NodeFootprint(node)
    ensures t == Play(s, b, EventsOf(call)) && Represents(node, CallNode(call), t, b)
    ensures Outside(lanes', accepted', t) && Given(node.indications, CallNode(call), t)
    ensures forall d: EndId :: NodeOf(d) != CallNode(call) ==> t.ends[d].delivered == s.ends[d].delivered
  {
    hide Represents, Step, VisitAll, Linked, Ready, Unread, SdusFor, CanTp.TxFootprint, CanTp.RxFootprint;
    LinkedIsReady(s, b);
    FourEnds(s, b);
    lanes', accepted' := lanes, accepted;
    match call
    case CallTransmit(e, sdu, hwOk) =>
      StepSeen(s, b, Send(e, sdu, hwOk));
      PlayOne(s, b, Send(e, sdu, hwOk));
      lanes', accepted', t := TransmitAt(node, lanes, accepted, e, sdu, hwOk, s, b);
    case CallMain(n, hwOk) =>
      VisitsSeen(s, b, n, hwOk);
      PlayVisits(s, b, n, hwOk);
      lanes', t := MainAt(node, lanes, accepted, n, hwOk, s, b);
    case CallConfirm(n) =>
      StepSeen(s, b, DriverConfirms(n));
      PlayOne(s, b, DriverConfirms(n));
      t := ConfirmAt(node, lanes, accepted, n, s, b);
    case CallRead(e, hwOk) =>
      StepSeen(s, b, ReadFrame(e, hwOk));
      PlayOne(s, b, ReadFrame(e, hwOk));
      lanes', t := ReadAt(node, lanes, accepted, e, hwOk, s, b);
  }

  lemma PlayOne(s: System, b: BlockSizes, event: Event)
    requires Linked(s, b)
    ensures Ready(s, b) && Play(s, b, [event]) == Step(s, b, event)
  {
    hide Linked, Ready, Step;
    StepKeepsLinked(s, b, event);
    assert [event][1..] == [];
  }

  lemma PlayVisits(s: System, b: BlockSizes, n: NodeId, hwOk: bool)
    requires Linked(s, b)
    ensures Play(s, b, EventsOf(CallMain(n, hwOk))) == VisitAll(n, s, b, hwOk)
  {
    hide Linked, Ready, Step;
    var first := MainFunction(EndAt(n, 0), hwOk);
    StepKeepsLinked(s, b, first);
    if n == 0 {
      assert [first, MainFunction(1, hwOk)][1..] == [MainFunction(1, hwOk)];
      PlayOne(Step(s, b, first), b, MainFunction(1, hwOk));
    } else {
      PlayOne(s, b, first);
    }
  }

  ghost predicate AllGiven(nodes: seq<CanTp>, s: System)
    reads nodes
  {
    |nodes| == 3 && forall n: NodeId :: Given(nodes[n].indications, n, s)
  }

  lemma Allocated(node: CanTp)
    ensures forall o :: o in NodeFootprint(node) ==> allocated(o)
  {}

  method Perform(nodes: seq<CanTp>, lanes: seq<seq<Frame>>, accepted: seq<seq<seq<byte>>>, call: Call, ghost s: System, ghost b: BlockSizes)
    returns (lanes': seq<seq<Frame>>, accepted': seq<seq<seq<byte>>>, ghost t: System)
    requires Linked(s, b) && AllRepresent(nodes, s, b) && Outside(lanes, accepted, s) && AllGiven(nodes, s)
    modifies AllFootprints(nodes)
    ensures t == Play(s, b, EventsOf(call)) && AllRepresent(nodes, t, b)
    ensures Outside(lanes', accepted', t) && AllGiven(nodes, t)
  {
    hide Represents, Play, Linked, Unread, SdusFor, CanTp.TxFootprint, CanTp.RxFootprint;
    var n := CallNode(call);
    AllOwned(nodes, s, b);
    OthersKeep(nodes, n, s, b, EventsOf(call));
    forall m: NodeId ensures forall o :: o in NodeFootprint(nodes[m]) ==> allocated(o) {
      Allocated(nodes[m]);
    }
    lanes', accepted', t := CallAt(nodes[n], lanes, accepted, call, s, b);
    forall m: NodeId | m != n ensures Same(nodes[m]) {
      assert NodeFootprint(nodes[m]) !! NodeFootprint(nodes[n]);
    }
    AllButOneUntouched(nodes, n, t, b);
  }

  /** CanTp_Init of the three nodes. */
  method Start(b: BlockSizes) returns (nodes: seq<CanTp>)
    ensures AllRepresent(nodes, INITIAL, b) && AllGiven(nodes, INITIAL) && fresh(AllFootprints(nodes))
  {
    hide Represents, CanTp.TxFootprint, CanTp.RxFootprint;
    var gateway := InitGateway(b);
    Allocated(gateway);
    label G:
    var motion := InitTarget(1, b);
    Untouched@G(gateway, 0, INITIAL, b);
    Allocated(motion);
    label M:
    var lighting := InitTarget(2, b);
    Untouched@G(gateway, 0, INITIAL, b);
    Untouched@M(motion, 1, INITIAL, b);
    nodes := [gateway, motion, lighting];
  }

  function AllEvents(calls: seq<Call>): seq<Event> {
    if calls == [] then [] else AllEvents(calls[..|calls| - 1]) + EventsOf(calls[|calls| - 1])
  }

  /** What end `e` has given to PduR, by its node's own record. */
  function DeliveredAt(nodes: seq<CanTp>, e: EndId): seq<seq<byte>>
    requires |nodes| == 3
    reads nodes
  {
    SdusFor(nodes[NodeOf(e)].indications, ChannelOf(e))
  }

  lemma OneMoreCall(calls: seq<Call>, i: nat, b: BlockSizes)
    requires i < |calls| && Linked(INITIAL, b)
    ensures Play(INITIAL, b, AllEvents(calls[..i + 1])) == Play(Play(INITIAL, b, AllEvents(calls[..i])), b, EventsOf(calls[i]))
  {
    hide Linked, Play, EventsOf;
    assert calls[..i + 1][..i] == calls[..i];
    PlayConcat(INITIAL, b, AllEvents(calls[..i]), EventsOf(calls[i]));
  }

  lemma RecordsSafe(nodes: seq<CanTp>, lanes: seq<seq<Frame>>, accepted: seq<seq<seq<byte>>>, s: System, b: BlockSizes, e: EndId)
    requires Linked(s, b) && Outside(lanes, accepted, s) && AllGiven(nodes, s)
    ensures DeliveredAt(nodes, Peer(e)) <= accepted[e]
    ensures lanes[e] == [] && s.ends[e].tx.state.TxIdle? ==> DeliveredAt(nodes, Peer(e)) == accepted[e]
  {
    hide SdusFor, Linked;
    LinkedIsReady(s, b);
    LinkedIsSafe(s, b, e);
    assert Given(nodes[NodeOf(Peer(e))].indications, NodeOf(Peer(e)), s);
  }

  /** The run: from CanTp_Init of the three nodes, for every sequence of calls, the nodes are where the
      model's run of the same events is; and by their own records, what a channel's peer has given to PduR
      is a prefix of what CanTp_Transmit has accepted from the channel, and all of it once the channel is
      idle and nothing it has sent is on the way. */
  method Run(calls: seq<Call>, b: BlockSizes)
    returns (nodes: seq<CanTp>, lanes: seq<seq<Frame>>, accepted: seq<seq<seq<byte>>>, ghost s: System)
    ensures Linked(INITIAL, b) && s == Play(INITIAL, b, AllEvents(calls))
    ensures AllRepresent(nodes, s, b) && Outside(lanes, accepted, s) && AllGiven(nodes, s)
    ensures forall e: EndId :: DeliveredAt(nodes, Peer(e)) <= accepted[e]
    ensures forall e: EndId :: lanes[e] == [] && s.ends[e].tx.state.TxIdle? ==> DeliveredAt(nodes, Peer(e)) == accepted[e]
  {
    hide Represents, Play, Linked, SdusFor, NodesApart, EventsOf, DeliveredAt, NodeFootprint, Peer;
    InitialLinked(b);
    NothingYet(b);
    nodes := Start(b);
    s := INITIAL;
    lanes, accepted := [[], [], [], []], [[], [], [], []];
    for i := 0 to |calls|
      invariant s == Play(INITIAL, b, AllEvents(calls[..i]))
      invariant AllRepresent(nodes, s, b) && Outside(lanes, accepted, s) && AllGiven(nodes, s)
      invariant fresh(AllFootprints(nodes))
    {
      OneMoreCall(calls, i, b);
      lanes, accepted, s := Perform(nodes, lanes, accepted, calls[i], s, b);
    }
    assert calls[..|calls|] == calls;
    forall e: EndId
      ensures DeliveredAt(nodes, Peer(e)) <= accepted[e]
      ensures lanes[e] == [] && s.ends[e].tx.state.TxIdle? ==> DeliveredAt(nodes, Peer(e)) == accepted[e] {
      RecordsSafe(nodes, lanes, accepted, s, b, e);
    }
  }

  lemma NothingYet(b: BlockSizes)
    requires Linked(INITIAL, b)
    ensures Play(INITIAL, b, AllEvents([])) == INITIAL && Outside([[], [], [], []], [[], [], [], []], INITIAL)
  {
    hide Linked;
  }
}
