/** What holds in every state the transport network can reach. */
module TransportSafety {

  import opened Bytes
  import opened CanTpModel
  import opened Segmentation
  import opened TransportLink
  import opened TransportSystem

  /** The state after a run. */
  ghost function Play(s: System, b: BlockSizes, events: seq<Event>): (t: System)
    requires Linked(s, b)
    ensures Linked(t, b)
    decreases |events|
  {
    if events == [] then
      s
    else
      StepKeepsLinked(s, b, events[0]);
      Play(Step(s, b, events[0]), b, events[1..])
  }

  ghost predicate Reachable(s: System, b: BlockSizes) {
    exists events :: Linked(INITIAL, b) && Play(INITIAL, b, events) == s
  }

  lemma {:induction false} PlaySnoc(s: System, b: BlockSizes, events: seq<Event>, event: Event)
    requires Linked(s, b)
    ensures Ready(Play(s, b, events), b)
    ensures Play(s, b, events + [event]) == Step(Play(s, b, events), b, event)
    decreases |events|
  {
    hide Step, Linked, Ready;
    StepKeepsLinked(Play(s, b, events), b, event);
    if events == [] {
      assert events + [event] == [event] && [event][1..] == [];
    } else {
      StepKeepsLinked(s, b, events[0]);
      assert (events + [event])[1..] == events[1..] + [event];
      PlaySnoc(Step(s, b, events[0]), b, events[1..], event);
    }
  }

  lemma InitialReachable(b: BlockSizes)
    ensures Reachable(INITIAL, b)
  {
    InitialLinked(b);
    assert Play(INITIAL, b, []) == INITIAL;
  }

  lemma ReachableStep(s: System, b: BlockSizes, event: Event)
    requires Reachable(s, b)
    ensures Linked(s, b) && Ready(s, b) && Reachable(Step(s, b, event), b)
  {
    hide Step, Linked, Ready;
    var events :| Linked(INITIAL, b) && Play(INITIAL, b, events) == s;
    PlaySnoc(INITIAL, b, events, event);
  }

  // ---------------------------------------------------------------------------------------------
  // Nothing is altered, reordered or delivered twice.

  lemma LinkedIsSafe(s: System, b: BlockSizes, e: EndId)
    requires Linked(s, b)
    ensures s.ends[Peer(e)].delivered <= s.ends[e].accepted
    ensures s.ends[e].unread == [] && Remaining(s.ends[e].tx) == [] ==>
              s.ends[Peer(e)].delivered == s.ends[e].accepted
  {}

  /** Whatever a node delivers is what its peer was asked to send: after every run from the start the
      delivered SDUs are a prefix of the accepted ones, and all of them once the sender has nothing
      left and nothing is on the way. */
  lemma DeliveredIsPrefixOfAccepted(b: BlockSizes, events: seq<Event>, e: EndId)
    ensures Linked(INITIAL, b)
    ensures var s := Play(INITIAL, b, events);
            && s.ends[Peer(e)].delivered <= s.ends[e].accepted
            && (s.ends[e].unread == [] && Remaining(s.ends[e].tx) == [] ==>
                  s.ends[Peer(e)].delivered == s.ends[e].accepted)
  {
    InitialLinked(b);
    LinkedIsSafe(Play(INITIAL, b, events), b, e);
  }

  // ---------------------------------------------------------------------------------------------
  // The shared transmit slot.

  predicate WaitsForCf(tx: Tx) {
    tx.state.WaitTxConfirmation? && tx.totalLength != 0
  }

  /** `f` is the consecutive frame the channel sent last. */
  ghost predicate IsLastCf(tx: Tx, f: Frame)
    requires TxValid(tx)
  {
    exists from: nat ::
      && from < tx.transmittedLength <= from + CF_DATA && tx.transmittedLength <= |tx.buffer|
      && (tx.transmittedLength == from + CF_DATA || tx.transmittedLength == tx.totalLength)
      && f == CfFrame((tx.nextSn + 15) % 16, tx.buffer[from..tx.transmittedLength])
  }

  ghost predicate OwnsSlot(s: System, e: EndId)
    requires Shape(s)
  {
    && s.slots[NodeOf(e)].Some?
    && s.slots[NodeOf(e)].value.owner == e
    && IsLastCf(s.ends[e].tx, s.slots[NodeOf(e)].value.frame)
  }

  ghost predicate SlotsOwned(s: System)
    requires Shape(s)
  {
    && (forall e: EndId :: WaitsForCf(s.ends[e].tx) ==> OwnsSlot(s, e))
    && (forall n: NodeId :: s.slots[n].Some? ==> NodeOf(s.slots[n].value.owner) == n)
  }

  /** What a step of one end must do for the slots to stay owned: a channel that ends up waiting for
      a consecutive frame has either just sent it or was already waiting and has sent nothing. */
  ghost predicate SlotRespecting(before: End, r: StepResult, free: bool)
    requires TxValid(r.end.tx)
  {
    && (r.emitted.Some? ==> free)
    && (WaitsForCf(r.end.tx) ==>
          || (r.emitted.Some? && IsLastCf(r.end.tx, r.emitted.value))
          || (r.emitted.None? && r.end.tx == before.tx))
  }

  lemma ApplyKeepsSlots(s: System, e: EndId, r: StepResult)
    requires Shape(s) && SlotsOwned(s) && TxValid(r.end.tx)
    requires SlotRespecting(s.ends[e], r, s.slots[NodeOf(e)].None?)
    ensures Shape(Apply(s, e, r)) && SlotsOwned(Apply(s, e, r))
  {}

  lemma SendRespectsSlot(end: End, config: TxConfig, sdu: seq<byte>, accept: bool, free: bool)
    requires TxValid(end.tx) && (accept ==> free)
    ensures TxValid(SendStep(end, config, sdu, accept).end.tx)
    ensures SlotRespecting(end, SendStep(end, config, sdu, accept), free)
  {}

  lemma PollRespectsSlot(end: End, accept: bool, free: bool)
    requires TxValid(end.tx) && (accept ==> free)
    ensures TxValid(PollStep(end, accept).end.tx)
    ensures SlotRespecting(end, PollStep(end, accept), free)
  {
    var r := PollStep(end, accept);
    if WaitsForCf(r.end.tx) && end.tx.state.SendCf? {
      var from := end.tx.transmittedLength;
      assert r.emitted.value == CfFrame((r.end.tx.nextSn + 15) % 16, r.end.tx.buffer[from..r.end.tx.transmittedLength]);
    }
  }

  lemma ReadRespectsSlot(end: End, config: RxConfig, f: Frame, accept: bool, free: bool)
    requires TxValid(end.tx) && RxValid(end.rx, config) && (accept ==> free)
    requires WaitsForCf(end.tx) ==> !accept
    ensures TxValid(ReadStep(end, config, f, accept).end.tx)
    ensures SlotRespecting(end, ReadStep(end, config, f, accept), free)
  {}

  /** The driver's confirmation leaves no channel of that node waiting for a consecutive frame. */
  lemma ConfirmKeepsSlots(s: System, b: BlockSizes, n: NodeId)
    requires Ready(s, b) && SlotsOwned(s)
    ensures Shape(Step(s, b, DriverConfirms(n))) && SlotsOwned(Step(s, b, DriverConfirms(n)))
  {
    hide IsLastCf;
    if s.slots[n].Some? {
      var o := s.slots[n].value.owner;
      var t := Step(s, b, DriverConfirms(n));
      forall d: EndId | WaitsForCf(t.ends[d].tx) ensures OwnsSlot(t, d) {
        assert WaitsForCf(s.ends[d].tx) ==> OwnsSlot(s, d);
        assert d != o ==> t.ends[d] == s.ends[d];
      }
    }
  }

  lemma StepKeepsSlots(s: System, b: BlockSizes, event: Event)
    requires Ready(s, b) && SlotsOwned(s)
    ensures Shape(Step(s, b, event)) && SlotsOwned(Step(s, b, event))
  {
    hide SendStep, PollStep, ConfirmStep, ReadStep, IsLastCf;
    match event
    case Send(e, sdu, hwOk) =>
      SendRespectsSlot(s.ends[e], TxConfigOf(e), sdu, Accepts(s, e, hwOk), s.slots[NodeOf(e)].None?);
      ApplyKeepsSlots(s, e, SendStep(s.ends[e], TxConfigOf(e), sdu, Accepts(s, e, hwOk)));
    case MainFunction(e, hwOk) =>
      PollRespectsSlot(s.ends[e], Accepts(s, e, hwOk), s.slots[NodeOf(e)].None?);
      ApplyKeepsSlots(s, e, PollStep(s.ends[e], Accepts(s, e, hwOk)));
    case DriverConfirms(n) =>
      ConfirmKeepsSlots(s, b, n);
    case ReadFrame(e, hwOk) =>
      var p := Peer(e);
      if s.ends[p].unread != [] {
        var f := s.ends[p].unread[0];
        var taken := s.(ends := s.ends[p := s.ends[p].(unread := s.ends[p].unread[1..])]);
        assert WaitsForCf(s.ends[e].tx) ==> OwnsSlot(s, e);
        forall d: EndId | WaitsForCf(taken.ends[d].tx) ensures OwnsSlot(taken, d) {
          assert taken.ends[d].tx == s.ends[d].tx;
          assert OwnsSlot(s, d);
        }
        ReadRespectsSlot(s.ends[e], RxConfigOf(e, b), f, Accepts(s, e, hwOk), s.slots[NodeOf(e)].None?);
        ApplyKeepsSlots(taken, e, ReadStep(s.ends[e], RxConfigOf(e, b), f, Accepts(s, e, hwOk)));
      }
  }

  lemma InitialSlots()
    ensures Shape(INITIAL) && SlotsOwned(INITIAL)
  {}

  lemma {:induction false} PlayKeepsSlots(s: System, b: BlockSizes, events: seq<Event>)
    requires Linked(s, b) && Shape(s) && SlotsOwned(s)
    ensures Shape(Play(s, b, events)) && SlotsOwned(Play(s, b, events))
    decreases |events|
  {
    hide Step, Linked, SlotsOwned;
    if events != [] {
      StepKeepsLinked(s, b, events[0]);
      StepKeepsSlots(s, b, events[0]);
      PlayKeepsSlots(Step(s, b, events[0]), b, events[1..]);
    }
  }

  /** In every reachable state: a channel waiting for the confirmation of a consecutive frame owns
      its node's slot, the frame there is its own last consecutive frame, and no other channel of
      the node is in that state. So the next confirmation the driver gives on that node is for that
      frame, never for a first frame, a flow control frame or the other channel. */
  lemma WaitingChannelOwnsSlot(s: System, b: BlockSizes, e: EndId)
    requires Reachable(s, b)
    requires Shape(s) && WaitsForCf(s.ends[e].tx)
    ensures OwnsSlot(s, e)
    ensures forall d: EndId :: d != e && NodeOf(d) == NodeOf(e) ==> !WaitsForCf(s.ends[d].tx)
  {
    hide Linked, IsLastCf, Play, TxValid;
    var events :| Linked(INITIAL, b) && Play(INITIAL, b, events) == s;
    InitialSlots();
    PlayKeepsSlots(INITIAL, b, events);
    forall d: EndId | d != e && NodeOf(d) == NodeOf(e) ensures !WaitsForCf(s.ends[d].tx) {
      assert WaitsForCf(s.ends[d].tx) ==> OwnsSlot(s, d);
    }
  }

  // ---------------------------------------------------------------------------------------------
  // Confirmations.

  ghost predicate Balanced(e: End) {
    && (forall i :: 0 <= i < |e.confirmed| ==> e.confirmed[i])
    && |e.confirmed| + (if e.tx.state.TxIdle? then 0 else 1) == |e.accepted| + e.refusedSf
  }

  ghost predicate AllBalanced(s: System)
    requires |s.ends| == 4
  {
    forall e: EndId :: Balanced(s.ends[e])
  }

  lemma EndStepsKeepBalance(e: End, config: TxConfig, own: RxConfig, sdu: seq<byte>, f: Frame, accept: bool)
    requires TxValid(e.tx) && RxValid(e.rx, own) && Balanced(e)
    ensures Balanced(SendStep(e, config, sdu, accept).end)
    ensures Balanced(PollStep(e, accept).end)
    ensures Balanced(ConfirmStep(e).end)
    ensures (PciType(f) == PCI_FC ==> PciLow(f) == FC_CTS) ==> Balanced(ReadStep(e, own, f, accept).end)
  {
    hide Receive;
  }

  lemma StepKeepsBalance(s: System, b: BlockSizes, event: Event)
    requires Linked(s, b) && Ready(s, b) && AllBalanced(s)
    ensures AllBalanced(Step(s, b, event))
  {
    hide SendStep, PollStep, ConfirmStep, ReadStep, Balanced;
    var e: EndId := match event
      case DriverConfirms(n) => if s.slots[n].Some? then s.slots[n].value.owner else 0
      case _ => event.e;
    var p, sdu := Peer(e), if event.Send? then event.sdu else [];
    var accept := (event.Send? || event.MainFunction? || event.ReadFrame?) && Accepts(s, e, event.hwOk);
    var f := if s.ends[p].unread != [] then s.ends[p].unread[0] else Zeros(64);
    EndStepsKeepBalance(s.ends[e], TxConfigOf(e), RxConfigOf(e, b), sdu, f, accept);
    if event.ReadFrame? && s.ends[p].unread != [] {
      assert Link(s.ends[e], s.ends[p], RxConfigOf(p, b));
      assert Balanced(s.ends[p].(unread := s.ends[p].unread[1..])) by { UnreadIrrelevant(s.ends[p], s.ends[p].unread[1..]); }
    }
  }

  lemma UnreadIrrelevant(e: End, unread: seq<Frame>)
    requires Balanced(e)
    ensures Balanced(e.(unread := unread))
  {}

  lemma {:induction false} PlayKeepsBalance(s: System, b: BlockSizes, events: seq<Event>)
    requires Linked(s, b) && AllBalanced(s)
    ensures AllBalanced(Play(s, b, events))
    decreases |events|
  {
    hide Step, Linked, AllBalanced;
    if events != [] {
      StepKeepsLinked(s, b, events[0]);
      StepKeepsBalance(s, b, events[0]);
      PlayKeepsBalance(Step(s, b, events[0]), b, events[1..]);
    }
  }

  /** In every reachable state PduR has been given one positive confirmation for every accepted SDU
      and for every refused single frame, except for the one a busy channel still owes; negative
      ones never occur on a lossless bus. */
  lemma ConfirmationBalance(s: System, b: BlockSizes, e: EndId)
    requires Reachable(s, b)
    ensures |s.ends| == 4 && Balanced(s.ends[e])
  {
    hide Linked;
    var events :| Linked(INITIAL, b) && Play(INITIAL, b, events) == s;
    assert |s.ends| == 4 by { assert Linked(s, b); FourEnds(s, b); }
    PlayKeepsBalance(INITIAL, b, events);
  }

  lemma FourEnds(s: System, b: BlockSizes)
    requires Linked(s, b)
    ensures |s.ends| == 4 && |s.slots| == 3
  {}
}
