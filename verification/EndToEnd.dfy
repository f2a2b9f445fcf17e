/** A UDS request from the master to an ECU, and the way back: DoIP framing, routing by logical
    address, the PDU router, and the transport network, composed. */
module EndToEnd {

  import opened Bytes
  import opened CanTpModel
  import opened Segmentation
  import opened TransportLink
  import opened TransportSystem
  import opened TransportSafety
  import opened TransportProgress
  import opened TransportCompletion
  import D = DoipModel
  import P = MasterPackets
  import R = Pdur

  // ---------------------------------------------------------------------------------------------
  // The tables agree.

  /** A known logical address leads through DoIP and PduR to the CanTp channel of its ECU. */
  lemma AddressLeadsToChannel(target: nat, id: nat)
    requires D.FirstTarget(target, 0) == Some(id)
    ensures id < 2 && target == (if id == 0 then 0x1234 else 0x5678)
    ensures var path := R.FirstPath(R.PATHS, R.DoipTp, id, R.RxIndication);
            path.Some? && path.value.dest == R.CanTp && path.value.destPduId == TxConfigOf(id).canTpTxNsduId
  {}

  /** And back: what an ECU's channel delivers goes to DoIP under a handle whose source address is
      the address that requests to this very ECU carry. */
  lemma ReplyCarriesOwnAddress(channel: nat, b: BlockSizes)
    requires channel < 2
    ensures var path := R.FirstPath(R.PATHS, R.CanTp, RxConfigOf(channel, b).pduRRxPduId, R.RxIndication);
            && path.Some? && path.value.dest == R.DoipTp
            && var source := D.FirstSource(path.value.destPduId, 0);
               source.Some? && D.FirstTarget(source.value, 0) == Some(channel)
  {}

  // ---------------------------------------------------------------------------------------------
  // Accepted requests are never forgotten.

  lemma StepKeepsAccepted(s: System, b: BlockSizes, event: Event, e: EndId)
    requires Ready(s, b)
    ensures s.ends[e].accepted <= Step(s, b, event).ends[e].accepted
  {
    hide Transmit, Poll, Confirm, FlowControl, Receive;
  }

  lemma {:induction false} PlayKeepsAccepted(s: System, b: BlockSizes, events: seq<Event>, e: EndId)
    requires Linked(s, b)
    ensures |s.ends| == 4 && |Play(s, b, events).ends| == 4
    ensures s.ends[e].accepted <= Play(s, b, events).ends[e].accepted
    decreases |events|
  {
    hide Step, Linked, Ready;
    FourEnds(s, b);
    if events != [] {
      StepKeepsLinked(s, b, events[0]);
      StepKeepsAccepted(s, b, events[0], e);
      PlayKeepsAccepted(Step(s, b, events[0]), b, events[1..], e);
    }
  }

  // ---------------------------------------------------------------------------------------------
  // The request, all the way.

  /** On the gateway: however TCP cuts the packet, DoIP hands PduR exactly the service identifier
      and the payload, on the path of the addressed ECU's channel. */
  lemma RequestRouted(d: D.Session, chunks: seq<seq<byte>>, target: nat, id: nat, sid: byte, payload: seq<byte>)
    requires d.active && target < 0x1_0000 && D.FirstTarget(target, 0) == Some(id)
    requires 1 + |payload| <= 2036
    requires Flatten(chunks) == P.Packet(target, sid, payload) && D.Fits([], chunks)
    ensures var f := D.Feed([], chunks);
            && f.rest == [] && f.stop == D.Waiting
            && D.HandleAll(d, f.messages) ==
               D.Handled(D.Session(true, P.RPI_ADDRESS), [D.ToPduR(id, [sid] + payload)])
  {
    hide D.HandleAll, D.Frame, D.Feed, D.Fits, P.Packet;
    NothingFramed();
    D.ChunkingInvariance([], chunks);
    assert [] + Flatten(chunks) == Flatten(chunks);
    P.RequestFramed(target, sid, payload);
    P.RequestHandled(d, target, id, sid, payload);
  }

  lemma NothingFramed()
    ensures D.Frame([]) == D.Framing([], [], D.Waiting)
  {}

  lemma IdleChannelAccepts(end: End, config: TxConfig, sdu: seq<byte>)
    requires TxValid(end.tx) && end.tx.state.TxIdle? && 1 <= |sdu| <= BUFFER_SIZE
    ensures SendStep(end, config, sdu, true).end.accepted == end.accepted + [sdu]
  {}

  /** On the network: with the channel idle and the slot free the request is accepted; whatever
      happens afterwards, the ECU delivers only what was accepted, in order; and once nothing is on
      the way, the ECU has delivered this request, at exactly its place, as the service identifier
      followed by the payload. */
  lemma RequestDelivered(s: System, b: BlockSizes, id: EndId, sid: byte, payload: seq<byte>, events: seq<Event>)
    requires Linked(s, b) && Ready(s, b) && id < 2
    requires s.ends[id].tx.state.TxIdle? && s.slots[NodeOf(id)].None?
    requires 1 + |payload| <= 2036
    ensures var uds := [sid] + payload;
            var sent := Step(s, b, Send(id, uds, true));
            && Linked(sent, b)
            && var t, place := Play(sent, b, events), |s.ends[id].accepted|;
               && |t.ends| == 4
               && t.ends[Peer(id)].delivered <= t.ends[id].accepted
               && place < |t.ends[id].accepted| && t.ends[id].accepted[place] == uds
               && (t.ends[id].unread == [] && TxValid(t.ends[id].tx) && Remaining(t.ends[id].tx) == [] ==>
                     place < |t.ends[Peer(id)].delivered| && t.ends[Peer(id)].delivered[place] == uds)
  {
    hide Linked, Ready, Transmit, Remaining;
    var uds := [sid] + payload;
    StepKeepsLinked(s, b, Send(id, uds, true));
    var sent := Step(s, b, Send(id, uds, true));
    ReadyEnd(s, b, id);
    IdleChannelAccepts(s.ends[id], TxConfigOf(id), uds);
    assert sent.ends[id].accepted == s.ends[id].accepted + [uds];
    PlayKeepsAccepted(sent, b, events, id);
    LinkedIsSafe(Play(sent, b, events), b, id);
  }

  /** From the socket to the ECU: the packet of a request, cut as TCP likes, comes out of DoIP as one
      indication; PduR's path for it names a channel of the gateway's CanTp; and once that channel has
      accepted it and nothing is on the way, whatever else happened, the peer behind that channel, which
      is the ECU of that address, has delivered the service identifier and the payload at their place. */
  lemma RequestEndToEnd(
    d: D.Session, chunks: seq<seq<byte>>, target: nat, id: nat, sid: byte, payload: seq<byte>,
    s: System, b: BlockSizes, events: seq<Event>)
    requires d.active && target < 0x1_0000 && D.FirstTarget(target, 0) == Some(id)
    requires 1 + |payload| <= 2036
    requires Flatten(chunks) == P.Packet(target, sid, payload) && D.Fits([], chunks)
    requires Linked(s, b) && Ready(s, b) && id < 2
    requires s.ends[id].tx.state.TxIdle? && s.slots[NodeOf(id)].None?
    ensures var outputs := D.HandleAll(d, D.Feed([], chunks).messages).outputs;
            && |outputs| == 1 && outputs[0].ToPduR?
            && var path := R.FirstPath(R.PATHS, R.DoipTp, outputs[0].doipRxPduId, R.RxIndication);
               path.Some? && path.value.dest == R.CanTp
               && NodeOf(id) == 0 && path.value.destPduId == TxConfigOf(id).canTpTxNsduId
               && var sent, place := Step(s, b, Send(id, outputs[0].uds, true)), |s.ends[id].accepted|;
                  Linked(sent, b)
                  && var t := Play(sent, b, events);
                     && |t.ends| == 4
                     && t.ends[Peer(id)].delivered <= t.ends[id].accepted
                     && (t.ends[id].unread == [] && TxValid(t.ends[id].tx) && Remaining(t.ends[id].tx) == [] ==>
                           place < |t.ends[Peer(id)].delivered|
                           && t.ends[Peer(id)].delivered[place] == [sid] + payload)
  {
    hide D.HandleAll, D.Feed, D.Fits, P.Packet, Linked, Ready, Step, Play, Remaining, TxValid, R.FirstPath;
    RequestRouted(d, chunks, target, id, sid, payload);
    AddressLeadsToChannel(target, id);
    RequestDelivered(s, b, id, sid, payload, events);
  }

  lemma RequestSent(s: System, b: BlockSizes, id: EndId, uds: seq<byte>)
    requires Reachable(s, b) && Linked(s, b) && Ready(s, b) && s.ends[id].tx.state.TxIdle?
    ensures var sent := Step(s, b, Send(id, uds, true));
            && Reachable(sent, b) && Linked(sent, b) && Ready(sent, b)
            && |sent.ends| == 4 && !Wedged(sent, id)
  {
    hide Linked, Phase, Step, SlotsOwned;
    var event := Send(id, uds, true);
    ReachableIsRegular(s, b);
    assert InPhase(s, b, id);
    FourEnds(s, b);
    StallsIffCtsLost(s, b, event, id);
    ReachableStep(s, b, event);
    LinkedIsReady(Step(s, b, event), b);
    FourEnds(Step(s, b, event), b);
  }

  /** And it gets there: under every fair schedule that loses no clear-to-send for it, however long the
      request and whatever block size the ECU grants, the ECU has delivered it, at its place. */
  lemma RequestArrives(s: System, b: BlockSizes, id: EndId, sid: byte, payload: seq<byte>, rounds: seq<seq<Event>>)
    requires Reachable(s, b) && Linked(s, b) && Ready(s, b) && id < 2
    requires s.ends[id].tx.state.TxIdle? && s.slots[NodeOf(id)].None?
    requires 1 + |payload| <= 2036
    requires var sent := Step(s, b, Send(id, [sid] + payload, true));
             && Linked(sent, b) && Ready(sent, b)
             && |rounds| > Load(sent) && (forall i :: 0 <= i < |rounds| ==> FairRound(rounds[i]))
             && !LosesCts(sent, b, Concat(rounds), id)
    ensures var sent := Step(s, b, Send(id, [sid] + payload, true));
            var t, place := Play(sent, b, Concat(rounds)), |s.ends[id].accepted|;
            && |t.ends| == 4 && t.ends[Peer(id)].delivered == t.ends[id].accepted
            && place < |t.ends[Peer(id)].delivered| && t.ends[Peer(id)].delivered[place] == [sid] + payload
  {
    hide Linked, Ready, Phase, Step, SlotsOwned, Load, FairRound, LosesCts, Wedged;
    RequestSent(s, b, id, [sid] + payload);
    FairScheduleFinishes(Step(s, b, Send(id, [sid] + payload, true)), b, rounds, id);
    RequestDelivered(s, b, id, sid, payload, Concat(rounds));
  }

  /** And there is always a way for the network to go on after which the ECU has delivered everything
      accepted for it, this request at its place. */
  lemma RequestCanArrive(s: System, b: BlockSizes, id: EndId, sid: byte, payload: seq<byte>) returns (events: seq<Event>)
    requires Reachable(s, b) && Linked(s, b) && Ready(s, b) && id < 2
    requires s.ends[id].tx.state.TxIdle? && s.slots[NodeOf(id)].None?
    requires 1 + |payload| <= 2036
    ensures var sent := Step(s, b, Send(id, [sid] + payload, true));
            && Linked(sent, b)
            && var t, place := Play(sent, b, events), |s.ends[id].accepted|;
               && |t.ends| == 4 && t.ends[Peer(id)].delivered == t.ends[id].accepted
               && place < |t.ends[Peer(id)].delivered| && t.ends[Peer(id)].delivered[place] == [sid] + payload
  {
    hide Linked, Ready, Phase, Step, SlotsOwned, Wedged;
    RequestSent(s, b, id, [sid] + payload);
    events := CanAlwaysComplete(Step(s, b, Send(id, [sid] + payload, true)), b, id);
    RequestDelivered(s, b, id, sid, payload, events);
  }

  lemma ReadyEnd(s: System, b: BlockSizes, e: EndId)
    requires Ready(s, b)
    ensures |s.ends| == 4 && TxValid(s.ends[e].tx)
  {}

  /** The answer, from an ECU's response to the master: with an active session, a response of at most
      2036 bytes is sent as one DoIP message that carries the ECU's address as its source and the
      tester's as its target, and that any DoIP framing takes back apart into the same bytes. */
  lemma ResponseEncapsulated(d: D.Session, channel: nat, uds: seq<byte>)
    requires d.active && channel < 2 && d.tester < 0x1_0000
    ensures D.Transmit(d, channel, uds).Some? <==> |uds| <= 2036
    ensures |uds| <= 2036 ==>
              var m := D.Message(D.TYPE_DIAG_MESSAGE, Be16(D.FirstSource(channel, 0).value) + Be16(d.tester) + uds);
              && D.Frame(D.Transmit(d, channel, uds).value) == D.Framing([m], [], D.Waiting)
              && U16(m.payload[2], m.payload[3]) == d.tester && m.payload[4..] == uds
              && D.FirstTarget(U16(m.payload[0], m.payload[1]), 0) == Some(channel)
  {
    assert D.FirstSource(channel, 0) == Some(if channel == 0 then 0x1234 else 0x5678);
    if |uds| <= 2036 {
      var source := D.FirstSource(channel, 0).value;
      var m := D.Message(D.TYPE_DIAG_MESSAGE, Be16(source) + Be16(d.tester) + uds);
      D.OneWhole(m);
      Be16RoundTrip(source);
      Be16RoundTrip(d.tester);
      assert m.payload[..4] == Be16(source) + Be16(d.tester);
      assert m.payload[0] == m.payload[..4][0] && m.payload[1] == m.payload[..4][1];
      assert m.payload[2] == m.payload[..4][2] && m.payload[3] == m.payload[..4][3];
      assert D.FirstTarget(0x1234, 0) == Some(0) && D.FirstTarget(0x5678, 1) == Some(1);
    }
  }
}
