/** The whole transport network: the gateway with its two channels, the Motion and the Lighting
    ECU with one each, and one CAN transmit slot per node, shared by the node's channels and by
    their flow control frames. Every interleaving of requests, main functions, driver confirmations
    and frame reads is a run; so is every refusal by the driver. */
module TransportSystem {

  import opened Bytes
  import opened CanTpModel
  import opened Segmentation
  import opened TransportLink

  // Ends 0 and 1 are the gateway's Motion and Lighting channels, 2 and 3 the ECUs they talk to.
  type EndId = e: nat | e < 4
  type NodeId = n: nat | n < 3

  function Peer(e: EndId): (p: EndId)
    ensures p != e
  {
    if e < 2 then e + 2 else e - 2
  }

  function NodeOf(e: EndId): NodeId {
    if e < 2 then 0 else e - 1
  }

  /** The block size each end grants its peer. */
  type BlockSizes = b: seq<byte> | |b| == 4 witness [0, 0, 0, 0]

  /** The tables of CanTp_Cfg.c: on every node all handles of a channel are the channel's index. */
  function ChannelOf(e: EndId): nat {
    if e == 1 then 1 else 0
  }

  function TxConfigOf(e: EndId): TxConfig {
    TxConfig(ChannelOf(e), ChannelOf(e), ChannelOf(e), ChannelOf(e))
  }

  function RxConfigOf(e: EndId, blockSizes: BlockSizes): RxConfig {
    RxConfig(ChannelOf(e), ChannelOf(e), ChannelOf(e), ChannelOf(e), BUFFER_SIZE, blockSizes[e], 0)
  }

  /** Can_TxPending of one node: the channel whose handle the confirmation will carry, and the frame. */
  datatype Pending = Pending(owner: EndId, frame: Frame)

  datatype System = System(ends: seq<End>, slots: seq<Option<Pending>>)

  datatype Event =
    | Send(e: EndId, sdu: seq<byte>, hwOk: bool)
    | MainFunction(e: EndId, hwOk: bool)
    | DriverConfirms(node: NodeId)
    | ReadFrame(e: EndId, hwOk: bool)

  const INITIAL := System([START, START, START, START], [None, None, None])

  ghost predicate Shape(s: System) {
    && |s.ends| == 4 && |s.slots| == 3
    && forall e: EndId :: TxValid(s.ends[e].tx)
  }

  ghost predicate Ready(s: System, b: BlockSizes) {
    Shape(s) && forall e: EndId :: RxValid(s.ends[e].rx, RxConfigOf(e, b))
  }

  /** Can_Write takes a frame if the node's slot is free and the hardware takes it. */
  predicate Accepts(s: System, e: EndId, hwOk: bool)
    requires |s.slots| == 3
  {
    s.slots[NodeOf(e)].None? && hwOk
  }

  /** Install the result of a step of end `e`. */
  function Apply(s: System, e: EndId, r: StepResult): (t: System)
    requires |s.ends| == 4 && |s.slots| == 3
    ensures |t.ends| == 4 && |t.slots| == 3
  {
    System(
      s.ends[e := r.end],
      if r.emitted.Some? then s.slots[NodeOf(e) := Some(Pending(e, r.emitted.value))] else s.slots)
  }

  function Step(s: System, b: BlockSizes, event: Event): (t: System)
    requires Ready(s, b)
    ensures |t.ends| == 4 && |t.slots| == 3
  {
    match event
    case Send(e, sdu, hwOk) =>
      Apply(s, e, SendStep(s.ends[e], TxConfigOf(e), sdu, Accepts(s, e, hwOk)))
    case MainFunction(e, hwOk) =>
      Apply(s, e, PollStep(s.ends[e], Accepts(s, e, hwOk)))
    case DriverConfirms(node) =>
      if s.slots[node].None? then
        s
      else
        var e := s.slots[node].value.owner;
        Apply(s.(slots := s.slots[node := None]), e, ConfirmStep(s.ends[e]))
    case ReadFrame(e, hwOk) =>
      var p := Peer(e);
      if s.ends[p].unread == [] then
        s
      else
        var f := s.ends[p].unread[0];
        var taken := s.(ends := s.ends[p := s.ends[p].(unread := s.ends[p].unread[1..])]);
        Apply(taken, e, ReadStep(s.ends[e], RxConfigOf(e, b), f, Accepts(s, e, hwOk)))
  }

  // ---------------------------------------------------------------------------------------------
  // All four directions at once.

  ghost predicate Linked(s: System, b: BlockSizes) {
    && |s.ends| == 4 && |s.slots| == 3
    && forall e: EndId :: Link(s.ends[e], s.ends[Peer(e)], RxConfigOf(Peer(e), b))
  }

  lemma LinkedIsReady(s: System, b: BlockSizes)
    requires Linked(s, b)
    ensures Ready(s, b)
  {
    forall e: EndId ensures TxValid(s.ends[e].tx) && RxValid(s.ends[e].rx, RxConfigOf(e, b)) {
      assert Link(s.ends[e], s.ends[Peer(e)], RxConfigOf(Peer(e), b));
      assert Link(s.ends[Peer(e)], s.ends[Peer(Peer(e))], RxConfigOf(Peer(Peer(e)), b));
    }
  }

  /** A step that replaces end `e` alone keeps all links if it keeps the two that `e` takes part in. */
  lemma ApplyKeepsLinked(s: System, b: BlockSizes, e: EndId, r: StepResult)
    requires Linked(s, b)
    requires Link(r.end, s.ends[Peer(e)], RxConfigOf(Peer(e), b))
    requires Link(s.ends[Peer(e)], r.end, RxConfigOf(e, b))
    ensures Linked(Apply(s, e, r), b)
  {}

  lemma SendKeepsLinked(s: System, b: BlockSizes, e: EndId, sdu: seq<byte>, accept: bool)
    requires Linked(s, b) && TxValid(s.ends[e].tx)
    ensures Linked(Apply(s, e, SendStep(s.ends[e], TxConfigOf(e), sdu, accept)), b)
  {
    hide Future;
    var p := Peer(e);
    assert Peer(p) == e;
    assert Link(s.ends[e], s.ends[p], RxConfigOf(p, b)) && Link(s.ends[p], s.ends[e], RxConfigOf(e, b));
    var r := SendStep(s.ends[e], TxConfigOf(e), sdu, accept);
    SendKeepsLink(s.ends[e], s.ends[p], RxConfigOf(p, b), TxConfigOf(e), sdu, accept);
    SendIsNoFlowControl(s.ends[e], TxConfigOf(e), sdu, accept);
    ReceiverMayTransmit(s.ends[p], s.ends[e], RxConfigOf(e, b), r.end);
    ApplyKeepsLinked(s, b, e, r);
  }

  lemma SendIsNoFlowControl(end: End, config: TxConfig, sdu: seq<byte>, accept: bool)
    requires TxValid(end.tx)
    ensures var r := SendStep(end, config, sdu, accept).end;
            && r.rx == end.rx && r.delivered == end.delivered
            && (r.unread == end.unread || exists f :: PciType(f) != PCI_FC && r.unread == end.unread + [f])
  {}

  lemma PollKeepsLinked(s: System, b: BlockSizes, e: EndId, accept: bool)
    requires Linked(s, b) && TxValid(s.ends[e].tx)
    ensures Linked(Apply(s, e, PollStep(s.ends[e], accept)), b)
  {
    hide Future;
    var p := Peer(e);
    assert Peer(p) == e;
    assert Link(s.ends[e], s.ends[p], RxConfigOf(p, b)) && Link(s.ends[p], s.ends[e], RxConfigOf(e, b));
    var r := PollStep(s.ends[e], accept);
    PollKeepsLink(s.ends[e], s.ends[p], RxConfigOf(p, b), accept);
    PollIsNoFlowControl(s.ends[e], accept);
    ReceiverMayTransmit(s.ends[p], s.ends[e], RxConfigOf(e, b), r.end);
    ApplyKeepsLinked(s, b, e, r);
  }

  lemma PollIsNoFlowControl(end: End, accept: bool)
    requires TxValid(end.tx)
    ensures var r := PollStep(end, accept).end;
            && r.rx == end.rx && r.delivered == end.delivered
            && (r.unread == end.unread || exists f :: PciType(f) != PCI_FC && r.unread == end.unread + [f])
  {}

  lemma ConfirmKeepsLinked(s: System, b: BlockSizes, e: EndId)
    requires Linked(s, b) && TxValid(s.ends[e].tx)
    ensures Linked(Apply(s, e, ConfirmStep(s.ends[e])), b)
  {
    hide Future;
    var p := Peer(e);
    assert Peer(p) == e;
    assert Link(s.ends[e], s.ends[p], RxConfigOf(p, b)) && Link(s.ends[p], s.ends[e], RxConfigOf(e, b));
    ConfirmKeepsLink(s.ends[e], s.ends[p], RxConfigOf(p, b));
    var r := ConfirmStep(s.ends[e]);
    ReceiverMayTransmit(s.ends[p], s.ends[e], RxConfigOf(e, b), r.end);
    ApplyKeepsLinked(s, b, e, r);
  }

  lemma ReadKeepsLinked(s: System, b: BlockSizes, e: EndId, hwOk: bool)
    requires Linked(s, b) && Ready(s, b)
    ensures Linked(Step(s, b, ReadFrame(e, hwOk)), b)
  {
    hide Future, ReadStep, SendStep, PollStep, ConfirmStep;
    var p := Peer(e);
    assert Peer(p) == e;
    assert Link(s.ends[e], s.ends[p], RxConfigOf(p, b)) && Link(s.ends[p], s.ends[e], RxConfigOf(e, b));
    if s.ends[p].unread != [] {
      var f, accept := s.ends[p].unread[0], Accepts(s, e, hwOk);
      var r := ReadStep(s.ends[e], RxConfigOf(e, b), f, accept);
      var source := s.ends[p].(unread := s.ends[p].unread[1..]);
      ReadKeepsOutgoing(s.ends[e], s.ends[p], RxConfigOf(p, b), RxConfigOf(e, b), f, accept);
      ReadKeepsIncoming(s.ends[p], s.ends[e], RxConfigOf(e, b), accept);
      assert Link(r.end, source, RxConfigOf(p, b)) by { FewerUnread(r.end, s.ends[p], RxConfigOf(p, b)); }
      var t := Step(s, b, ReadFrame(e, hwOk));
      forall d: EndId ensures Link(t.ends[d], t.ends[Peer(d)], RxConfigOf(Peer(d), b)) {
        hide Link;
        assert Link(s.ends[d], s.ends[Peer(d)], RxConfigOf(Peer(d), b));
      }
    }
  }

  lemma FewerUnread(s: End, r: End, config: RxConfig)
    requires Link(s, r, config) && r.unread != []
    ensures Link(s, r.(unread := r.unread[1..]), config)
  {}

  /** The two-party invariant holds initially and is kept by every step of the network. */
  lemma InitialLinked(b: BlockSizes)
    ensures Linked(INITIAL, b)
  {}

  lemma StepKeepsLinked(s: System, b: BlockSizes, event: Event)
    requires Linked(s, b)
    ensures Ready(s, b)
    ensures Linked(Step(s, b, event), b)
  {
    hide Link, SendStep, PollStep, ConfirmStep, ReadStep;
    LinkedIsReady(s, b);
    match event
    case Send(e, sdu, hwOk) => SendKeepsLinked(s, b, e, sdu, Accepts(s, e, hwOk));
    case MainFunction(e, hwOk) => PollKeepsLinked(s, b, e, Accepts(s, e, hwOk));
    case DriverConfirms(node) =>
      if s.slots[node].Some? {
        ConfirmKeepsLinked(s.(slots := s.slots[node := None]), b, s.slots[node].value.owner);
      }
    case ReadFrame(e, hwOk) => ReadKeepsLinked(s, b, e, hwOk);
  }
}
