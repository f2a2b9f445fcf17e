/** The transfer of an image through everything between the master and the target's flash core: every
    block goes as a DoIP packet over TCP, through the gateway's PDU router, across the transport network
    and into the target's diagnostic server, and the acknowledgement comes back the same way. */
module ImageDelivery {

  import opened Bytes
  import opened CanTpModel
  import opened TransportLink
  import opened TransportSystem
  import opened TransportSafety
  import opened TransportCompletion
  import opened TransportExchange
  import opened ImageTransfer
  import D = DoipModel
  import E = EndToEnd
  import F = FotaModel
  import G = DcmModel
  import M = OtaMaster
  import P = MasterPackets
  import R = Pdur
  import S = SotaModel

  /** The gateway's DoIP session and receive buffer, the transport network, and the target's server. */
  datatype Way = Way(doip: D.Session, rx: seq<byte>, network: System, server: Server)

  /** How one exchange is scheduled: what recv returns, the network's rounds on the way there, the
      target's ticks, and the network's rounds on the way back. */
  datatype Leg = Leg(chunks: seq<seq<byte>>, there: seq<seq<Event>>, ticks: seq<Tick>, back: seq<seq<Event>>)

  /** The system after an exchange, and the bytes that went to the master's socket. */
  datatype Carried = Carried(way: Way, answers: seq<seq<byte>>)

  // ---------------------------------------------------------------------------------------------
  // The composition.

  /** PduR_DoIPTpRxIndication for each indication: the requests made of the gateway's CanTp. The handle
      of a channel is its index. */
  function Requests(outputs: seq<D.Output>): seq<Event> {
    if outputs == [] then
      []
    else
      var o := outputs[0];
      var path := if o.ToPduR? then R.FirstPath(R.PATHS, R.DoipTp, o.doipRxPduId, R.RxIndication) else None;
      (if path.Some? && path.value.dest.CanTp? && path.value.destPduId < 2 then
         [Send(path.value.destPduId, o.uds, true)]
       else
         [])
      + Requests(outputs[1..])
  }

  /** PduR_CanTpRxIndication for each SDU that channel `e` of the gateway delivered: the messages DoIP
      sends. */
  function Answers(d: D.Session, e: EndId, b: BlockSizes, sdus: seq<seq<byte>>): seq<seq<byte>> {
    if sdus == [] then
      []
    else
      var path := R.FirstPath(R.PATHS, R.CanTp, RxConfigOf(e, b).pduRRxPduId, R.RxIndication);
      var sent := if path.Some? && path.value.dest.DoipTp? then D.Transmit(d, path.value.destPduId, sdus[0]) else None;
      (if sent.Some? then [sent.value] else []) + Answers(d, e, b, sdus[1..])
  }

  /** The responses of the server behind end `e`, given to its CanTp. */
  function Responses(e: EndId, responses: seq<seq<byte>>): seq<Event> {
    seq(|responses|, i requires 0 <= i < |responses| => Send(e, responses[i], true))
  }

  /** What end `e` has delivered from one state to a later one. */
  function NewlyDelivered(before: System, after: System, e: EndId): seq<seq<byte>>
    requires |before.ends| == 4 && |after.ends| == 4
  {
    if |before.ends[e].delivered| <= |after.ends[e].delivered| then
      after.ends[e].delivered[|before.ends[e].delivered|..]
    else
      []
  }

  /** The target's server with the PDUs that arrived. Requests for other services are not its concern. */
  function Work(s: Server, pdus: seq<seq<byte>>, ticks: seq<Tick>, failing: set<nat>): Exchange {
    var latched := Arrivals(s, pdus);
    if Latched(latched) then RunTicks(latched, ticks, failing) else Exchange(latched, [])
  }

  /** One exchange over channel `e` of the gateway: what arrives is framed and handled, the requests
      that come of it are sent and the network runs; the target works on what its channel delivered; its
      responses are sent and the network runs again; what arrives at the gateway goes to the master. */
  ghost function Carry(w: Way, b: BlockSizes, e: EndId, leg: Leg, failing: set<nat>): (c: Carried)
    requires Linked(w.network, b)
    ensures Linked(c.way.network, b)
  {
    var framed := D.Feed(w.rx, leg.chunks);
    var handled := D.HandleAll(w.doip, framed.messages);
    var there := Play(w.network, b, Requests(handled.outputs) + Concat(leg.there));
    FourEnds(w.network, b);
    FourEnds(there, b);
    var x := Work(w.server, NewlyDelivered(w.network, there, Peer(e)), leg.ticks, failing);
    var back := Play(there, b, Responses(Peer(e), x.responses) + Concat(leg.back));
    FourEnds(back, b);
    Carried(Way(handled.session, framed.rest, back, x.server),
            Answers(handled.session, e, b, NewlyDelivered(there, back, e)))
  }

  // ---------------------------------------------------------------------------------------------
  // One block.

  /** Between two exchanges, the target ready for the block with counter `sn`. */
  ghost predicate Waiting(w: Way, b: BlockSizes, e: EndId, sn: byte, written: seq<byte>, total: nat) {
    && w.doip.active && w.rx == []
    && AtRest(w.network, b, e) && ImageTransfer.Ready(w.server, sn, written, total)
  }

  /** A schedule that carries the block with counter `sn` for `target`: TCP cuts the packet into chunks
      that fit, the network's rounds suffice and lose no clear-to-send, and the target's ticks take the
      exchange to its end. */
  ghost predicate CarriesBlock(s: System, b: BlockSizes, e: EndId, target: nat, sn: byte, block: seq<byte>, leg: Leg)
    requires Linked(s, b)
  {
    var uds := [SID_TRANSFER_DATA] + ([sn] + block);
    && Flatten(leg.chunks) == P.Packet(target, SID_TRANSFER_DATA, [sn] + block) && D.Fits([], leg.chunks)
    && Carries(s, b, e, uds, leg.there)
    && PhaseAfter(0, leg.ticks) == 3
    && Carries(Crossing(s, b, e, uds, leg.there), b, Peer(e), [POSITIVE_TRANSFER_DATA, sn], leg.back)
  }

  /** What the master makes of a message it receives while it waits for an acknowledgement. */
  predicate ReadAsSuccess(m: seq<byte>) {
    && |m| == 14 && P.FirstHeader(m, 14, 0)
    && P.VerdictAt(m, 14, 12, POSITIVE_TRANSFER_DATA, 0) == P.Returns(0)
  }

  lemma OneRequest(id: nat, uds: seq<byte>)
    requires id < 2
    ensures Requests([D.ToPduR(id, uds)]) == [Send(id, uds, true)]
  {
    var outputs := [D.ToPduR(id, uds)];
    assert outputs[1..] == [] && Requests([]) == [];
  }

  lemma OneAnswer(d: D.Session, e: EndId, b: BlockSizes, uds: seq<byte>)
    requires e < 2 && D.Transmit(d, e, uds).Some?
    ensures Answers(d, e, b, [uds]) == [D.Transmit(d, e, uds).value]
  {
    hide D.Transmit;
    assert [uds][1..] == [] && Answers(d, e, b, []) == [];
  }

  lemma OneMore(before: System, after: System, e: EndId, sdu: seq<byte>)
    requires |before.ends| == 4 && |after.ends| == 4
    requires after.ends[e].delivered == before.ends[e].delivered + [sdu]
    ensures NewlyDelivered(before, after, e) == [sdu]
  {}

  /** The target works off the block it was delivered, and answers it once. */
  lemma BlockWorkedOff(s: Server, sn: byte, written: seq<byte>, block: seq<byte>, total: nat, ticks: seq<Tick>, failing: set<nat>)
    requires ImageTransfer.Ready(s, sn, written, total) && 1 <= |block| <= MASTER_BLOCK && |written| + |block| <= total
    requires S.FirstBad(0, total, failing).None? && PhaseAfter(0, ticks) == 3
    ensures var x := Work(s, [[SID_TRANSFER_DATA] + ([sn] + block)], ticks, failing);
            && x.responses == [[POSITIVE_TRANSFER_DATA, sn]]
            && ImageTransfer.Ready(x.server, G.NextCounter(sn), written + block, total)
  {
    hide ImageTransfer.Ready, AtPhase, RunTicks, Latched, S.FirstBad, RxIndication;
    var pdu := [SID_TRANSFER_DATA] + ([sn] + block);
    assert Arrivals(s, [pdu]) == Arrivals(RxIndication(s, pdu), [pdu][1..]) == RxIndication(s, pdu);
    LatchedBlock(s, sn, written, block, total);
    AtPhaseIsLatched(RxIndication(s, pdu), 0, sn, written, block, total);
    BlockUnderEverySchedule(RxIndication(s, pdu), 0, sn, written, block, total, ticks, failing);
    CompletedBlock(Work(s, [pdu], ticks, failing).server, sn, written, block, total);
  }

  /** From the master and back to it: under every such schedule the block is written once, its
      acknowledgement is the one message the master gets and reads as success, and everything is as
      before for the next block. */
  lemma BlockDelivered(w: Way, b: BlockSizes, target: nat, e: EndId, sn: byte, written: seq<byte>, block: seq<byte>,
                       total: nat, leg: Leg, failing: set<nat>)
    requires target < 0x1_0000 && D.FirstTarget(target, 0) == Some(e)
    requires 1 <= |block| <= MASTER_BLOCK && |written| + |block| <= total && S.FirstBad(0, total, failing).None?
    requires Linked(w.network, b) && Waiting(w, b, e, sn, written, total)
    requires CarriesBlock(w.network, b, e, target, sn, block, leg)
    ensures var c := Carry(w, b, e, leg, failing);
            && Waiting(c.way, b, e, G.NextCounter(sn), written + block, total)
            && |c.answers| == 1 && ReadAsSuccess(c.answers[0])
  {
    hide D.HandleAll, D.Feed, D.Fits, D.Transmit, P.Packet, Linked, AtRest, ImageTransfer.Ready, Carries, Work, PhaseAfter, S.FirstBad,
         R.FirstPath, ReadAsSuccess, Requests, Answers, NewlyDelivered;
    var uds, ack := [SID_TRANSFER_DATA] + ([sn] + block), [POSITIVE_TRANSFER_DATA, sn];
    E.AddressLeadsToChannel(target, e);
    E.RequestRouted(w.doip, leg.chunks, target, e, SID_TRANSFER_DATA, [sn] + block);
    OneRequest(e, uds);
    CrossesOnce(w.network, b, e, uds, leg.there);
    var there := Crossing(w.network, b, e, uds, leg.there);
    FourEnds(w.network, b);
    FourEnds(there, b);
    OneMore(w.network, there, Peer(e), uds);
    BlockWorkedOff(w.server, sn, written, block, total, leg.ticks, failing);
    assert Responses(Peer(e), [ack]) == [Send(Peer(e), ack, true)];
    RestOfBoth(there, b, e);
    CrossesOnce(there, b, Peer(e), ack, leg.back);
    var back := Crossing(there, b, Peer(e), ack, leg.back);
    FourEnds(back, b);
    RestOfBoth(back, b, Peer(e));
    assert Peer(Peer(e)) == e;
    OneMore(there, back, e, ack);
    var d := D.Session(true, P.RPI_ADDRESS);
    AcknowledgementSucceeds(d, e, sn);
    OneAnswer(d, e, b, ack);
  }

  lemma AcknowledgementSucceeds(d: D.Session, channel: nat, sn: byte)
    requires d.active && channel < 2
    ensures var sent := D.Transmit(d, channel, [POSITIVE_TRANSFER_DATA, sn]); sent.Some? && ReadAsSuccess(sent.value)
  {
    hide D.Transmit;
    AcknowledgementRead(d, channel, sn);
  }

  lemma RestOfBoth(s: System, b: BlockSizes, e: EndId)
    requires AtRest(s, b, e)
    ensures AtRest(s, b, Peer(e))
  {}

  // ---------------------------------------------------------------------------------------------
  // The image.

  /** The system after the first n legs, and everything the master got. */
  ghost function Convey(w: Way, b: BlockSizes, e: EndId, legs: seq<Leg>, n: nat, failing: set<nat>): (c: Carried)
    requires Linked(w.network, b) && n <= |legs|
    ensures Linked(c.way.network, b)
    decreases n
  {
    if n == 0 then
      Carried(w, [])
    else
      var before := Convey(w, b, e, legs, n - 1, failing);
      var c := Carry(before.way, b, e, legs[n - 1], failing);
      Carried(c.way, before.answers + c.answers)
  }

  /** Leg i carries the master's block i from where the legs before it have led. */
  ghost predicate CarriesImage(w: Way, b: BlockSizes, e: EndId, target: nat, image: seq<byte>, legs: seq<Leg>, n: nat, failing: set<nat>)
    requires Linked(w.network, b) && n <= |legs| && n <= M.BlockCount(image)
  {
    forall i :: 0 <= i < n ==>
      CarriesBlock(Convey(w, b, e, legs, i, failing).way.network, b, e, target,
                   M.BlockAt(image, i).sn, M.BlockAt(image, i).data, legs[i])
  }

  /** After routing activation and an accepted download, on a network just initialised, the transfer
      can begin. */
  lemma ReadyToBegin(d: D.Session, b: BlockSizes, e: EndId, fota: F.Fota, rx: seq<byte>, size: nat)
    requires F.FotaValid(fota) && 1 <= size <= S.BANK_SIZE
    ensures Linked(INITIAL, b)
    ensures var activated := D.HandleAll(d, D.Frame(P.ACTIVATION_PACKET).messages).session;
            var server := Server(DownloadAccepted, 1, RequestIdle, rx, F.StartDownload(fota, size, true, true).fota);
            Waiting(Way(activated, D.Frame(P.ACTIVATION_PACKET).rest, INITIAL, server), b, e, 1, [], size)
  {
    hide D.HandleAll, D.Frame, F.StartDownload, ImageTransfer.Ready, AtRest, Linked;
    P.RoutingActivationWorks(d, 0);
    InitialAtRest(b, e);
    DownloadMakesReady(fota, rx, size, true, true);
  }

  lemma LegCarries(w: Way, b: BlockSizes, e: EndId, target: nat, image: seq<byte>, legs: seq<Leg>, n: nat, failing: set<nat>)
    requires Linked(w.network, b) && 1 <= n <= |legs| && n <= M.BlockCount(image)
    requires CarriesImage(w, b, e, target, image, legs, n, failing)
    ensures CarriesImage(w, b, e, target, image, legs, n - 1, failing)
    ensures CarriesBlock(Convey(w, b, e, legs, n - 1, failing).way.network, b, e, target,
                         M.BlockAt(image, n - 1).sn, M.BlockAt(image, n - 1).data, legs[n - 1])
  {
    hide CarriesBlock, Linked, Convey;
  }

  /** The counter of the block after the first n, and what the first n blocks carry. */
  function Counter(n: nat): byte {
    (n + 1) % 256
  }

  function Prefix(image: seq<byte>, n: nat): seq<byte> {
    image[..if n * M.BLOCK <= |image| then n * M.BLOCK else |image|]
  }

  lemma PrefixExtends(image: seq<byte>, n: nat)
    requires 1 <= n <= M.BlockCount(image)
    ensures var block := M.BlockAt(image, n - 1);
            && block.sn == Counter(n - 1) && G.NextCounter(block.sn) == Counter(n)
            && 1 <= |block.data| <= MASTER_BLOCK && Prefix(image, n - 1) + block.data == Prefix(image, n)
            && |Prefix(image, n)| <= |image| && (n == M.BlockCount(image) ==> Prefix(image, n) == image)
  {
    BlockExtends(image, n);
    assert image[..|image|] == image;
  }

  /** For every image, however TCP cuts the packets, under every fair schedule of the network that loses
      no clear-to-send for a block, and every schedule of the target that lets its exchanges finish: each
      block the master sends is answered by one message that it reads as success, across every wrap of
      the counter, and what the target's flash core has received is the image so far, in the end exactly
      the image. */
  lemma {:induction false} ImageDelivered(w: Way, b: BlockSizes, target: nat, e: EndId, image: seq<byte>, legs: seq<Leg>,
                                          n: nat, failing: set<nat>)
    requires target < 0x1_0000 && D.FirstTarget(target, 0) == Some(e)
    requires Linked(w.network, b) && Waiting(w, b, e, 1, [], |image|) && S.FirstBad(0, |image|, failing).None?
    requires n <= M.BlockCount(image) && n <= |legs| && CarriesImage(w, b, e, target, image, legs, n, failing)
    ensures var c := Convey(w, b, e, legs, n, failing);
            && |c.answers| == n && (forall i :: 0 <= i < n ==> ReadAsSuccess(c.answers[i]))
            && Waiting(c.way, b, e, Counter(n), Prefix(image, n), |image|)
    ensures n == M.BlockCount(image) ==> Prefix(image, n) == image
    decreases n
  {
    hide Waiting, Carry, CarriesBlock, CarriesImage, Linked, S.FirstBad, D.FirstTarget, ReadAsSuccess;
    if n > 0 {
      LegCarries(w, b, e, target, image, legs, n, failing);
      ImageDelivered(w, b, target, e, image, legs, n - 1, failing);
      var before := Convey(w, b, e, legs, n - 1, failing);
      var block := M.BlockAt(image, n - 1);
      PrefixExtends(image, n);
      hide Counter, Prefix, M.BlockAt, M.BlockCount;
      BlockDelivered(before.way, b, target, e, block.sn, Prefix(image, n - 1), block.data, |image|, legs[n - 1], failing);
    }
  }

  // ---------------------------------------------------------------------------------------------
  // There is always a way.

  lemma {:induction false} ConveyOfPrefix(w: Way, b: BlockSizes, e: EndId, legs: seq<Leg>, leg: Leg, n: nat, failing: set<nat>)
    requires Linked(w.network, b) && n <= |legs|
    ensures Convey(w, b, e, legs + [leg], n, failing) == Convey(w, b, e, legs, n, failing)
    decreases n
  {
    hide Carry, Linked;
    if n > 0 {
      ConveyOfPrefix(w, b, e, legs, leg, n - 1, failing);
    }
  }

  lemma PacketFits(target: nat, sid: byte, payload: seq<byte>)
    requires |payload| <= MASTER_BLOCK + 1
    ensures var pkt := P.Packet(target, sid, payload); Flatten([pkt]) == pkt && D.Fits([], [pkt])
  {
    var pkt := P.Packet(target, sid, payload);
    assert |pkt| == |payload| + 13;
    assert Flatten([pkt]) == pkt + Flatten([]);
    hide D.Frame, P.Packet;
  }

  /** A packet in one piece, plain rounds of the network, and the target's server, writer and server. */
  lemma PlainLeg(w: Way, b: BlockSizes, target: nat, e: EndId, sn: byte, written: seq<byte>, block: seq<byte>,
                 total: nat) returns (leg: Leg)
    requires e < 2 && 1 <= |block| <= MASTER_BLOCK && Linked(w.network, b) && Waiting(w, b, e, sn, written, total)
    ensures CarriesBlock(w.network, b, e, target, sn, block, leg)
  {
    hide Linked, AtRest, ImageTransfer.Ready, Carries, Crossing, PhaseAfter, D.Fits, P.Packet;
    var uds := [SID_TRANSFER_DATA] + ([sn] + block);
    PacketFits(target, SID_TRANSFER_DATA, [sn] + block);
    var there := PlainRoundsCarry(w.network, b, e, uds);
    CrossesOnce(w.network, b, e, uds, there);
    RestOfBoth(Crossing(w.network, b, e, uds, there), b, e);
    var back := PlainRoundsCarry(Crossing(w.network, b, e, uds, there), b, Peer(e), [POSITIVE_TRANSFER_DATA, sn]);
    FairScheduleCompletes([], [], [], []);
    var ticks := [] + [ServerTick] + [] + [WriterTick] + [] + [ServerTick] + [];
    leg := Leg([P.Packet(target, SID_TRANSFER_DATA, [sn] + block)], there, ticks, back);
  }

  /** From a network at rest, for every image, whatever block sizes the ECUs grant, there are schedules
      that carry it to its end: plain rounds do. */
  lemma {:induction false} ImageCanBeDelivered(w: Way, b: BlockSizes, target: nat, e: EndId, image: seq<byte>,
                                               n: nat, failing: set<nat>) returns (legs: seq<Leg>)
    requires target < 0x1_0000 && D.FirstTarget(target, 0) == Some(e)
    requires Linked(w.network, b) && Waiting(w, b, e, 1, [], |image|) && S.FirstBad(0, |image|, failing).None?
    requires n <= M.BlockCount(image)
    ensures |legs| == n && CarriesImage(w, b, e, target, image, legs, n, failing)
    decreases n
  {
    hide Waiting, Carry, CarriesBlock, Linked, S.FirstBad, Convey, P.Packet;
    legs := [];
    if n > 0 {
      var before := ImageCanBeDelivered(w, b, target, e, image, n - 1, failing);
      ImageDelivered(w, b, target, e, image, before, n - 1, failing);
      PrefixExtends(image, n);
      E.AddressLeadsToChannel(target, e);
      var block, way := M.BlockAt(image, n - 1), Convey(w, b, e, before, n - 1, failing).way;
      var leg := PlainLeg(way, b, target, e, block.sn, Prefix(image, n - 1), block.data, |image|);
      legs := before + [leg];
      forall i | 0 <= i < n
        ensures CarriesBlock(Convey(w, b, e, legs, i, failing).way.network, b, e, target,
                             M.BlockAt(image, i).sn, M.BlockAt(image, i).data, legs[i]) {
        ConveyOfPrefix(w, b, e, before, leg, i, failing);
      }
    }
  }
}
