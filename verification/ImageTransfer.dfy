/** The transfer of a whole image: the master's TransferData loop, the target's diagnostic server with
    its block counter and its INITIAL/PENDING polling, and the cyclic writer behind FotaHandler. */
module ImageTransfer {

  import opened Bytes
  import F = FotaModel
  import S = SotaModel
  import Crc32
  import D = DoipModel
  import G = DcmModel
  import M = OtaMaster
  import P = MasterPackets

  const SID_TRANSFER_DATA: byte := 0x36
  const POSITIVE_TRANSFER_DATA: byte := 0x76
  const MASTER_BLOCK := M.BLOCK
  const MAX_REQUEST := 1026
  const RX_BUFFER_SIZE := 2048

  const NRC_PROGRAMMING: byte := 0x72

  // ---------------------------------------------------------------------------------------------
  // The target's server, as far as TransferData goes.

  datatype ServerState = DownloadAccepted | TransferInProgress | ServerFailed | OtherState

  datatype RequestState = RequestIdle | RequestNew | RequestProcessing

  datatype Server = Server(state: ServerState, expected: byte, request: RequestState, rx: seq<byte>, fota: F.Fota)

  datatype Reply = Reply(server: Server, response: Option<seq<byte>>)

  function Negative(nrc: byte): Option<seq<byte>> {
    Some(G.Negative(SID_TRANSFER_DATA, nrc))
  }

  /** Dcm_RxIndication: a request is latched only while none is being worked on. */
  function RxIndication(s: Server, pdu: seq<byte>): (r: Server)
    ensures Latched(s) && TransferRequest(pdu) ==> Latched(r)
    ensures !s.request.RequestIdle? ==> r == s
  {
    if |pdu| > RX_BUFFER_SIZE || !s.request.RequestIdle? then s
    else s.(rx := pdu, request := RequestNew)
  }

  /** Requests that arrive one after the other, with no main function in between. */
  function Arrivals(s: Server, pdus: seq<seq<byte>>): Server
    decreases |pdus|
  {
    if pdus == [] then s else Arrivals(RxIndication(s, pdus[0]), pdus[1..])
  }

  /** An idle server latches the first of them that fits its buffer, and none of the later ones; a
      busy server none at all. */
  lemma {:induction false} FirstArrivalWins(s: Server, pdus: seq<seq<byte>>, k: nat)
    requires k <= |pdus| && forall j :: 0 <= j < k ==> |pdus[j]| > RX_BUFFER_SIZE
    requires k < |pdus| ==> |pdus[k]| <= RX_BUFFER_SIZE
    ensures Arrivals(s, pdus) ==
            if s.request.RequestIdle? && k < |pdus| then s.(rx := pdus[k], request := RequestNew) else s
    decreases |pdus|
  {
    if pdus != [] {
      var next := RxIndication(s, pdus[0]);
      if k > 0 {
        FirstArrivalWins(next, pdus[1..], k - 1);
      } else {
        BusyIgnores(next, pdus[1..]);
      }
    }
  }

  lemma {:induction false} BusyIgnores(s: Server, pdus: seq<seq<byte>>)
    requires !s.request.RequestIdle?
    ensures Arrivals(s, pdus) == s
    decreases |pdus|
  {
    if pdus != [] {
      BusyIgnores(s, pdus[1..]);
    }
  }

  predicate TransferRequest(pdu: seq<byte>) {
    |pdu| > 0 && pdu[0] == SID_TRANSFER_DATA
  }

  /** Dcm_HandleTransferData. */
  function HandleTransferData(s: Server, op: F.OpStatus): (r: Reply)
    requires F.FotaValid(s.fota) && TransferRequest(s.rx) && (!op.Initial? ==> |s.rx| >= 2)
    ensures F.FotaValid(r.server.fota) && r.server.rx == s.rx
  {
    var refused := s.(request := RequestIdle);
    if op.Initial? && |s.rx| < 2 then
      Reply(refused, Negative(G.NRC_LENGTH))
    else if op.Initial? && |s.rx| > MAX_REQUEST then
      Reply(refused, Negative(G.NRC_RANGE))
    else if op.Initial? && !s.state.DownloadAccepted? && !s.state.TransferInProgress? then
      Reply(refused, Negative(G.NRC_SEQUENCE))
    else if op.Initial? && s.rx[1] != s.expected then
      Reply(refused.(state := ServerFailed), Negative(G.NRC_SEQUENCE))
    else
      var w := F.ProcessWrite(s.fota, op, s.rx[2..], s.rx[1]);
      if w.ret.WritePending? then
        Reply(s.(fota := w.fota, request := RequestProcessing), None)
      else if w.ret.WriteFailed? then
        Reply(refused.(fota := w.fota, state := ServerFailed), Negative(NRC_PROGRAMMING))
      else
        Reply(refused.(fota := w.fota, state := TransferInProgress, expected := G.NextCounter(s.expected)),
              Some([POSITIVE_TRANSFER_DATA, s.rx[1]]))
  }

  predicate Latched(s: Server) {
    && F.FotaValid(s.fota)
    && (!s.request.RequestIdle? ==> TransferRequest(s.rx))
    && (s.request.RequestProcessing? ==> |s.rx| >= 2)
  }

  /** Dcm_MainFunction with Dcm_ProcessRequest. */
  function DcmMain(s: Server): (r: Reply)
    requires Latched(s)
    ensures Latched(r.server)
  {
    if s.request.RequestNew? then HandleTransferData(s, F.Initial)
    else if s.request.RequestProcessing? then HandleTransferData(s, F.Pending)
    else Reply(s, None)
  }

  /** One turn of the target's scheduler. */
  datatype Tick = ServerTick | WriterTick

  datatype Exchange = Exchange(server: Server, responses: seq<seq<byte>>)

  function RunTicks(s: Server, ticks: seq<Tick>, failing: set<nat>): (x: Exchange)
    requires Latched(s)
    ensures Latched(x.server)
    decreases |ticks|
  {
    if ticks == [] then
      Exchange(s, [])
    else
      var r := if ticks[0].ServerTick? then DcmMain(s) else Reply(s.(fota := F.CyclicMain(s.fota, failing)), None);
      var rest := RunTicks(r.server, ticks[1..], failing);
      Exchange(rest.server, (if r.response.Some? then [r.response.value] else []) + rest.responses)
  }

  // ---------------------------------------------------------------------------------------------
  // One block, under every schedule.

  /** A server ready for the block with counter `sn`, whose core holds `written`. */
  ghost predicate Ready(s: Server, sn: byte, written: seq<byte>, total: nat) {
    && Latched(s) && s.request.RequestIdle? && s.expected == sn
    && (s.state.DownloadAccepted? || s.state.TransferInProgress?)
    && s.fota.initialized && s.fota.downloadStarted && s.fota.chunk.ChunkIdle? && !s.fota.verified
    && s.fota.core.state.Receiving? && s.fota.core.received == written && s.fota.core.imageLength == total
  }

  /** The server after an accepted download is ready for the first block; a download is accepted
      exactly for 1 byte up to a whole bank, when bank and erase are in order. */
  lemma DownloadMakesReady(fota: F.Fota, rx: seq<byte>, size: nat, bankOk: bool, eraseOk: bool)
    requires F.FotaValid(fota)
    ensures var r := F.StartDownload(fota, size, bankOk, eraseOk);
            && (r.ok <==> 1 <= size <= S.BANK_SIZE && bankOk && eraseOk)
            && (r.ok ==> Ready(Server(DownloadAccepted, 1, RequestIdle, rx, r.fota), 1, [], size))
  {}

  /** How far an exchange has come: request latched, chunk handed over, chunk written, answered. */
  function PhaseAfter(phase: nat, ticks: seq<Tick>): nat
    decreases |ticks|
  {
    if ticks == [] then
      phase
    else
      var moves := if ticks[0].ServerTick? then phase == 0 || phase == 2 else phase == 1;
      PhaseAfter(if moves then phase + 1 else phase, ticks[1..])
  }

  ghost predicate AtPhase(s: Server, phase: nat, sn: byte, written: seq<byte>, block: seq<byte>, total: nat) {
    if phase == 3 then
      Ready(s, G.NextCounter(sn), written + block, total)
    else
      && Latched(s) && s.expected == sn && s.rx == [SID_TRANSFER_DATA, sn] + block
      && (s.state.DownloadAccepted? || s.state.TransferInProgress?)
      && s.fota.initialized && s.fota.downloadStarted && !s.fota.verified
      && s.fota.core.state.Receiving? && s.fota.core.imageLength == total
      && (if phase == 0 then s.request.RequestNew? else s.request.RequestProcessing?)
      && s.fota.core.received == (if phase == 2 then written + block else written)
      && (phase == 0 ==> s.fota.chunk.ChunkIdle?)
      && (phase == 1 ==> s.fota.chunk.Received? && s.fota.buffer[..s.fota.length] == block)
      && (phase == 2 ==> s.fota.chunk.Done?)
  }

  lemma ServerTickMoves(s: Server, phase: nat, sn: byte, written: seq<byte>, block: seq<byte>, total: nat)
    requires phase <= 3 && 1 <= |block| <= MASTER_BLOCK && AtPhase(s, phase, sn, written, block, total)
    ensures var r := DcmMain(s);
            && AtPhase(r.server, if phase == 0 || phase == 2 then phase + 1 else phase, sn, written, block, total)
            && r.response == if phase == 2 then Some([POSITIVE_TRANSFER_DATA, sn]) else None
  {}

  lemma WriterTickMoves(s: Server, phase: nat, sn: byte, written: seq<byte>, block: seq<byte>, total: nat, failing: set<nat>)
    requires phase <= 3 && |block| >= 1 && AtPhase(s, phase, sn, written, block, total)
    requires |written| + |block| <= total && S.FirstBad(0, total, failing).None?
    ensures var t := s.(fota := F.CyclicMain(s.fota, failing));
            AtPhase(t, if phase == 1 then 2 else phase, sn, written, block, total)
  {
    if phase == 1 {
      WriteSucceeds(s.fota.core, block, failing);
    }
  }

  lemma WriteSucceeds(c: S.Core, block: seq<byte>, failing: set<nat>)
    requires S.CoreValid(c) && c.state.Receiving? && |block| >= 1
    requires |c.received| + |block| <= c.imageLength && S.FirstBad(0, c.imageLength, failing).None?
    ensures var o := S.WriteChunk(c, block, failing);
            && o.result == S.Ok && o.core.state.Receiving?
            && o.core.received == c.received + block && o.core.imageLength == c.imageLength
  {
    S.NoBadBelow(0, |c.received| + |block|, c.imageLength, failing);
    S.NoBadAbove(0, |c.flash|, |c.received| + |block|, failing);
  }

  /** For every schedule the exchange is exactly as far as the schedule takes it, the server answers
      once, positively and with the block's counter, when it gets to the end, and the core then holds
      the block once more than before. */
  lemma {:induction false} BlockUnderEverySchedule(s: Server, phase: nat, sn: byte, written: seq<byte>, block: seq<byte>,
                                                   total: nat, ticks: seq<Tick>, failing: set<nat>)
    requires phase <= 3 && 1 <= |block| <= MASTER_BLOCK && AtPhase(s, phase, sn, written, block, total)
    requires |written| + |block| <= total && S.FirstBad(0, total, failing).None?
    ensures var x, after := RunTicks(s, ticks, failing), PhaseAfter(phase, ticks);
            && phase <= after <= 3 && AtPhase(x.server, after, sn, written, block, total)
            && x.responses == if phase < 3 && after == 3 then [[POSITIVE_TRANSFER_DATA, sn]] else []
    decreases |ticks|
  {
    hide DcmMain, AtPhase, F.CyclicMain, Latched, S.FirstBad;
    AtPhaseIsLatched(s, phase, sn, written, block, total);
    if ticks != [] {
      if ticks[0].ServerTick? {
        ServerTickMoves(s, phase, sn, written, block, total);
        BlockUnderEverySchedule(DcmMain(s).server, if phase == 0 || phase == 2 then phase + 1 else phase,
                                sn, written, block, total, ticks[1..], failing);
      } else {
        WriterTickMoves(s, phase, sn, written, block, total, failing);
        BlockUnderEverySchedule(s.(fota := F.CyclicMain(s.fota, failing)), if phase == 1 then 2 else phase,
                                sn, written, block, total, ticks[1..], failing);
      }
    }
  }

  lemma AtPhaseIsLatched(s: Server, phase: nat, sn: byte, written: seq<byte>, block: seq<byte>, total: nat)
    requires AtPhase(s, phase, sn, written, block, total)
    ensures Latched(s) && F.FotaValid(s.fota)
  {}

  /** A schedule that polls the server, then lets the writer run, then polls the server again, with
      anything in between, completes an exchange. */
  lemma {:induction false} PhaseConcat(phase: nat, s: seq<Tick>, t: seq<Tick>)
    ensures PhaseAfter(phase, s + t) == PhaseAfter(PhaseAfter(phase, s), t)
    ensures phase <= PhaseAfter(phase, s) && (phase <= 3 ==> PhaseAfter(phase, s) <= 3)
    decreases |s|
  {
    if s == [] {
      assert s + t == t;
    } else {
      assert (s + t)[1..] == s[1..] + t;
      var moves := if s[0].ServerTick? then phase == 0 || phase == 2 else phase == 1;
      PhaseConcat(if moves then phase + 1 else phase, s[1..], t);
    }
  }

  lemma FairScheduleCompletes(a: seq<Tick>, b: seq<Tick>, c: seq<Tick>, d: seq<Tick>)
    ensures PhaseAfter(0, a + [ServerTick] + b + [WriterTick] + c + [ServerTick] + d) == 3
  {
    var t3 := a + [ServerTick] + b + [WriterTick] + c + [ServerTick];
    PhaseConcat(0, t3, d);
    var t2 := a + [ServerTick] + b + [WriterTick] + c;
    PhaseConcat(0, t2, [ServerTick]);
    var t1 := a + [ServerTick] + b + [WriterTick];
    PhaseConcat(0, t1, c);
    var t0 := a + [ServerTick] + b;
    PhaseConcat(0, t0, [WriterTick]);
    PhaseConcat(0, a + [ServerTick], b);
    PhaseConcat(0, a, [ServerTick]);
    OneTick(PhaseAfter(0, a), ServerTick);
    OneTick(PhaseAfter(0, t0), WriterTick);
    OneTick(PhaseAfter(0, t2), ServerTick);
    PhaseConcat(PhaseAfter(0, a + [ServerTick]), b, []);
    PhaseConcat(PhaseAfter(0, t1), c, []);
    PhaseConcat(PhaseAfter(0, t3), d, []);
    PhaseConcat(0, a, []);
  }

  lemma OneTick(phase: nat, t: Tick)
    ensures PhaseAfter(phase, [t]) ==
            if (if t.ServerTick? then phase == 0 || phase == 2 else phase == 1) then phase + 1 else phase
  {}

  // ---------------------------------------------------------------------------------------------
  // The whole image.

  /** The request that reaches the ECU for a block of the master's: see ImageDelivery for how it gets
      there. */
  function BlockRequest(image: seq<byte>, i: nat): (pdu: seq<byte>)
    requires i < M.BlockCount(image)
    ensures TransferRequest(pdu)
  {
    [SID_TRANSFER_DATA] + ([M.BlockAt(image, i).sn] + M.BlockAt(image, i).data)
  }

  /** The target after the master's first n blocks, each under a schedule of its own, and all the
      responses it gave. */
  function Serve(start: Server, image: seq<byte>, n: nat, schedules: seq<seq<Tick>>, failing: set<nat>): (x: Exchange)
    requires Latched(start) && n <= M.BlockCount(image) && n <= |schedules|
    ensures Latched(x.server)
    decreases n
  {
    if n == 0 then
      Exchange(start, [])
    else
      var before := Serve(start, image, n - 1, schedules, failing);
      var x := RunTicks(RxIndication(before.server, BlockRequest(image, n - 1)), schedules[n - 1], failing);
      Exchange(x.server, before.responses + x.responses)
  }

  function Acknowledged(n: nat): (s: seq<seq<byte>>)
    ensures |s| == n
  {
    seq(n, i requires 0 <= i < n => [POSITIVE_TRANSFER_DATA, (i + 1) % 256])
  }

  /** Image reconstruction: for every image, and every way of scheduling the target's server and
      writer that lets each exchange finish, each of the master's blocks is accepted, across every wrap
      of the counter from 0xFF to 0x00, and answered once with its own counter; and what the flash core
      has received is the image so far, in the end exactly the image. */
  lemma {:induction false} ImageReconstruction(start: Server, image: seq<byte>, n: nat, schedules: seq<seq<Tick>>, failing: set<nat>)
    requires Ready(start, 1, [], |image|) && S.FirstBad(0, |image|, failing).None?
    requires n <= M.BlockCount(image) && n <= |schedules|
    requires forall i :: 0 <= i < n ==> PhaseAfter(0, schedules[i]) == 3
    ensures var x, sent := Serve(start, image, n, schedules, failing), if n * M.BLOCK <= |image| then n * M.BLOCK else |image|;
            && x.responses == Acknowledged(n)
            && Ready(x.server, (n + 1) % 256, image[..sent], |image|)
            && (n == M.BlockCount(image) ==> image[..sent] == image)
    decreases n
  {
    hide Ready, PhaseAfter, RunTicks, Latched, S.FirstBad, AtPhase, RxIndication;
    ReadyIsLatched(start, 1, [], |image|);
    if n > 0 {
      ImageReconstruction(start, image, n - 1, schedules, failing);
      var before := Serve(start, image, n - 1, schedules, failing);
      var block := M.BlockAt(image, n - 1);
      var from := (n - 1) * M.BLOCK;
      LatchedBlock(before.server, block.sn, image[..from], block.data, |image|);
      BlockUnderEverySchedule(RxIndication(before.server, BlockRequest(image, n - 1)), 0,
                              block.sn, image[..from], block.data, |image|, schedules[n - 1], failing);
      CompletedBlock(Serve(start, image, n, schedules, failing).server, block.sn, image[..from], block.data, |image|);
      BlockExtends(image, n);
      assert Acknowledged(n) == Acknowledged(n - 1) + [[POSITIVE_TRANSFER_DATA, n % 256]];
    }
    assert image[..|image|] == image;
  }

  lemma BlockExtends(image: seq<byte>, n: nat)
    requires 1 <= n <= M.BlockCount(image)
    ensures var block, from := M.BlockAt(image, n - 1), (n - 1) * M.BLOCK;
            && block.sn == n % 256 && G.NextCounter(block.sn) == (n + 1) % 256 && 1 <= |block.data| <= MASTER_BLOCK
            && from + |block.data| == (if n * M.BLOCK <= |image| then n * M.BLOCK else |image|)
            && image[..from] + block.data == image[..from + |block.data|]
  {}

  lemma ReadyIsLatched(s: Server, sn: byte, written: seq<byte>, total: nat)
    requires Ready(s, sn, written, total)
    ensures Latched(s)
  {}

  lemma LatchedBlock(s: Server, sn: byte, written: seq<byte>, block: seq<byte>, total: nat)
    requires Ready(s, sn, written, total) && 1 <= |block| <= MASTER_BLOCK
    ensures AtPhase(RxIndication(s, [SID_TRANSFER_DATA] + ([sn] + block)), 0, sn, written, block, total)
  {}

  lemma CompletedBlock(s: Server, sn: byte, written: seq<byte>, block: seq<byte>, total: nat)
    requires AtPhase(s, 3, sn, written, block, total)
    ensures Ready(s, G.NextCounter(sn), written + block, total)
  {}

  /** The acknowledgement of a block, on its way back through the gateway, is what the master's loop
      takes for success. */
  lemma AcknowledgementRead(d: D.Session, channel: nat, sn: byte)
    requires d.active && channel < 2
    ensures var sent := D.Transmit(d, channel, [POSITIVE_TRANSFER_DATA, sn]);
            && sent.Some? && |sent.value| == 14 && P.HeaderAt(sent.value, 0)
            && P.VerdictAt(sent.value, 14, 12, POSITIVE_TRANSFER_DATA, 0) == P.Returns(0)
  {}

  /** What the master's checksum and the target's verification then agree on: with the announced
      length equal to the image's and the last page programmable, the verification succeeds, and the
      inactive bank holds exactly the image, padded with erased bytes to whole pages. */
  lemma VerificationSucceeds(s: Server, sn: byte, image: seq<byte>, crc: bv32, failing: set<nat>)
    requires Ready(s, sn, image, |image|) && Crc32.BitsOfWord(crc) == Crc32.Checksum(S.Octets(image))
    requires |image| % S.PAGE > 0 ==> S.WholePages(|image|) !in failing
    ensures var r := F.TransferExit(s.fota, crc, failing);
            && r.ok && r.fota.verified
            && r.fota.core.flash == S.PagePadded(image) && r.fota.core.flash[..|image|] == image
            && F.Activate(r.fota, true).ok
  {}

  /** And only for this image: any other checksum is refused, and the image is then not activated. */
  lemma VerificationRefuses(s: Server, sn: byte, image: seq<byte>, crc: bv32, failing: set<nat>)
    requires Ready(s, sn, image, |image|) && Crc32.BitsOfWord(crc) != Crc32.Checksum(S.Octets(image))
    ensures var r := F.TransferExit(s.fota, crc, failing);
            !r.ok && !r.fota.verified && !F.Activate(r.fota, true).ok
  {}
}
