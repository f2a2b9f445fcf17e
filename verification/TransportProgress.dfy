/** What stops a channel for good. A segmented transfer stalls exactly when a clear-to-send is lost:
    refused by the driver of the end that grants it, or read by the sender while the driver has not yet
    confirmed the last frame of the block. And a single frame refused by the driver parks its channel. */
module TransportProgress {

  import opened Bytes
  import opened CanTpModel
  import opened Segmentation
  import opened TransportLink
  import opened TransportSystem
  import opened TransportSafety

  predicate IsFc(f: Frame) { PciType(f) == PCI_FC }

  ghost predicate OnlyFc(frames: seq<Frame>) { forall i :: 0 <= i < |frames| ==> IsFc(frames[i]) }
  ghost predicate NoFc(frames: seq<Frame>) { forall i :: 0 <= i < |frames| ==> !IsFc(frames[i]) }
  ghost predicate OnlyFcAt(frames: seq<Frame>, i: int) {
    0 <= i < |frames| && forall j :: 0 <= j < |frames| ==> (IsFc(frames[j]) <==> j == i)
  }
  ghost predicate OneFc(frames: seq<Frame>) { exists i :: OnlyFcAt(frames, i) }

  /** Every flow control frame grants this block size. */
  ghost predicate Grants(frames: seq<Frame>, blockSize: byte) {
    forall i :: 0 <= i < |frames| && IsFc(frames[i]) ==> frames[i][1] == blockSize
  }

  /** The sender has sent the last frame of a block, and the driver has not confirmed it. */
  predicate BlockSent(tx: Tx) {
    && tx.state.WaitTxConfirmation? && 0 < tx.transmittedLength < tx.totalLength
    && tx.blockSize != 0 && tx.blockCounter >= tx.blockSize
  }

  /** The sender cannot go on without a clear-to-send it has not read. */
  predicate Awaits(tx: Tx) {
    tx.state.WaitFc? || BlockSent(tx)
  }

  // ---------------------------------------------------------------------------------------------
  // What the receiver will answer to the frames on the way.

  /** It answers none of them. */
  ghost predicate Silent(rx: Rx, config: RxConfig, frames: seq<Frame>)
    requires RxConfigValid(config) && RxValid(rx, config)
    decreases |frames|
  {
    frames == [] ||
    var r := Receive(rx, config, frames[0], FRAME_LENGTH);
    r.reply.None? && Silent(r.rx, config, frames[1..])
  }

  /** It answers one of them, and nothing but flow control is behind that one. */
  ghost predicate Promises(rx: Rx, config: RxConfig, frames: seq<Frame>)
    requires RxConfigValid(config) && RxValid(rx, config)
    decreases |frames|
  {
    frames != [] &&
    var r := Receive(rx, config, frames[0], FRAME_LENGTH);
    if r.reply.Some? then OnlyFc(frames[1..]) else Promises(r.rx, config, frames[1..])
  }

  lemma {:induction false} SilentSnoc(rx: Rx, config: RxConfig, frames: seq<Frame>, f: Frame)
    requires RxConfigValid(config) && RxValid(rx, config) && Silent(rx, config, frames)
    ensures var r := Receive(RunRx(rx, config, frames).rx, config, f, FRAME_LENGTH);
            && RunRx(rx, config, frames + [f]).rx == r.rx
            && (r.reply.None? ==> Silent(rx, config, frames + [f]))
            && (r.reply.Some? ==> Promises(rx, config, frames + [f]))
    decreases |frames|
  {
    hide Receive;
    if frames == [] {
      assert frames + [f] == [f] && [f][1..] == [];
    } else {
      assert (frames + [f])[1..] == frames[1..] + [f];
      SilentSnoc(Receive(rx, config, frames[0], FRAME_LENGTH).rx, config, frames[1..], f);
    }
  }

  lemma {:induction false} PromiseSnocFc(rx: Rx, config: RxConfig, frames: seq<Frame>, fc: Frame)
    requires RxConfigValid(config) && RxValid(rx, config) && IsFc(fc)
    ensures RunRx(rx, config, frames + [fc]).rx == RunRx(rx, config, frames).rx
    ensures Promises(rx, config, frames) ==> Promises(rx, config, frames + [fc])
    decreases |frames|
  {
    if frames == [] {
      assert frames + [fc] == [fc] && [fc][1..] == [];
    } else {
      hide Receive;
      assert (frames + [fc])[1..] == frames[1..] + [fc];
      PromiseSnocFc(Receive(rx, config, frames[0], FRAME_LENGTH).rx, config, frames[1..], fc);
    }
  }

  lemma {:induction false} OnlyFcIsSilent(rx: Rx, config: RxConfig, frames: seq<Frame>)
    requires RxConfigValid(config) && RxValid(rx, config) && OnlyFc(frames)
    ensures Silent(rx, config, frames) && !Promises(rx, config, frames) && RunRx(rx, config, frames).rx == rx
    decreases |frames|
  {
    if frames != [] {
      assert IsFc(frames[0]);
      OnlyFcIsSilent(rx, config, frames[1..]);
    }
  }

  // ---------------------------------------------------------------------------------------------
  // Where a transfer stands.

  predicate MidTransfer(tx: Tx) {
    tx.state.WaitFc? || tx.state.SendCf? || (WaitsForCf(tx) && tx.transmittedLength < tx.totalLength)
  }

  /** A sender in the middle of a transfer, and the receiver `rx` once it has read all that is on the
      way: they agree on the progress, and on the place within the block. */
  ghost predicate Matched(tx: Tx, rx: Rx, blockSize: byte) {
    MidTransfer(tx) ==>
      && rx.state.Receiving? && rx.totalLength == tx.totalLength
      && rx.receivedLength == tx.transmittedLength && rx.expectedSn == tx.nextSn
      && rx.blockCounter == (if Awaits(tx) then 0 else tx.blockCounter)
      && (!tx.state.WaitFc? ==> tx.blockSize == blockSize)
      && (tx.state.SendCf? ==> blockSize == 0 || tx.blockCounter < blockSize)
  }

  /** The clear-to-send the sender needs: it will be given for a frame on the way, is itself on the
      way back, or is lost. */
  ghost predicate Course(rx: Rx, config: RxConfig, out: seq<Frame>, back: seq<Frame>)
    requires RxConfigValid(config) && RxValid(rx, config)
  {
    || (Promises(rx, config, out) && NoFc(back))
    || (OnlyFc(out) && OneFc(back))
    || (OnlyFc(out) && NoFc(back))
  }

  /** `tx` sends to `rx`, with `out` on the way there and `back` on the way back. */
  ghost predicate Flow(tx: Tx, rx: Rx, config: RxConfig, out: seq<Frame>, back: seq<Frame>) {
    && TxValid(tx) && RxConfigValid(config) && config.rxBufferSize == BUFFER_SIZE && RxValid(rx, config)
    && Matched(tx, RunRx(rx, config, out).rx, config.blockSize)
    && Grants(back, config.blockSize)
    && if Awaits(tx) then Course(rx, config, out, back) else Silent(rx, config, out) && NoFc(back)
  }

  /** The sender awaits a clear-to-send that nobody will send. */
  ghost predicate Stuck(tx: Tx, rx: Rx, out: seq<Frame>, back: seq<Frame>) {
    Awaits(tx) && rx.state.Receiving? && OnlyFc(out) && NoFc(back)
  }

  ghost predicate Phase(s: End, r: End, config: RxConfig) {
    Flow(s.tx, r.rx, config, s.unread, r.unread)
  }

  ghost predicate WedgedPair(s: End, r: End) {
    Stuck(s.tx, r.rx, s.unread, r.unread)
  }

  // ---------------------------------------------------------------------------------------------
  // Steps of the sending end.

  lemma SentFirstFrame(x: Rx, config: RxConfig, sdu: seq<byte>)
    requires RxConfigValid(config) && config.rxBufferSize == BUFFER_SIZE && RxValid(x, config) && x.state.RxIdle?
    requires SF_MAX < |sdu| <= BUFFER_SIZE
    ensures var r := Receive(x, config, FfFrame(|sdu|, sdu[..FF_DATA]), FRAME_LENGTH);
            && r.reply == Some(FC_CTS) && r.rx.state.Receiving? && r.rx.totalLength == |sdu|
            && r.rx.receivedLength == FF_DATA && r.rx.expectedSn == 1 && r.rx.blockCounter == 0
  {
    FfRoundTrip(|sdu|, sdu[..FF_DATA]);
  }

  lemma SentSingleFrame(x: Rx, config: RxConfig, sdu: seq<byte>)
    requires RxConfigValid(config) && RxValid(x, config) && |sdu| <= SF_MAX
    ensures Receive(x, config, SfFrame(sdu), FRAME_LENGTH).reply.None?
  {
    SfRoundTrip(sdu);
  }

  lemma SendKeepsFlow(tx: Tx, rx: Rx, config: RxConfig, out: seq<Frame>, back: seq<Frame>, own: TxConfig, sdu: seq<byte>, accept: bool)
    requires Flow(tx, rx, config, out, back)
    requires tx.state.TxIdle? ==> RunRx(rx, config, out).rx.state.RxIdle?
    ensures var r := Transmit(tx, own, sdu, accept);
            var next := if r.request.Some? && accept then out + [r.request.value.frame] else out;
            Flow(r.tx, rx, config, next, back) && (Stuck(r.tx, rx, next, back) <==> Stuck(tx, rx, out, back))
  {
    hide Receive, SfFrame, FfFrame;
    if tx.state.TxIdle? && 1 <= |sdu| <= BUFFER_SIZE && accept {
      var x := RunRx(rx, config, out).rx;
      var f := Transmit(tx, own, sdu, accept).request.value.frame;
      SilentSnoc(rx, config, out, f);
      if |sdu| <= SF_MAX {
        SentSingleFrame(x, config, sdu);
      } else {
        SentFirstFrame(x, config, sdu);
        NotOnlyFc(rx, config, out + [f]);
      }
    }
  }

  lemma NotOnlyFc(rx: Rx, config: RxConfig, frames: seq<Frame>)
    requires RxConfigValid(config) && RxValid(rx, config) && Promises(rx, config, frames)
    ensures !OnlyFc(frames)
  {
    if OnlyFc(frames) {
      OnlyFcIsSilent(rx, config, frames);
    }
  }

  /** The consecutive frame that matches the receiver: it answers exactly at the end of a block. */
  lemma SentConsecutiveFrame(tx: Tx, x: Rx, config: RxConfig)
    requires TxValid(tx) && tx.state.SendCf? && RxConfigValid(config) && RxValid(x, config)
    requires Matched(tx, x, config.blockSize)
    ensures var t := Poll(tx, true);
            && t.request.Some?
            && var r := Receive(x, config, t.request.value.frame, FRAME_LENGTH);
               && Matched(t.tx, r.rx, config.blockSize)
               && (r.reply.Some? <==> Awaits(t.tx))
  {
    var n := Min(tx.totalLength - tx.transmittedLength, CF_DATA);
    CfRoundTrip(tx.nextSn, tx.buffer[tx.transmittedLength..tx.transmittedLength + n]);
    LengthGuardsAreDead(x, config);
  }

  lemma PollKeepsFlow(tx: Tx, rx: Rx, config: RxConfig, out: seq<Frame>, back: seq<Frame>, accept: bool)
    requires Flow(tx, rx, config, out, back)
    ensures var r := Poll(tx, accept);
            var next := if r.request.Some? && accept then out + [r.request.value.frame] else out;
            Flow(r.tx, rx, config, next, back) && (Stuck(r.tx, rx, next, back) <==> Stuck(tx, rx, out, back))
  {
    hide Receive;
    if tx.state.SendCf? && accept {
      hide Poll;
      var x, t := RunRx(rx, config, out).rx, Poll(tx, true);
      SentConsecutiveFrame(tx, x, config);
      SilentSnoc(rx, config, out, t.request.value.frame);
      if Awaits(t.tx) {
        NotOnlyFc(rx, config, out + [t.request.value.frame]);
      }
    }
  }

  lemma ConfirmKeepsFlow(tx: Tx, rx: Rx, config: RxConfig, out: seq<Frame>, back: seq<Frame>)
    requires Flow(tx, rx, config, out, back)
    ensures var t := Confirm(tx, true).tx;
            Flow(t, rx, config, out, back) && (Stuck(t, rx, out, back) <==> Stuck(tx, rx, out, back))
  {
    hide RunRx, Silent, Promises;
  }

  /** The sender reads the clear-to-send: it goes on if it waits for it, and drops it, and with it the
      transfer, if its last frame is not confirmed yet. */
  lemma ClearToSendRead(tx: Tx, rx: Rx, config: RxConfig, out: seq<Frame>, back: seq<Frame>)
    requires Flow(tx, rx, config, out, back) && OnlyCts(back) && back != [] && IsFc(back[0])
    ensures var t := FlowControl(tx, back[0], FRAME_LENGTH).tx;
            && Awaits(tx) && !Stuck(tx, rx, out, back)
            && Flow(t, rx, config, out, back[1..])
            && (Stuck(t, rx, out, back[1..]) <==> BlockSent(tx))
  {
    hide RunRx;
    assert OneFc(back) && OnlyFc(out);
    OnlyFcIsSilent(rx, config, out);
    assert NoFc(back[1..]);
    hide Promises, Silent;
  }

  lemma DropBackData(tx: Tx, rx: Rx, config: RxConfig, out: seq<Frame>, back: seq<Frame>)
    requires Flow(tx, rx, config, out, back) && back != [] && !IsFc(back[0])
    ensures Flow(tx, rx, config, out, back[1..])
    ensures Stuck(tx, rx, out, back[1..]) <==> Stuck(tx, rx, out, back)
  {
    hide NoFc, OneFc, OnlyFc, IsFc, Silent, Promises, RunRx, Matched, Grants;
    DroppedData(back, config.blockSize);
  }

  lemma DroppedData(back: seq<Frame>, blockSize: byte)
    requires back != [] && !IsFc(back[0])
    ensures NoFc(back) <==> NoFc(back[1..])
    ensures OneFc(back) ==> OneFc(back[1..])
    ensures Grants(back, blockSize) ==> Grants(back[1..], blockSize)
  {
    hide IsFc, OnlyFcAt;
    assert back == [back[0]] + back[1..];
    if i :| OnlyFcAt(back, i) {
      OnlyFcMoves(back, i);
    }
  }

  lemma OnlyFcMoves(frames: seq<Frame>, i: int)
    requires OnlyFcAt(frames, i) && !IsFc(frames[0])
    ensures OnlyFcAt(frames[1..], i - 1)
  {
    hide IsFc;
  }

  /** The sending end answers its peer's data with a flow control frame of its own. */
  lemma AppendOwnFc(tx: Tx, rx: Rx, config: RxConfig, out: seq<Frame>, back: seq<Frame>, fc: Frame)
    requires Flow(tx, rx, config, out, back) && IsFc(fc)
    ensures Flow(tx, rx, config, out + [fc], back)
    ensures Stuck(tx, rx, out + [fc], back) <==> Stuck(tx, rx, out, back)
  {
    hide Matched, Grants, NoFc, OneFc, Awaits;
    PromiseSnocFc(rx, config, out, fc);
    OnlyFcSnoc(out, fc);
    if !Awaits(tx) {
      SilentSnocFc(rx, config, out, fc);
    }
    hide Silent, Promises, OnlyFc, RunRx;
  }

  lemma SilentSnocFc(rx: Rx, config: RxConfig, frames: seq<Frame>, fc: Frame)
    requires RxConfigValid(config) && RxValid(rx, config) && Silent(rx, config, frames) && IsFc(fc)
    ensures Silent(rx, config, frames + [fc])
  {
    SilentSnoc(rx, config, frames, fc);
  }

  lemma OnlyFcSnoc(frames: seq<Frame>, fc: Frame)
    requires IsFc(fc)
    ensures OnlyFc(frames + [fc]) <==> OnlyFc(frames)
  {
    assert frames == (frames + [fc])[..|frames|];
  }

  lemma SenderReadKeepsPhase(s: End, r: End, own: RxConfig, config: RxConfig, accept: bool)
    requires Phase(s, r, config) && RxValid(s.rx, own) && r.unread != [] && OnlyCts(r.unread)
    ensures var t := ReadStep(s, own, r.unread[0], accept).end;
            var rest := r.(unread := r.unread[1..]);
            && Phase(t, rest, config)
            && (WedgedPair(t, rest) <==> WedgedPair(s, r) || (IsFc(r.unread[0]) && BlockSent(s.tx)))
  {
    hide Receive, FlowControl, Flow, Stuck;
    var f := r.unread[0];
    if IsFc(f) {
      ClearToSendRead(s.tx, r.rx, config, s.unread, r.unread);
    } else {
      DropBackData(s.tx, r.rx, config, s.unread, r.unread);
      var reply := Receive(s.rx, own, f, FRAME_LENGTH).reply;
      if reply.Some? && accept {
        FcRoundTrip(reply.value % 16, own.blockSize, own.stMin);
        var fc := FcFrame(reply.value, own.blockSize, own.stMin);
        AppendOwnFc(s.tx, r.rx, config, s.unread, r.unread[1..], fc);
      }
    }
  }

  // ---------------------------------------------------------------------------------------------
  // Steps of the receiving end.

  /** The next frame on the way. */
  lemma ReceiverReadsFlow(tx: Tx, rx: Rx, config: RxConfig, out: seq<Frame>, back: seq<Frame>)
    requires Flow(tx, rx, config, out, back) && out != []
    ensures var r := Receive(rx, config, out[0], FRAME_LENGTH);
            && (r.reply.None? ==>
                  Flow(tx, r.rx, config, out[1..], back) && (Stuck(tx, r.rx, out[1..], back) <==> Stuck(tx, rx, out, back)))
            && (r.reply.Some? ==>
                  && Awaits(tx) && !Stuck(tx, rx, out, back) && OnlyFc(out[1..]) && NoFc(back)
                  && Flow(tx, r.rx, config, out[1..], back) && Stuck(tx, r.rx, out[1..], back))
  {
    var r := Receive(rx, config, out[0], FRAME_LENGTH);
    if IsFc(out[0]) {
      assert OnlyFc(out) <==> OnlyFc(out[1..]) by { assert out == [out[0]] + out[1..]; }
    } else if r.reply.Some? {
      hide Receive;
      OnlyFcIsSilent(r.rx, config, out[1..]);
    } else {
      hide Receive;
      if OnlyFc(out[1..]) {
        OnlyFcIsSilent(r.rx, config, out[1..]);
      }
    }
  }

  /** The clear-to-send for it gets on the bus. */
  lemma ClearToSendSent(tx: Tx, rx: Rx, config: RxConfig, out: seq<Frame>, back: seq<Frame>, cts: Frame)
    requires Flow(tx, rx, config, out, back) && Stuck(tx, rx, out, back) && IsFc(cts) && cts[1] == config.blockSize
    ensures Flow(tx, rx, config, out, back + [cts]) && !Stuck(tx, rx, out, back + [cts])
  {
    hide RunRx, Silent, Promises, Matched, TxValid, RxValid;
    assert OnlyFcAt(back + [cts], |back|) && IsFc((back + [cts])[|back|]);
  }

  lemma ReceiverReadKeepsPhase(s: End, r: End, config: RxConfig, accept: bool)
    requires TxValid(r.tx) && Phase(s, r, config) && s.unread != []
    ensures var f := s.unread[0];
            var t := ReadStep(r, config, f, accept).end;
            var rest := s.(unread := s.unread[1..]);
            && Phase(rest, t, config)
            && (WedgedPair(rest, t) <==> WedgedPair(s, r) || (Receive(r.rx, config, f, FRAME_LENGTH).reply.Some? && !accept))
  {
    var f := s.unread[0];
    FcSilent(r.rx, config, f);
    hide Receive, FlowControl, Flow, Stuck;
    ReceiverReadsFlow(s.tx, r.rx, config, s.unread, r.unread);
    var reply := Receive(r.rx, config, f, FRAME_LENGTH).reply;
    if reply.Some? && accept {
      FcRoundTrip(reply.value % 16, config.blockSize, config.stMin);
      ClearToSendSent(s.tx, Receive(r.rx, config, f, FRAME_LENGTH).rx, config, s.unread[1..], r.unread,
                      FcFrame(reply.value, config.blockSize, config.stMin));
    }
  }

  lemma FcSilent(rx: Rx, config: RxConfig, f: Frame)
    requires RxValid(rx, config)
    ensures IsFc(f) ==> Receive(rx, config, f, FRAME_LENGTH) == RxResult(rx, None, None)
  {}

  /** The receiving end transmits a frame of its own. */
  lemma AppendBackData(tx: Tx, rx: Rx, config: RxConfig, out: seq<Frame>, back: seq<Frame>, f: Frame)
    requires Flow(tx, rx, config, out, back) && !IsFc(f)
    ensures Flow(tx, rx, config, out, back + [f])
    ensures Stuck(tx, rx, out, back + [f]) <==> Stuck(tx, rx, out, back)
  {
    hide NoFc, OneFc, OnlyFc, IsFc, Silent, Promises, RunRx, Matched, Grants;
    AppendedData(back, f, config.blockSize);
  }

  lemma AppendedData(back: seq<Frame>, f: Frame, blockSize: byte)
    requires !IsFc(f)
    ensures NoFc(back + [f]) <==> NoFc(back)
    ensures OneFc(back) ==> OneFc(back + [f])
    ensures Grants(back, blockSize) ==> Grants(back + [f], blockSize)
  {
    hide IsFc, OnlyFcAt;
    assert back == (back + [f])[..|back|];
    if i :| OnlyFcAt(back, i) {
      OnlyFcStays(back, f, i);
    }
  }

  lemma OnlyFcStays(frames: seq<Frame>, f: Frame, i: int)
    requires OnlyFcAt(frames, i) && !IsFc(f)
    ensures OnlyFcAt(frames + [f], i)
  {
    hide IsFc;
  }

  lemma ReceiverTransmitKeepsPhase(s: End, r: End, t: End, config: RxConfig)
    requires Phase(s, r, config) && t.rx == r.rx
    requires t.unread == r.unread || exists f :: PciType(f) != PCI_FC && t.unread == r.unread + [f]
    ensures Phase(s, t, config) && (WedgedPair(s, t) <==> WedgedPair(s, r))
  {
    hide Flow, Stuck;
    if t.unread != r.unread {
      var f :| PciType(f) != PCI_FC && t.unread == r.unread + [f];
      AppendBackData(s.tx, r.rx, config, s.unread, r.unread, f);
    }
  }

  // ---------------------------------------------------------------------------------------------
  // The network.

  ghost predicate Wedged(s: System, e: EndId)
    requires |s.ends| == 4
  {
    WedgedPair(s.ends[e], s.ends[Peer(e)])
  }

  ghost predicate InPhase(s: System, b: BlockSizes, e: EndId)
    requires |s.ends| == 4
  {
    Phase(s.ends[e], s.ends[Peer(e)], RxConfigOf(Peer(e), b))
  }

  /** The peer of `e` reads a frame that it answers, and its driver refuses the answer. */
  predicate RefusesCts(s: System, b: BlockSizes, e: EndId, event: Event)
    requires Ready(s, b)
  {
    && event.ReadFrame? && event.e == Peer(e) && s.ends[e].unread != []
    && Receive(s.ends[Peer(e)].rx, RxConfigOf(Peer(e), b), s.ends[e].unread[0], FRAME_LENGTH).reply.Some?
    && !Accepts(s, event.e, event.hwOk)
  }

  /** `e` reads a flow control frame before the last frame of its block is confirmed. */
  predicate MissesCts(s: System, e: EndId, event: Event)
    requires |s.ends| == 4
  {
    && event.ReadFrame? && event.e == e && s.ends[Peer(e)].unread != []
    && IsFc(s.ends[Peer(e)].unread[0]) && BlockSent(s.ends[e].tx)
  }

  lemma OnlyClearToSends(s: System, b: BlockSizes, e: EndId)
    requires Linked(s, b)
    ensures OnlyCts(s.ends[Peer(e)].unread)
  {
    hide Future;
    assert Link(s.ends[e], s.ends[Peer(e)], RxConfigOf(Peer(e), b));
  }

  lemma NothingLeftIsIdle(s: End, r: End, config: RxConfig)
    requires Link(s, r, config) && s.tx.state.TxIdle?
    ensures RunRx(r.rx, config, s.unread).rx.state.RxIdle?
  {
    IdleRemainsNothing(s.tx);
    assert s.unread + [] == s.unread;
  }

  lemma OwnStepKeepsPhase(s: System, b: BlockSizes, event: Event, e: EndId)
    requires Linked(s, b) && Ready(s, b) && InPhase(s, b, e)
    requires (event.Send? || event.MainFunction? || event.ReadFrame?) && event.e == e
    ensures var t := Step(s, b, event);
            InPhase(t, b, e) && (Wedged(t, e) <==> Wedged(s, e) || MissesCts(s, e, event))
  {
    hide Flow, Stuck, Transmit, Poll, ReadStep, Future;
    var p, accept := Peer(e), Accepts(s, e, event.hwOk);
    var config := RxConfigOf(p, b);
    assert Link(s.ends[e], s.ends[p], config);
    match event
    case Send(_, sdu, _) =>
      if s.ends[e].tx.state.TxIdle? {
        NothingLeftIsIdle(s.ends[e], s.ends[p], config);
      }
      SendKeepsFlow(s.ends[e].tx, s.ends[p].rx, config, s.ends[e].unread, s.ends[p].unread, TxConfigOf(e), sdu, accept);
    case MainFunction(_, _) =>
      PollKeepsFlow(s.ends[e].tx, s.ends[p].rx, config, s.ends[e].unread, s.ends[p].unread, accept);
    case ReadFrame(_, _) =>
      if s.ends[p].unread != [] {
        SenderReadKeepsPhase(s.ends[e], s.ends[p], RxConfigOf(e, b), config, accept);
      }
  }

  lemma PeerStepKeepsPhase(s: System, b: BlockSizes, event: Event, e: EndId)
    requires Ready(s, b) && InPhase(s, b, e)
    requires (event.Send? || event.MainFunction? || event.ReadFrame?) && event.e == Peer(e)
    ensures var t := Step(s, b, event);
            InPhase(t, b, e) && (Wedged(t, e) <==> Wedged(s, e) || RefusesCts(s, b, e, event))
  {
    hide Phase, WedgedPair, SendStep, PollStep, ReadStep, Receive;
    var p, accept := Peer(e), Accepts(s, Peer(e), event.hwOk);
    var config := RxConfigOf(p, b);
    match event
    case Send(_, sdu, _) =>
      SendIsNoFlowControl(s.ends[p], TxConfigOf(p), sdu, accept);
      ReceiverTransmitKeepsPhase(s.ends[e], s.ends[p], SendStep(s.ends[p], TxConfigOf(p), sdu, accept).end, config);
    case MainFunction(_, _) =>
      PollIsNoFlowControl(s.ends[p], accept);
      ReceiverTransmitKeepsPhase(s.ends[e], s.ends[p], PollStep(s.ends[p], accept).end, config);
    case ReadFrame(_, _) =>
      if s.ends[e].unread != [] {
        ReceiverReadKeepsPhase(s.ends[e], s.ends[p], config, accept);
      }
  }

  lemma ConfirmationKeepsPhase(s: System, b: BlockSizes, n: NodeId, e: EndId)
    requires Ready(s, b) && InPhase(s, b, e)
    ensures var t := Step(s, b, DriverConfirms(n));
            InPhase(t, b, e) && (Wedged(t, e) <==> Wedged(s, e))
  {
    hide Flow, Stuck, Confirm;
    if s.slots[n].Some? && s.slots[n].value.owner == e {
      var p := Peer(e);
      ConfirmKeepsFlow(s.ends[e].tx, s.ends[p].rx, RxConfigOf(p, b), s.ends[e].unread, s.ends[p].unread);
    }
  }

  /** For every granted block size: each step keeps the transfer on its course, and a step stalls the
      sender if and only if it loses the clear-to-send, either because the peer's driver refuses it or
      because the sender reads it before its own driver has confirmed the last frame of the block. */
  lemma StallsIffCtsLost(s: System, b: BlockSizes, event: Event, e: EndId)
    requires Linked(s, b) && |s.ends| == 4 && InPhase(s, b, e)
    ensures Ready(s, b)
    ensures var t := Step(s, b, event);
            InPhase(t, b, e)
            && (Wedged(t, e) <==> Wedged(s, e) || RefusesCts(s, b, e, event) || MissesCts(s, e, event))
  {
    LinkedIsReady(s, b);
    hide Phase, WedgedPair, Step, Linked, Ready, Receive, BlockSent, IsFc, Accepts;
    if event.DriverConfirms? {
      ConfirmationKeepsPhase(s, b, event.node, e);
    } else if event.e == e {
      OwnStepKeepsPhase(s, b, event, e);
    } else if event.e == Peer(e) {
      PeerStepKeepsPhase(s, b, event, e);
    } else {
      OtherStep(s, b, event, e);
    }
  }

  lemma OtherStep(s: System, b: BlockSizes, event: Event, e: EndId)
    requires Ready(s, b) && !event.DriverConfirms? && event.e != e && event.e != Peer(e)
    ensures var t := Step(s, b, event);
            t.ends[e] == s.ends[e] && t.ends[Peer(e)] == s.ends[Peer(e)]
  {
    hide SendStep, PollStep, ReadStep;
  }

  lemma {:induction false} PlayKeepsPhase(s: System, b: BlockSizes, events: seq<Event>, e: EndId)
    requires Linked(s, b) && |s.ends| == 4 && InPhase(s, b, e)
    ensures var t := Play(s, b, events); |t.ends| == 4 && InPhase(t, b, e)
    decreases |events|
  {
    hide Step, Phase, Ready, Linked;
    if events != [] {
      StepKeepsLinked(s, b, events[0]);
      StallsIffCtsLost(s, b, events[0], e);
      FourEnds(Step(s, b, events[0]), b);
      PlayKeepsPhase(Step(s, b, events[0]), b, events[1..], e);
    }
  }

  lemma InitialPhase(b: BlockSizes, e: EndId)
    ensures InPhase(INITIAL, b, e)
  {}

  /** In every reachable state a sender that cannot go on without a clear-to-send either has exactly
      one frame on the way that will be answered by it, or has it on the way, or is stalled. */
  lemma AwaitingSenderPhase(s: System, b: BlockSizes, e: EndId)
    requires Reachable(s, b)
    ensures |s.ends| == 4 && InPhase(s, b, e)
    ensures var tx, rx := s.ends[e], s.ends[Peer(e)];
            Awaits(tx.tx) ==>
              || (Promises(rx.rx, RxConfigOf(Peer(e), b), tx.unread) && NoFc(rx.unread))
              || (OnlyFc(tx.unread) && OneFc(rx.unread))
              || Wedged(s, e)
  {
    hide Linked, Promises, Silent;
    var events :| Linked(INITIAL, b) && Play(INITIAL, b, events) == s;
    InitialPhase(b, e);
    PlayKeepsPhase(INITIAL, b, events, e);
    if Awaits(s.ends[e].tx) {
      AwaitingCourse(s.ends[e], s.ends[Peer(e)], RxConfigOf(Peer(e), b));
    }
  }

  lemma AwaitingCourse(s: End, r: End, config: RxConfig)
    requires Phase(s, r, config) && Awaits(s.tx)
    ensures || (Promises(r.rx, config, s.unread) && NoFc(r.unread))
            || (OnlyFc(s.unread) && OneFc(r.unread))
            || WedgedPair(s, r)
  {
    if OnlyFc(s.unread) {
      OnlyFcIsSilent(r.rx, config, s.unread);
    }
  }

  // ---------------------------------------------------------------------------------------------
  // A stalled transfer, whatever the block size.

  ghost predicate StillStalled(s: System, t: System, e: EndId)
    requires |s.ends| == 4 && |t.ends| == 4
  {
    && Wedged(t, e)
    && (t.ends[e].tx == s.ends[e].tx || (BlockSent(s.ends[e].tx) && t.ends[e].tx == s.ends[e].tx.(state := WaitFc)))
    && t.ends[e].accepted == s.ends[e].accepted
    && t.ends[e].confirmed == s.ends[e].confirmed
    && t.ends[Peer(e)].delivered == s.ends[Peer(e)].delivered
  }

  lemma StalledTransmit(s: System, b: BlockSizes, event: Event, e: EndId)
    requires Ready(s, b) && Wedged(s, e) && (event.Send? || event.MainFunction?)
    ensures StillStalled(s, Step(s, b, event), e)
  {
    hide SendStep, PollStep, OnlyFc, NoFc, PciType, TxValid, RxValid, Awaits, BlockSent;
    var p := Peer(e);
    var tx, rx := s.ends[e], s.ends[p];
    match event
    case Send(a, sdu, hwOk) =>
      if a == e {
        StalledSend(tx, TxConfigOf(e), sdu, Accepts(s, e, hwOk));
      } else if a == p {
        SendIsNoFlowControl(rx, TxConfigOf(p), sdu, Accepts(s, p, hwOk));
        StillNoFc(rx, SendStep(rx, TxConfigOf(p), sdu, Accepts(s, p, hwOk)).end);
      }
    case MainFunction(a, hwOk) =>
      if a == e {
        StalledPoll(tx, Accepts(s, e, hwOk));
      } else if a == p {
        PollIsNoFlowControl(rx, Accepts(s, p, hwOk));
        StillNoFc(rx, PollStep(rx, Accepts(s, p, hwOk)).end);
      }
  }

  lemma StalledConfirms(s: System, b: BlockSizes, n: NodeId, e: EndId)
    requires Ready(s, b) && Wedged(s, e)
    ensures StillStalled(s, Step(s, b, DriverConfirms(n)), e)
  {
    hide ConfirmStep, OnlyFc, NoFc, TxValid, RxValid, BlockSent;
    if s.slots[n].Some? {
      StalledConfirm(s.ends[e]);
      ConfirmLeavesRx(s.ends[Peer(e)]);
    }
  }

  lemma StalledRead(s: System, b: BlockSizes, a: EndId, hwOk: bool, e: EndId)
    requires Ready(s, b) && Wedged(s, e)
    ensures StillStalled(s, Step(s, b, ReadFrame(a, hwOk)), e)
  {
    hide ReadStep, OnlyFc, NoFc, PciType;
    var p := Peer(e);
    var tx, rx := s.ends[e], s.ends[p];
    if a == e && rx.unread != [] {
      StalledSenderReads(tx, rx, RxConfigOf(e, b), Accepts(s, e, hwOk));
    } else if a == p && tx.unread != [] {
      StalledReceiverReads(tx, rx, RxConfigOf(p, b), Accepts(s, p, hwOk));
    }
  }

  /** Nothing the network does revives a stalled transfer: the sender waits for ever, every further
      request on its channel is refused, nothing more is confirmed to it or delivered for it. */
  lemma StalledForEver(s: System, b: BlockSizes, event: Event, e: EndId)
    requires Linked(s, b) && |s.ends| == 4 && Wedged(s, e)
    ensures Ready(s, b)
    ensures StillStalled(s, Step(s, b, event), e)
  {
    hide Step, StillStalled;
    LinkedIsReady(s, b);
    if event.ReadFrame? {
      StalledRead(s, b, event.e, event.hwOk, e);
    } else if event.DriverConfirms? {
      StalledConfirms(s, b, event.node, e);
    } else {
      StalledTransmit(s, b, event, e);
    }
  }

  lemma StalledSend(s: End, config: TxConfig, sdu: seq<byte>, accept: bool)
    requires TxValid(s.tx) && Awaits(s.tx)
    ensures SendStep(s, config, sdu, accept) == StepResult(s, None)
  {}

  lemma StalledPoll(s: End, accept: bool)
    requires TxValid(s.tx) && Awaits(s.tx)
    ensures PollStep(s, accept) == StepResult(s, None)
  {}

  lemma StalledConfirm(s: End)
    requires TxValid(s.tx) && Awaits(s.tx)
    ensures ConfirmStep(s) == StepResult(s.(tx := s.tx.(state := WaitFc)), None)
    ensures s.tx.state.WaitFc? || BlockSent(s.tx)
  {}

  lemma StillNoFc(r: End, t: End)
    requires NoFc(r.unread)
    requires t.unread == r.unread || exists f :: PciType(f) != PCI_FC && t.unread == r.unread + [f]
    ensures NoFc(t.unread)
  {}

  lemma ConfirmLeavesRx(r: End)
    requires TxValid(r.tx)
    ensures var t := ConfirmStep(r).end; t.rx == r.rx && t.unread == r.unread && t.delivered == r.delivered
  {}

  lemma StalledSenderReads(s: End, r: End, own: RxConfig, accept: bool)
    requires TxValid(s.tx) && RxValid(s.rx, own) && WedgedPair(s, r) && r.unread != []
    ensures var t := ReadStep(s, own, r.unread[0], accept).end;
            && t.tx == s.tx && t.accepted == s.accepted && t.confirmed == s.confirmed
            && OnlyFc(t.unread) && NoFc(r.unread[1..])
  {}

  lemma StalledReceiverReads(s: End, r: End, config: RxConfig, accept: bool)
    requires TxValid(r.tx) && RxValid(r.rx, config) && WedgedPair(s, r) && s.unread != []
    ensures var t := ReadStep(r, config, s.unread[0], accept).end;
            && t.rx == r.rx && t.delivered == r.delivered && t.unread == r.unread
            && OnlyFc(s.unread[1..])
  {}

  // ---------------------------------------------------------------------------------------------
  // The other thing that stops a channel: a refused single frame.

  /** Waiting for the confirmation of a single frame the driver never took: if the channel holds the
      slot at all, then with a flow control frame. */
  ghost predicate Parked(s: System, e: EndId)
    requires |s.ends| == 4 && |s.slots| == 3
  {
    && s.ends[e].tx.state.WaitTxConfirmation? && s.ends[e].tx.totalLength == 0
    && var slot := s.slots[NodeOf(e)];
       slot.Some? && slot.value.owner == e ==> IsFc(slot.value.frame)
  }

  /** The driver confirms the frame of `e` that is in the slot of its node. */
  predicate ConfirmsFrameOf(s: System, e: EndId, event: Event)
    requires |s.slots| == 3
  {
    && event.DriverConfirms? && event.node == NodeOf(e)
    && s.slots[NodeOf(e)].Some? && s.slots[NodeOf(e)].value.owner == e
  }

  lemma RefusedSingleFrameParks(s: System, b: BlockSizes, e: EndId, sdu: seq<byte>, hwOk: bool)
    requires Ready(s, b) && s.ends[e].tx.state.TxIdle? && 1 <= |sdu| <= SF_MAX && !Accepts(s, e, hwOk)
    requires s.slots[NodeOf(e)].Some? && s.slots[NodeOf(e)].value.owner == e ==> IsFc(s.slots[NodeOf(e)].value.frame)
    ensures Parked(Step(s, b, Send(e, sdu, hwOk)), e)
  {}

  /** A parked channel accepts nothing, and nothing frees it but the confirmation of a flow control
      frame it has sent itself, as a receiver; that confirmation is reported as the success of the
      single frame. */
  lemma ParkedUntilOwnFlowControl(s: System, b: BlockSizes, event: Event, e: EndId)
    requires Linked(s, b) && Shape(s) && SlotsOwned(s) && Parked(s, e)
    ensures Ready(s, b)
    ensures var t := Step(s, b, event);
            && t.ends[e].accepted == s.ends[e].accepted
            && if ConfirmsFrameOf(s, e, event) then
                 && IsFc(s.slots[NodeOf(e)].value.frame)
                 && t.ends[e].tx.state.TxIdle? && t.ends[e].confirmed == s.ends[e].confirmed + [true]
               else
                 t.ends[e].tx == s.ends[e].tx && t.ends[e].confirmed == s.ends[e].confirmed && Parked(t, e)
  {
    hide SendStep, PollStep, ReadStep, ConfirmStep, IsFc, OwnsSlot, Linked, TxValid, RxValid;
    LinkedIsReady(s, b);
    match event
    case Send(a, sdu, hwOk) =>
      if a == e {
        ParkedEnd(s.ends[e], TxConfigOf(e), RxConfigOf(e, b), sdu, Zeros(64), Accepts(s, e, hwOk));
      }
    case MainFunction(a, hwOk) =>
      if a == e {
        ParkedEnd(s.ends[e], TxConfigOf(e), RxConfigOf(e, b), [], Zeros(64), Accepts(s, e, hwOk));
      }
    case ReadFrame(a, hwOk) => ParkedRead(s, b, a, hwOk, e);
    case DriverConfirms(n) => ParkedConfirm(s, b, n, e);
  }

  lemma ParkedRead(s: System, b: BlockSizes, a: EndId, hwOk: bool, e: EndId)
    requires Ready(s, b) && Parked(s, e)
    ensures var t := Step(s, b, ReadFrame(a, hwOk));
            && t.ends[e].accepted == s.ends[e].accepted && t.ends[e].tx == s.ends[e].tx
            && t.ends[e].confirmed == s.ends[e].confirmed && Parked(t, e)
  {
    hide ReadStep, IsFc, TxValid, RxValid;
    if a == e && s.ends[Peer(e)].unread != [] {
      ParkedEnd(s.ends[e], TxConfigOf(e), RxConfigOf(e, b), [], s.ends[Peer(e)].unread[0], Accepts(s, e, hwOk));
    }
  }

  lemma ParkedConfirm(s: System, b: BlockSizes, n: NodeId, e: EndId)
    requires Ready(s, b) && SlotsOwned(s) && Parked(s, e)
    ensures var t := Step(s, b, DriverConfirms(n));
            && t.ends[e].accepted == s.ends[e].accepted
            && if ConfirmsFrameOf(s, e, DriverConfirms(n)) then
                 t.ends[e].tx.state.TxIdle? && t.ends[e].confirmed == s.ends[e].confirmed + [true]
               else
                 t.ends[e].tx == s.ends[e].tx && t.ends[e].confirmed == s.ends[e].confirmed && Parked(t, e)
  {
    hide ConfirmStep, IsFc, TxValid, RxValid, OwnsSlot;
    if s.slots[n].Some? {
      var o := s.slots[n].value.owner;
      assert NodeOf(o) == n;
      if o == e {
        ParkedEnd(s.ends[e], TxConfigOf(e), RxConfigOf(e, b), [], Zeros(64), false);
      }
    }
  }

  lemma ParkedEnd(e: End, config: TxConfig, own: RxConfig, sdu: seq<byte>, f: Frame, accept: bool)
    requires TxValid(e.tx) && RxValid(e.rx, own) && e.tx.state.WaitTxConfirmation? && e.tx.totalLength == 0
    ensures SendStep(e, config, sdu, accept) == StepResult(e, None) && PollStep(e, accept) == StepResult(e, None)
    ensures var r := ReadStep(e, own, f, accept);
            && r.end.tx == e.tx && r.end.confirmed == e.confirmed && r.end.accepted == e.accepted
            && (r.emitted.Some? ==> IsFc(r.emitted.value))
    ensures var r := ConfirmStep(e);
            r.end.tx.state.TxIdle? && r.end.confirmed == e.confirmed + [true] && r.end.accepted == e.accepted
  {
    hide Receive;
    var reply := Receive(e.rx, own, f, FRAME_LENGTH).reply;
    if reply.Some? {
      FcRoundTrip(reply.value % 16, own.blockSize, own.stMin);
    }
  }

  // ---------------------------------------------------------------------------------------------
  // Two runs that show what the shared slot can do.

  lemma SingleFrameSent(config: TxConfig)
    ensures var r := SendStep(START, config, [7], true);
            r.emitted.Some? && r.end.rx == RX_RESET && NoFc(r.end.unread) && TxValid(r.end.tx)
  {}

  lemma FirstFrameSent(config: TxConfig, f: Frame)
    requires f == FfFrame(63, Zeros(63)[..FF_DATA])
    ensures var r := SendStep(START, config, Zeros(63), true);
            r.end.tx.state.WaitFc? && r.end.unread == [f] && r.end.delivered == []
  {}

  lemma FirstFrameAnswer(r: End, config: RxConfig, f: Frame, accept: bool)
    requires TxValid(r.tx) && r.rx == RX_RESET && NoFc(r.unread)
    requires RxValid(r.rx, config) && config.rxBufferSize == BUFFER_SIZE
    requires f == FfFrame(63, Zeros(63)[..FF_DATA])
    ensures var t := ReadStep(r, config, f, accept);
            && t.end.rx.state.Receiving? && t.end.tx == r.tx && t.end.accepted == r.accepted
            && t.end.confirmed == r.confirmed
            && (accept ==> t.emitted.Some?) && (!accept ==> t.emitted.None? && t.end.unread == r.unread)
  {}

  /** A stall is reachable: the Motion ECU is still sending a single frame of its own when it reads
      the gateway's first frame, so its clear-to-send finds the slot taken. */
  lemma StallIsReachable(b: BlockSizes)
    ensures exists s :: Reachable(s, b) && |s.ends| == 4 && Wedged(s, 0)
  {
    hide SendStep, ReadStep, Linked, Ready, IsFc, Reachable, FfFrame, TxValid;
    InitialReachable(b);
    ReachableStep(INITIAL, b, Send(2, [7], true));
    var s1 := Step(INITIAL, b, Send(2, [7], true));
    ReachableStep(s1, b, Send(0, Zeros(63), true));
    var s2 := Step(s1, b, Send(0, Zeros(63), true));
    ReachableStep(s2, b, ReadFrame(2, true));
    var s3 := Step(s2, b, ReadFrame(2, true));
    var f := FfFrame(63, Zeros(63)[..FF_DATA]);
    SingleFrameSent(TxConfigOf(2));
    FirstFrameSent(TxConfigOf(0), f);
    assert s2.ends[0].unread == [f] && s2.slots[1].Some?;
    FirstFrameAnswer(s2.ends[2], RxConfigOf(2, b), f, false);
    assert s3.ends[0].unread == [];
    assert Wedged(s3, 0);
  }

  lemma LongSduSent(config: TxConfig)
    ensures var r := SendStep(START, config, Zeros(126), true);
            && r.emitted.Some? && r.end.unread == [r.emitted.value] && r.end.rx == RX_RESET
            && r.end.tx.state.WaitFc? && r.end.tx.transmittedLength == 62 && r.end.tx.totalLength == 126
            && !IsFc(r.emitted.value)
  {}

  /** With one frame on the way that the sender awaits the answer to, reading it puts the answer on the way. */
  lemma AnswerGiven(s: End, r: End, config: RxConfig)
    requires TxValid(r.tx) && Phase(s, r, config) && Awaits(s.tx) && r.unread == [] && |s.unread| == 1 && !IsFc(s.unread[0])
    ensures var t := ReadStep(r, config, s.unread[0], true);
            && t.emitted.Some? && |t.end.unread| == 1 && IsFc(t.end.unread[0])
            && t.end.unread[0][1] == config.blockSize && t.end.tx == r.tx
  {
    hide Receive;
    assert !OnlyFc(s.unread);
    var r0 := Receive(r.rx, config, s.unread[0], FRAME_LENGTH);
    if r0.reply.None? {
      assert s.unread[1..] == [] && !Promises(r0.rx, config, []);
      assert false;
    }
    FcRoundTrip(r0.reply.value % 16, config.blockSize, config.stMin);
  }

  lemma ClearToSendTaken(end: End, own: RxConfig, fc: Frame)
    requires TxValid(end.tx) && RxValid(end.rx, own) && end.tx.state.WaitFc? && IsFc(fc) && PciLow(fc) == FC_CTS
    ensures var r := ReadStep(end, own, fc, true);
            && r.emitted == None && r.end.unread == end.unread
            && r.end.tx == end.tx.(state := SendCf, blockSize := fc[1], blockCounter := 0, stMin := fc[2], waitFrameCount := 0)
  {}

  lemma OneBlockSent(end: End)
    requires TxValid(end.tx) && end.tx.state.SendCf? && end.unread == []
    requires end.tx.blockSize == 1 && end.tx.blockCounter == 0 && end.tx.transmittedLength + CF_DATA < end.tx.totalLength
    ensures var r := PollStep(end, true);
            && r.emitted.Some? && r.end.unread == [r.emitted.value] && !IsFc(r.emitted.value)
            && BlockSent(r.end.tx) && TxValid(r.end.tx)
  {
    var data := end.tx.buffer[end.tx.transmittedLength..end.tx.transmittedLength + CF_DATA];
    CfRoundTrip(end.tx.nextSn, data);
  }

  lemma NoEffect(end: End)
    requires TxValid(end.tx) && (end.tx.state.TxIdle? || end.tx.state.WaitFc?)
    ensures ConfirmStep(end) == StepResult(end, None)
  {}

  /** A clear-to-send can be lost although every driver takes every frame: with blocks of one frame the
      ECU answers the frame that ends a block before the gateway's driver has confirmed it. */
  lemma MissIsReachable(b: BlockSizes)
    requires b[2] == 1
    ensures exists s :: Reachable(s, b) && |s.ends| == 4 && MissesCts(s, 0, ReadFrame(0, true))
  {
    hide SendStep, PollStep, ReadStep, ConfirmStep, Linked, Ready, IsFc, Reachable, TxValid, RxValid, BlockSent, Phase;
    InitialReachable(b);
    ReachableStep(INITIAL, b, Send(0, Zeros(126), true));
    var s1 := Step(INITIAL, b, Send(0, Zeros(126), true));
    LongSduSent(TxConfigOf(0));
    AnswerAt(s1, b);
    var s2 := Step(s1, b, ReadFrame(2, true));
    ReachableStep(s2, b, DriverConfirms(0));
    var s3 := Step(s2, b, DriverConfirms(0));
    ReadyTx(s2, b);
    NoEffect(s2.ends[0]);
    ReachableStep(s3, b, DriverConfirms(1));
    var s4 := Step(s3, b, DriverConfirms(1));
    NoEffect(s3.ends[2]);
    ReachableStep(s4, b, ReadFrame(0, true));
    var s5 := Step(s4, b, ReadFrame(0, true));
    ReadyTx(s4, b);
    OnlyClearToSends(s4, b, 0);
    FirstIsClear(s4.ends[2].unread);
    ClearToSendTaken(s4.ends[0], RxConfigOf(0, b), s4.ends[2].unread[0]);
    ReachableStep(s5, b, MainFunction(0, true));
    var s6 := Step(s5, b, MainFunction(0, true));
    ReadyTx(s5, b);
    OneBlockSent(s5.ends[0]);
    AnswerAt(s6, b);
    var s7 := Step(s6, b, ReadFrame(2, true));
    assert MissesCts(s7, 0, ReadFrame(0, true));
  }

  lemma FirstIsClear(frames: seq<Frame>)
    requires OnlyCts(frames) && frames != [] && IsFc(frames[0])
    ensures PciLow(frames[0]) == FC_CTS
  {}

  lemma ReadyTx(s: System, b: BlockSizes)
    requires Ready(s, b)
    ensures |s.ends| == 4 && forall e: EndId :: TxValid(s.ends[e].tx) && RxValid(s.ends[e].rx, RxConfigOf(e, b))
  {}

  /** The Motion ECU, with a free driver, answers the one frame on the way to it. */
  lemma AnswerAt(s: System, b: BlockSizes)
    requires Reachable(s, b) && |s.ends| == 4 && |s.slots| == 3 && s.slots[1].None?
    requires Awaits(s.ends[0].tx) && s.ends[2].unread == [] && |s.ends[0].unread| == 1 && !IsFc(s.ends[0].unread[0])
    ensures Ready(s, b)
    ensures var t := Step(s, b, ReadFrame(2, true));
            && Reachable(t, b) && t.slots[0] == s.slots[0] && t.slots[1].Some? && t.slots[1].value.owner == 2
            && t.ends[0].tx == s.ends[0].tx && t.ends[0].unread == [] && t.ends[2].tx == s.ends[2].tx
            && |t.ends[2].unread| == 1 && IsFc(t.ends[2].unread[0]) && t.ends[2].unread[0][1] == b[2]
  {
    hide ReadStep, Reachable, IsFc, Phase, Linked, Promises, OnlyFc, NoFc, OneFc, WedgedPair, TxValid, RxValid, Awaits;
    ReachableStep(s, b, ReadFrame(2, true));
    AwaitingSenderPhase(s, b, 0);
    AnswerGiven(s.ends[0], s.ends[2], RxConfigOf(2, b));
  }

  lemma SingleFrameRefused(config: TxConfig)
    ensures var r := SendStep(START, config, [9], false);
            && r.emitted == None
            && r.end == START.(tx := TX_RESET.(config := config, state := WaitTxConfirmation), refusedSf := 1)
  {}

  /** The upper layer can be told that an SDU was sent which CanTp refused and which never reached
      the bus: a single frame refused because the other channel holds the slot leaves its channel
      waiting, and the driver's confirmation of the channel's next flow control frame ends that wait. */
  lemma RefusedSingleFrameIsConfirmed(b: BlockSizes)
    ensures exists s :: Reachable(s, b) && |s.ends| == 4
              && s.ends[0].accepted == [] && s.ends[0].confirmed == [true] && s.ends[2].delivered == []
  {
    hide SendStep, ReadStep, ConfirmStep, Linked, Ready, IsFc, Reachable, FfFrame, TxValid;
    InitialReachable(b);
    ReachableStep(INITIAL, b, Send(1, [7], true));
    var s1 := Step(INITIAL, b, Send(1, [7], true));
    SingleFrameSent(TxConfigOf(1));
    ReachableStep(s1, b, Send(0, [9], true));
    var s2 := Step(s1, b, Send(0, [9], true));
    SingleFrameRefused(TxConfigOf(0));
    ReachableStep(s2, b, DriverConfirms(0));
    var s3 := Step(s2, b, DriverConfirms(0));
    ConfirmEmitsNothing(s2.ends[1]);
    ReachableStep(s3, b, Send(2, Zeros(63), true));
    var s4 := Step(s3, b, Send(2, Zeros(63), true));
    var f := FfFrame(63, Zeros(63)[..FF_DATA]);
    FirstFrameSent(TxConfigOf(2), f);
    assert s4.ends[0] == s2.ends[0] && s4.slots[0].None? && s4.ends[2].unread == [f];
    ReachableStep(s4, b, ReadFrame(0, true));
    var s5 := Step(s4, b, ReadFrame(0, true));
    FirstFrameAnswer(s4.ends[0], RxConfigOf(0, b), f, true);
    ReachableStep(s5, b, DriverConfirms(0));
    var s6 := Step(s5, b, DriverConfirms(0));
    RefusedConfirmed(s5.ends[0]);
    assert s6.ends[2].delivered == [];
  }

  lemma ConfirmEmitsNothing(e: End)
    requires TxValid(e.tx)
    ensures ConfirmStep(e).emitted == None
  {}

  lemma RefusedConfirmed(e: End)
    requires TxValid(e.tx) && e.tx.state.WaitTxConfirmation? && e.tx.totalLength == 0 && e.confirmed == []
    ensures ConfirmStep(e).end.confirmed == [true] && ConfirmStep(e).end.accepted == e.accepted
  {}
}
