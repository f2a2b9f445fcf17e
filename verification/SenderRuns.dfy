/** One transmit channel under every schedule of main functions, driver confirmations and flow
    control frames: how much it sends, when it finishes, and how it keeps to the granted blocks. */
module SenderRuns {

  import opened Bytes
  import opened CanTpModel
  import opened Segmentation
  import opened TransportLink

  datatype TxEvent =
    | Polled(accept: bool)
    | FrameConfirmed
    | FlowControlRead(frame: Frame)

  function TxStep(tx: Tx, event: TxEvent): (r: TxResult)
    requires TxValid(tx)
    ensures TxValid(r.tx)
  {
    match event
    case Polled(accept) => Poll(tx, accept)
    case FrameConfirmed => Confirm(tx, true)
    case FlowControlRead(frame) => FlowControl(tx, frame, FRAME_LENGTH)
  }

  /** The frames a step puts on the bus. */
  function Sent(tx: Tx, event: TxEvent): seq<Frame>
    requires TxValid(tx)
  {
    var r := TxStep(tx, event);
    if event.Polled? && event.accept && r.request.Some? then [r.request.value.frame] else []
  }

  /** The steps that move a granted transfer: a main function whose frame is accepted, and the
      confirmation it then waits for. */
  predicate Effective(tx: Tx, event: TxEvent) {
    || (tx.state.SendCf? && event.Polled? && event.accept)
    || (tx.state.WaitTxConfirmation? && event.FrameConfirmed?)
  }

  datatype TxRun = TxRun(tx: Tx, sent: seq<Frame>, confirmed: seq<bool>, effective: nat)

  function RunTx(tx: Tx, events: seq<TxEvent>): (run: TxRun)
    requires TxValid(tx)
    ensures TxValid(run.tx)
    decreases |events|
  {
    if events == [] then
      TxRun(tx, [], [], 0)
    else
      var r := TxStep(tx, events[0]);
      var rest := RunTx(r.tx, events[1..]);
      TxRun(rest.tx, Sent(tx, events[0]) + rest.sent, Confirmed(r.confirmed) + rest.confirmed,
            (if Effective(tx, events[0]) then 1 else 0) + rest.effective)
  }

  // ---------------------------------------------------------------------------------------------
  // Progress with block size 0.

  predicate Granted(tx: Tx) {
    && tx.blockSize == 0
    && (tx.state.SendCf? || (tx.state.WaitTxConfirmation? && tx.totalLength != 0))
  }

  /** The effective steps still needed. */
  function StepsLeft(tx: Tx): nat
    requires TxValid(tx)
  {
    2 * |Remaining(tx)| + if tx.state.WaitTxConfirmation? then 1 else 0
  }

  lemma GrantedStep(tx: Tx, event: TxEvent)
    requires TxValid(tx) && Granted(tx)
    ensures var r := TxStep(tx, event);
            && Sent(tx, event) + Remaining(r.tx) == Remaining(tx)
            && StepsLeft(r.tx) + (if Effective(tx, event) then 1 else 0) == StepsLeft(tx)
            && StepsLeft(tx) > 0
            && (r.tx.state.TxIdle? ==> r.tx == TX_RESET && Confirmed(r.confirmed) == [true])
            && (!r.tx.state.TxIdle? ==> Granted(r.tx) && Confirmed(r.confirmed) == [])
            && (r.tx.state.TxIdle? <==> StepsLeft(r.tx) == 0)
  {
    if tx.state.SendCf? {
      var from, n := tx.transmittedLength, Min(tx.totalLength - tx.transmittedLength, CF_DATA);
      SliceOfSlice(tx.buffer, 0, tx.totalLength, from, from + n);
      assert tx.buffer[0..tx.totalLength] == tx.buffer[..tx.totalLength];
    }
  }

  lemma {:induction false} IdleRun(tx: Tx, events: seq<TxEvent>)
    requires tx == TX_RESET
    ensures RunTx(tx, events) == TxRun(TX_RESET, [], [], 0)
    decreases |events|
  {
    if events != [] {
      IdleRun(TxStep(tx, events[0]).tx, events[1..]);
    }
  }

  /** For every schedule, with refusals, duplicated flow control and idle polls anywhere in it: the
      frames sent are the first of the remaining consecutive frames, each effective step brings the
      end one step closer, and the channel is idle, with everything sent and one positive
      confirmation given, exactly when two effective steps per frame have been made. */
  lemma {:induction false} GrantedRun(tx: Tx, events: seq<TxEvent>)
    requires TxValid(tx) && Granted(tx)
    ensures var run := RunTx(tx, events);
            && run.sent + Remaining(run.tx) == Remaining(tx)
            && run.effective + StepsLeft(run.tx) == StepsLeft(tx)
            && (run.tx.state.TxIdle? <==> run.effective == StepsLeft(tx))
            && run.confirmed == (if run.tx.state.TxIdle? then [true] else [])
            && (run.tx.state.TxIdle? ==> run.tx == TX_RESET)
    decreases |events|
  {
    hide TxStep, Sent, Effective, Remaining;
    if events == [] {
      GrantedStep(tx, Polled(false));
    } else {
      GrantedStep(tx, events[0]);
      var next := TxStep(tx, events[0]).tx;
      if next.state.TxIdle? {
        IdleRun(next, events[1..]);
      } else {
        GrantedRun(next, events[1..]);
      }
      var rest := RunTx(next, events[1..]);
      assert Sent(tx, events[0]) + (rest.sent + Remaining(rest.tx)) == (Sent(tx, events[0]) + rest.sent) + Remaining(rest.tx);
    }
  }

  /** From the clear-to-send on: a channel that has sent the first frame of an SDU of L bytes and
      now reads a clear-to-send with block size 0 sends exactly ceil((L - 62) / 63) consecutive
      frames, which are those of the SDU, in 2 * ceil((L - 62) / 63) effective steps, and gives PduR
      one positive confirmation; before that it has given none. */
  lemma CompletesAfterCts(config: TxConfig, sdu: seq<byte>, cts: Frame, events: seq<TxEvent>)
    requires SF_MAX < |sdu| <= BUFFER_SIZE
    requires PciType(cts) == PCI_FC && PciLow(cts) == FC_CTS && cts[1] == 0
    ensures var waiting := Transmit(TX_RESET, config, sdu, true).tx;
            var run := RunTx(waiting, [FlowControlRead(cts)] + events);
            var frames := (|sdu| - FF_DATA + CF_DATA - 1) / CF_DATA;
            && run.effective <= 2 * frames
            && run.sent <= Segment(sdu)[1..]
            && (run.tx.state.TxIdle? <==> run.effective == 2 * frames)
            && (run.tx.state.TxIdle? ==> run.sent == Segment(sdu)[1..] && |run.sent| == frames && run.confirmed == [true])
            && (!run.tx.state.TxIdle? ==> run.confirmed == [])
  {
    hide RunTx, Segment, Cfs;
    var waiting := Transmit(TX_RESET, config, sdu, true).tx;
    assert waiting.buffer[..|sdu|] == sdu;
    FirstEvent(waiting, FlowControlRead(cts), events);
    var granted := TxStep(waiting, FlowControlRead(cts)).tx;
    GrantedRun(granted, events);
    assert Segment(sdu)[1..] == Cfs(sdu, FF_DATA, 1) by {
      SegmentTail(sdu);
    }
    CfCount(sdu, FF_DATA, 1);
  }

  lemma SegmentTail(sdu: seq<byte>)
    requires SF_MAX < |sdu|
    ensures |Segment(sdu)| > 0 && Segment(sdu)[1..] == Cfs(sdu, FF_DATA, 1)
  {}

  lemma FirstEvent(tx: Tx, event: TxEvent, events: seq<TxEvent>)
    requires TxValid(tx) && !Effective(tx, event) && Sent(tx, event) == [] && TxStep(tx, event).confirmed == None
    ensures RunTx(tx, [event] + events) == RunTx(TxStep(tx, event).tx, events)
  {}

  // ---------------------------------------------------------------------------------------------
  // Receivers that say no.

  /** n flow control frames in a row that ask to wait. */
  function Waits(n: nat): seq<TxEvent>
    decreases n
  {
    if n == 0 then [] else [FlowControlRead(FcFrame(FC_WAIT, 0, 0))] + Waits(n - 1)
  }

  /** A waiting sender puts up with exactly three frames in a row that ask it to wait: it then still
      waits, having told nobody; the fourth makes it give up, with one negative confirmation. */
  lemma {:induction false} WaitFramesTolerated(tx: Tx, n: nat)
    requires TxValid(tx) && tx.state.WaitFc? && tx.waitFrameCount <= MAX_WAIT_FRAMES
    ensures var run := RunTx(tx, Waits(n));
            && run.sent == []
            && if tx.waitFrameCount + n <= MAX_WAIT_FRAMES then
                 run.tx == tx.(waitFrameCount := tx.waitFrameCount + n) && run.confirmed == []
               else
                 run.tx == TX_RESET && run.confirmed == [false]
    decreases n
  {
    hide FlowControl, FcFrame;
    if n > 0 {
      var f := FcFrame(FC_WAIT, 0, 0);
      OneWait(tx);
      assert Waits(n)[1..] == Waits(n - 1);
      var next := FlowControl(tx, f, FRAME_LENGTH).tx;
      if tx.waitFrameCount == MAX_WAIT_FRAMES {
        IdleRun(next, Waits(n - 1));
      } else {
        WaitFramesTolerated(next, n - 1);
      }
    }
  }

  lemma OneWait(tx: Tx)
    requires TxValid(tx) && tx.state.WaitFc? && tx.waitFrameCount <= MAX_WAIT_FRAMES
    ensures var r := FlowControl(tx, FcFrame(FC_WAIT, 0, 0), FRAME_LENGTH);
            if tx.waitFrameCount == MAX_WAIT_FRAMES then
              r.tx == TX_RESET && Confirmed(r.confirmed) == [false]
            else
              r.tx == tx.(waitFrameCount := tx.waitFrameCount + 1) && Confirmed(r.confirmed) == []
  {}

  /** An SDU that the sender accepts but the receiver has no room for: the receiver answers the first
      frame with an overflow and stays idle, and the sender then gives up with a negative confirmation. */
  lemma OversizedSduAborted(config: TxConfig, own: RxConfig, rx: Rx, sdu: seq<byte>)
    requires RxConfigValid(own) && RxValid(rx, own) && rx.state.RxIdle?
    requires SF_MAX < |sdu| <= BUFFER_SIZE && |sdu| > own.rxBufferSize
    ensures var sent := Transmit(TX_RESET, config, sdu, true);
            var answer := Receive(rx, own, sent.request.value.frame, FRAME_LENGTH);
            var told := FlowControl(sent.tx, FcFrame(answer.reply.value, own.blockSize, own.stMin), FRAME_LENGTH);
            && sent.ok && answer.reply == Some(FC_OVERFLOW) && answer.rx == rx
            && told.tx == TX_RESET && told.confirmed == Some(Confirmation(config.pduRTxPduId, false))
  {}

  /** A receiver in the middle of another SDU asks the sender of a first frame to wait, and keeps what
      it has; the first frame is lost on it. */
  lemma BusyReceiverDefers(config: TxConfig, own: RxConfig, rx: Rx, sdu: seq<byte>)
    requires RxConfigValid(own) && RxValid(rx, own) && rx.state.Receiving?
    requires SF_MAX < |sdu| <= BUFFER_SIZE
    ensures var sent := Transmit(TX_RESET, config, sdu, true);
            var answer := Receive(rx, own, sent.request.value.frame, FRAME_LENGTH);
            answer.reply == Some(FC_WAIT) && answer.rx == rx && answer.delivered == None
  {}

  // ---------------------------------------------------------------------------------------------
  // Block discipline of the sender.

  /** The consecutive frames sent since the last clear-to-send the channel took, when `n` had been
      sent before the run. */
  function SinceCts(tx: Tx, events: seq<TxEvent>, n: nat): nat
    requires TxValid(tx)
    decreases |events|
  {
    if events == [] then
      n
    else
      var next := TxStep(tx, events[0]).tx;
      var taken := tx.state.WaitFc? && next.state.SendCf?;
      SinceCts(next, events[1..], if taken then 0 else n + |Sent(tx, events[0])|)
  }

  /** At most the granted number of frames has been sent, and a channel that has gone back to
      waiting for flow control has sent exactly that many. */
  predicate WithinBlock(tx: Tx, n: nat) {
    tx.state.TxIdle? || tx.totalLength == 0 || tx.blockSize == 0 ||
    (n == tx.blockCounter <= tx.blockSize && (tx.state.WaitFc? ==> n == tx.blockSize))
  }

  lemma StepStaysWithinBlock(tx: Tx, event: TxEvent, n: nat)
    requires TxValid(tx) && WithinBlock(tx, n)
    ensures var next := TxStep(tx, event).tx;
            WithinBlock(next, if tx.state.WaitFc? && next.state.SendCf? then 0 else n + |Sent(tx, event)|)
  {}

  /** For every granted block size and every run, the sender emits at most that many consecutive
      frames between two clear-to-sends, and stops for the next one only after exactly that many. */
  lemma {:induction false} SenderKeepsToBlocks(tx: Tx, events: seq<TxEvent>, n: nat)
    requires TxValid(tx) && WithinBlock(tx, n)
    ensures WithinBlock(RunTx(tx, events).tx, SinceCts(tx, events, n))
    decreases |events|
  {
    hide TxStep, Sent, WithinBlock;
    if events != [] {
      StepStaysWithinBlock(tx, events[0], n);
      var next := TxStep(tx, events[0]).tx;
      var taken := tx.state.WaitFc? && next.state.SendCf?;
      SenderKeepsToBlocks(next, events[1..], if taken then 0 else n + |Sent(tx, events[0])|);
    }
  }

  // ---------------------------------------------------------------------------------------------
  // Block discipline of the receiver.

  function Replies(rx: Rx, config: RxConfig, frames: seq<Frame>): (replies: seq<Option<nat>>)
    requires RxConfigValid(config) && RxValid(rx, config)
    ensures |replies| == |frames|
    decreases |frames|
  {
    if frames == [] then
      []
    else
      var r := Receive(rx, config, frames[0], FRAME_LENGTH);
      [r.reply] + Replies(r.rx, config, frames[1..])
  }

  ghost predicate InOrder(frames: seq<Frame>, sn: nat) {
    forall i :: 0 <= i < |frames| ==> PciType(frames[i]) == PCI_CF && PciLow(frames[i]) == (sn + i) % 16
  }

  /** Consecutive frames the receiver still needs. */
  function FramesNeeded(rx: Rx): nat {
    if rx.state.Receiving? && rx.receivedLength <= rx.totalLength then
      (rx.totalLength - rx.receivedLength + CF_DATA - 1) / CF_DATA
    else
      0
  }

  lemma InOrderStep(rx: Rx, config: RxConfig, f: Frame)
    requires RxConfigValid(config) && RxValid(rx, config) && rx.state.Receiving? && config.blockSize != 0
    requires rx.blockCounter < config.blockSize
    requires PciType(f) == PCI_CF && PciLow(f) == rx.expectedSn
    ensures var r := Receive(rx, config, f, FRAME_LENGTH);
            && FramesNeeded(r.rx) == FramesNeeded(rx) - 1
            && r.reply == (if FramesNeeded(rx) > 1 && rx.blockCounter + 1 == config.blockSize then Some(FC_CTS) else None)
            && (FramesNeeded(rx) > 1 ==>
                  && r.rx.state.Receiving? && r.rx.expectedSn == (rx.expectedSn + 1) % 16
                  && r.rx.blockCounter == if rx.blockCounter + 1 == config.blockSize then 0 else rx.blockCounter + 1)
            && (FramesNeeded(rx) == 1 ==> r.rx == RX_RESET)
  {}

  lemma {:induction false} IdleIgnoresCfs(rx: Rx, config: RxConfig, frames: seq<Frame>)
    requires RxConfigValid(config) && RxValid(rx, config) && rx.state.RxIdle?
    requires forall i :: 0 <= i < |frames| ==> PciType(frames[i]) == PCI_CF
    ensures forall i :: 0 <= i < |frames| ==> Replies(rx, config, frames)[i] == None
    decreases |frames|
  {
    if frames != [] {
      IdleIgnoresCfs(rx, config, frames[1..]);
    }
  }

  lemma AtLeastOneBlock(k: int, b: nat)
    requires k >= 1
    ensures k * b >= b
  {}

  lemma Remainder(x: nat, b: nat, q: nat, r: nat)
    requires r < b && x == q * b + r
    ensures x % b == r
  {
    var k := q - x / b;
    assert k * b == x % b - r;
    if k >= 1 {
      AtLeastOneBlock(k, b);
    } else if k <= -1 {
      AtLeastOneBlock(-k, b);
    }
  }

  lemma ShiftMod(c: nat, i: nat, b: nat)
    requires c < b
    ensures var next := if c + 1 == b then 0 else c + 1;
            (next + i) % b == (c + i + 1) % b
  {
    if c + 1 == b {
      assert i + b == (i / b + 1) * b + i % b;
      Remainder(i + b, b, i / b + 1, i % b);
    }
  }

  /** A receiver that grants blocks of b > 0 frames asks for the next block with a clear-to-send
      after exactly each b in-order consecutive frames, until the SDU is complete, and sends no
      other flow control. `rx.blockCounter` is 0 after the first frame. */
  lemma {:induction false} ReceiverRequestsEachBlock(rx: Rx, config: RxConfig, frames: seq<Frame>, i: nat)
    requires RxConfigValid(config) && RxValid(rx, config) && rx.state.Receiving? && config.blockSize != 0
    requires rx.blockCounter < config.blockSize
    requires InOrder(frames, rx.expectedSn) && i < |frames|
    ensures Replies(rx, config, frames)[i] ==
            if i + 1 < FramesNeeded(rx) && (rx.blockCounter + i + 1) % config.blockSize == 0 then Some(FC_CTS) else None
    decreases |frames|
  {
    assert InOrder(frames[..1], rx.expectedSn) && (rx.expectedSn + 0) % 16 == rx.expectedSn;
    InOrderStep(rx, config, frames[0]);
    hide Receive, InOrder, FramesNeeded;
    var next := Receive(rx, config, frames[0], FRAME_LENGTH).rx;
    if i == 0 {
      Small(rx.blockCounter + 1, config.blockSize);
    } else if FramesNeeded(rx) == 1 {
      OnlyCfs(frames, rx.expectedSn);
      IdleIgnoresCfs(next, config, frames[1..]);
    } else {
      InOrderTail(frames, rx.expectedSn);
      ReceiverRequestsEachBlock(next, config, frames[1..], i - 1);
      ShiftMod(rx.blockCounter, i, config.blockSize);
    }
  }

  lemma OnlyCfs(frames: seq<Frame>, sn: nat)
    requires InOrder(frames, sn) && frames != []
    ensures forall i :: 0 <= i < |frames[1..]| ==> PciType(frames[1..][i]) == PCI_CF
  {}

  lemma InOrderTail(frames: seq<Frame>, sn: nat)
    requires InOrder(frames, sn) && frames != []
    ensures InOrder(frames[1..], (sn + 1) % 16)
  {
    hide PciType, PciLow;
    forall j | 0 <= j < |frames[1..]|
      ensures PciType(frames[1..][j]) == PCI_CF && PciLow(frames[1..][j]) == ((sn + 1) % 16 + j) % 16
    {
      assert frames[1..][j] == frames[j + 1];
      WrapOnce(sn + 1, j);
    }
  }

  lemma WrapOnce(a: nat, j: nat)
    ensures (a % 16 + j) % 16 == (a + j) % 16
  {}

  lemma Small(c: nat, b: nat)
    requires 0 < c <= b
    ensures c % b == 0 <==> c == b
  {}
}
