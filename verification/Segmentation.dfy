/** Segmentation as the sender performs it over time, reassembly as a run of the receiver, and the
    law that joins them: whatever is segmented comes back as one delivery of the same bytes. */
module Segmentation {

  import opened Bytes
  import opened CanTpModel

  /** The consecutive frames for sdu[from..], the first with sequence number `sn`. */
  function Cfs(sdu: seq<byte>, from: nat, sn: nat): seq<Frame>
    decreases |sdu| - from
  {
    if from >= |sdu| then
      []
    else
      var n := Min(|sdu| - from, CF_DATA);
      [CfFrame(sn, sdu[from..from + n])] + Cfs(sdu, from + n, (sn + 1) % 16)
  }

  function Segment(sdu: seq<byte>): seq<Frame> {
    if |sdu| <= SF_MAX then
      [SfFrame(sdu)]
    else
      [FfFrame(|sdu|, sdu[..FF_DATA])] + Cfs(sdu, FF_DATA, 1)
  }

  /** A run of one receive channel over a sequence of received frames: the final state, the SDUs
      delivered, and whether every flow control frame it asked for was a clear-to-send. */
  datatype Run = Run(rx: Rx, delivered: seq<seq<byte>>, clean: bool)

  function Delivered(d: Option<Delivery>): seq<seq<byte>> {
    if d.Some? then [d.value.sdu] else []
  }

  predicate IsClean(reply: Option<nat>) {
    reply.Some? ==> reply.value == FC_CTS
  }

  function RunRx(rx: Rx, config: RxConfig, frames: seq<Frame>): (run: Run)
    requires RxConfigValid(config) && RxValid(rx, config)
    ensures RxValid(run.rx, config)
    decreases |frames|
  {
    if frames == [] then
      Run(rx, [], true)
    else
      var r := Receive(rx, config, frames[0], FRAME_LENGTH);
      var rest := RunRx(r.rx, config, frames[1..]);
      Run(rest.rx, Delivered(r.delivered) + rest.delivered, IsClean(r.reply) && rest.clean)
  }

  lemma {:induction false} RunConcat(rx: Rx, config: RxConfig, s: seq<Frame>, t: seq<Frame>)
    requires RxConfigValid(config) && RxValid(rx, config)
    ensures var first := RunRx(rx, config, s);
            var second := RunRx(first.rx, config, t);
            RunRx(rx, config, s + t) ==
            Run(second.rx, first.delivered + second.delivered, first.clean && second.clean)
    decreases |s|
  {
    if s == [] {
      assert s + t == t;
    } else {
      assert (s + t)[1..] == s[1..] + t;
      RunConcat(Receive(rx, config, s[0], FRAME_LENGTH).rx, config, s[1..], t);
    }
  }

  /** Flow control frames do not touch the receive side. */
  lemma FlowControlIgnored(rx: Rx, config: RxConfig, s: seq<Frame>, fc: Frame, t: seq<Frame>)
    requires RxConfigValid(config) && RxValid(rx, config) && PciType(fc) == PCI_FC
    ensures RunRx(rx, config, s + [fc] + t) == RunRx(rx, config, s + t)
  {
    assert s + [fc] + t == s + ([fc] + t);
    RunConcat(rx, config, s, [fc] + t);
    RunConcat(rx, config, s, t);
    FlowControlFirst(RunRx(rx, config, s).rx, config, fc, t);
  }

  lemma FlowControlFirst(rx: Rx, config: RxConfig, fc: Frame, t: seq<Frame>)
    requires RxConfigValid(config) && RxValid(rx, config) && PciType(fc) == PCI_FC
    ensures RunRx(rx, config, [fc] + t) == RunRx(rx, config, t)
  {
    assert ([fc] + t)[1..] == t;
  }

  // ---------------------------------------------------------------------------------------------
  // Frame round trips.

  lemma SfRoundTrip(sdu: seq<byte>)
    requires |sdu| <= SF_MAX
    ensures var f := SfFrame(sdu);
            PciType(f) == PCI_SF && PciLength(f) == |sdu| && f[2..2 + |sdu|] == sdu
  {}

  lemma FfRoundTrip(total: nat, data: seq<byte>)
    requires |data| == FF_DATA && total <= MAX_LENGTH_12BIT
    ensures var f := FfFrame(total, data);
            PciType(f) == PCI_FF && PciLength(f) == total && f[2..] == data
  {}

  lemma CfRoundTrip(sn: nat, data: seq<byte>)
    requires |data| <= CF_DATA
    ensures var f := CfFrame(sn, data);
            PciType(f) == PCI_CF && PciLow(f) == sn % 16 && f[1..1 + |data|] == data
  {}

  lemma FcRoundTrip(status: nat, blockSize: byte, stMin: byte)
    requires status < 16
    ensures var f := FcFrame(status, blockSize, stMin);
            PciType(f) == PCI_FC && PciLow(f) == status && f[1] == blockSize && f[2] == stMin
  {}

  // ---------------------------------------------------------------------------------------------
  // Reassembly undoes segmentation.

  /** One consecutive frame, taken by a receiver that holds sdu[..received] and expects it. */
  lemma CfExtends(rx: Rx, config: RxConfig, sdu: seq<byte>)
    requires RxConfigValid(config) && RxValid(rx, config) && rx.state.Receiving?
    requires rx.totalLength == |sdu| && rx.buffer[..rx.receivedLength] == sdu[..rx.receivedLength]
    ensures var next := rx.receivedLength + CfShare(rx);
            var r := Receive(rx, config, CfFrame(rx.expectedSn, sdu[rx.receivedLength..next]), FRAME_LENGTH);
            && IsClean(r.reply)
            && (next == |sdu| ==> r.rx.state.RxIdle? && Delivered(r.delivered) == [sdu])
            && (next < |sdu| ==>
                  && r.rx.state.Receiving? && Delivered(r.delivered) == []
                  && r.rx.totalLength == |sdu| && r.rx.receivedLength == next
                  && r.rx.expectedSn == (rx.expectedSn + 1) % 16
                  && r.rx.buffer[..next] == sdu[..next])
  {
    var from, n := rx.receivedLength, CfShare(rx);
    var data := sdu[from..from + n];
    CfRoundTrip(rx.expectedSn, data);
    LengthGuardsAreDead(rx, config);
    assert Overwrite(rx.buffer, from, data)[..from + n] == sdu[..from + n];
    assert sdu[..|sdu|] == sdu;
  }

  /** A receiver that holds sdu[..received] and expects `sn` completes the SDU from its remaining
      consecutive frames, across every wrap of the 4-bit sequence number. */
  lemma {:induction false} TailReassembles(rx: Rx, config: RxConfig, sdu: seq<byte>)
    requires RxConfigValid(config) && RxValid(rx, config) && rx.state.Receiving?
    requires rx.totalLength == |sdu| && rx.buffer[..rx.receivedLength] == sdu[..rx.receivedLength]
    ensures var run := RunRx(rx, config, Cfs(sdu, rx.receivedLength, rx.expectedSn));
            run.rx.state.RxIdle? && run.delivered == [sdu] && run.clean
    decreases |sdu| - rx.receivedLength
  {
    hide Receive, CfFrame;
    var from, next := rx.receivedLength, rx.receivedLength + CfShare(rx);
    var f := CfFrame(rx.expectedSn, sdu[from..next]);
    var frames, rest := Cfs(sdu, from, rx.expectedSn), Cfs(sdu, next, (rx.expectedSn + 1) % 16);
    CfExtends(rx, config, sdu);
    assert frames[0] == f && frames[1..] == rest;
    var r := Receive(rx, config, f, FRAME_LENGTH);
    if next < |sdu| {
      TailReassembles(r.rx, config, sdu);
    } else {
      assert rest == [];
    }
  }

  /** Segment and reassemble: an idle receiver turns the frames of an SDU of 1 to 2048 bytes into
      exactly one delivery of that SDU, asks for nothing but a clear-to-send, and is idle again. */
  lemma SegmentationRoundTrip(rx: Rx, config: RxConfig, sdu: seq<byte>)
    requires RxConfigValid(config) && RxValid(rx, config) && rx.state.RxIdle?
    requires 1 <= |sdu| <= config.rxBufferSize
    ensures var run := RunRx(rx, config, Segment(sdu));
            run.rx.state.RxIdle? && run.delivered == [sdu] && run.clean
  {
    if |sdu| <= SF_MAX {
      SfRoundTrip(sdu);
      assert Segment(sdu)[1..] == [];
    } else {
      FfRoundTrip(|sdu|, sdu[..FF_DATA]);
      var r := Receive(rx, config, Segment(sdu)[0], FRAME_LENGTH);
      assert r.rx.buffer[..FF_DATA] == sdu[..FF_DATA];
      assert Segment(sdu)[1..] == Cfs(sdu, FF_DATA, 1);
      TailReassembles(r.rx, config, sdu);
    }
  }

  /** Number of frames: one first frame and ceil((L - 62) / 63) consecutive frames. */
  lemma {:induction false} CfCount(sdu: seq<byte>, from: nat, sn: nat)
    requires from <= |sdu|
    ensures |Cfs(sdu, from, sn)| == (|sdu| - from + CF_DATA - 1) / CF_DATA
    decreases |sdu| - from
  {
    if from < |sdu| {
      var n := Min(|sdu| - from, CF_DATA);
      CfCount(sdu, from + n, (sn + 1) % 16);
      if n == CF_DATA {
        assert |sdu| - from + CF_DATA - 1 == (|sdu| - (from + n) + CF_DATA - 1) + CF_DATA;
      }
    }
  }
}
