/** Reassembly of arbitrary input. Whatever frames arrive on a channel, in whatever order, every
    segmented SDU it delivers is made of the frames received since one first frame. */
module Reassembly {

  import opened Bytes
  import opened CanTpModel

  /** A received CAN frame: the driver's 64-byte buffer and the length of the frame in it. */
  datatype RxFrame = RxFrame(data: Frame, length: nat)

  /** The receive channel after a history of frames. */
  function StateAfter(config: RxConfig, frames: seq<RxFrame>): (rx: Rx)
    requires RxConfigValid(config)
    ensures RxValid(rx, config)
    decreases |frames|
  {
    if frames == [] then
      RX_RESET
    else
      var last := frames[|frames| - 1];
      Receive(StateAfter(config, frames[..|frames| - 1]), config, last.data, last.length).rx
  }

  /** What the last frame of a history makes the channel deliver. */
  function DeliveredBy(config: RxConfig, frames: seq<RxFrame>): Option<Delivery>
    requires RxConfigValid(config) && frames != []
  {
    var last := frames[|frames| - 1];
    Receive(StateAfter(config, frames[..|frames| - 1]), config, last.data, last.length).delivered
  }

  // ---------------------------------------------------------------------------------------------
  // A reference account of a segmented SDU, in terms of the frames since its first frame.

  predicate IsCf(f: RxFrame) {
    f.length > 0 && PciType(f.data) == PCI_CF
  }

  predicate IsFirst(f: RxFrame, config: RxConfig) {
    && f.length >= FRAME_LENGTH && PciType(f.data) == PCI_FF
    && FF_DATA < PciLength(f.data) <= config.rxBufferSize
  }

  /** A single frame the channel accepts. */
  predicate IsSingle(f: RxFrame) {
    && f.length >= 2 && PciType(f.data) == PCI_SF
    && PciLength(f.data) <= SF_MAX && PciLength(f.data) + 2 <= f.length
  }

  function CfsOf(frames: seq<RxFrame>): seq<RxFrame> {
    if frames == [] then
      []
    else
      var last := frames[|frames| - 1];
      CfsOf(frames[..|frames| - 1]) + if IsCf(last) then [last] else []
  }

  /** The data bytes of consecutive frames. */
  function Payloads(cfs: seq<RxFrame>): (s: seq<byte>)
    ensures |s| == CF_DATA * |cfs|
  {
    if cfs == [] then [] else Payloads(cfs[..|cfs| - 1]) + cfs[|cfs| - 1].data[1..]
  }

  function SfData(f: RxFrame): seq<byte>
    requires IsSingle(f)
  {
    f.data[2..2 + PciLength(f.data)]
  }

  /** `bytes` with the data of an accepted single frame written over its beginning. */
  function Overlaid(bytes: seq<byte>, f: RxFrame): (s: seq<byte>)
    requires |bytes| >= FF_DATA
    ensures |s| == |bytes|
  {
    if IsSingle(f) then Overwrite(bytes, 0, SfData(f)) else bytes
  }

  /** The first frame's data, with every accepted single frame since written over its beginning. */
  function Overlay(first: seq<byte>, since: seq<RxFrame>): (s: seq<byte>)
    requires |first| == FF_DATA
    ensures |s| == FF_DATA
  {
    if since == [] then
      first
    else
      var last, before := since[|since| - 1], Overlay(first, since[..|since| - 1]);
      Overlaid(before, last)
  }

  ghost predicate NumberedFromOne(cfs: seq<RxFrame>) {
    forall i :: 0 <= i < |cfs| ==> PciLow(cfs[i].data) == (i + 1) % 16
  }

  /** All the bytes of the SDU that starts at `since[0]` and of whatever pads its last frame. */
  function Gathered(since: seq<RxFrame>): seq<byte>
    requires |since| > 0
  {
    Overlay(since[0].data[2..], since[1..]) + Payloads(CfsOf(since[1..]))
  }

  /** `rx` is in the middle of the SDU that starts at `since[0]`. */
  ghost predicate Collecting(rx: Rx, config: RxConfig, since: seq<RxFrame>) {
    && rx.state.Receiving? && |since| > 0
    && IsFirst(since[0], config)
    && rx.totalLength == PciLength(since[0].data)
    && NumberedFromOne(CfsOf(since[1..]))
    && rx.expectedSn == (|CfsOf(since[1..])| + 1) % 16
    && rx.receivedLength == FF_DATA + CF_DATA * |CfsOf(since[1..])|
    && |rx.buffer| == BUFFER_SIZE && rx.receivedLength <= BUFFER_SIZE
    && rx.buffer[..rx.receivedLength] == Gathered(since)
  }

  /** An SDU made of the frames `since`: the first frame announces its length and the consecutive
      frames are numbered 1, 2, ... modulo 16; the last of them completes it. */
  ghost predicate Complete(sdu: seq<byte>, config: RxConfig, since: seq<RxFrame>) {
    && |since| > 0 && IsFirst(since[0], config)
    && NumberedFromOne(CfsOf(since[1..]))
    && |sdu| == PciLength(since[0].data) <= |Gathered(since)| < |sdu| + CF_DATA
    && sdu == Gathered(since)[..|sdu|]
  }

  // ---------------------------------------------------------------------------------------------
  // One more frame.

  lemma Snoc(since: seq<RxFrame>, f: RxFrame)
    requires |since| > 0
    ensures (since + [f])[0] == since[0]
    ensures (since + [f])[1..] == since[1..] + [f]
    ensures CfsOf(since[1..] + [f]) == CfsOf(since[1..]) + if IsCf(f) then [f] else []
    ensures Overlay(since[0].data[2..], since[1..] + [f]) ==
            Overlaid(Overlay(since[0].data[2..], since[1..]), f)
  {}

  lemma PayloadsSnoc(cfs: seq<RxFrame>, f: RxFrame)
    ensures Payloads(cfs + [f]) == Payloads(cfs) + f.data[1..]
  {}

  /** A first frame taken by an idle channel starts an SDU. */
  lemma FirstFrameStarts(rx: Rx, config: RxConfig, f: RxFrame)
    requires RxConfigValid(config) && RxValid(rx, config) && rx.state.RxIdle?
    requires Receive(rx, config, f.data, f.length).rx.state.Receiving?
    ensures Collecting(Receive(rx, config, f.data, f.length).rx, config, [f])
  {}

  lemma OverlaidPrefix(bytes: seq<byte>, k: nat, f: RxFrame)
    requires FF_DATA <= k <= |bytes|
    ensures Overlaid(bytes, f)[..k] == Overlaid(bytes[..k], f)
  {}

  lemma OverlaidConcat(s: seq<byte>, t: seq<byte>, f: RxFrame)
    requires |s| == FF_DATA
    ensures Overlaid(s + t, f) == Overlaid(s, f) + t
  {}

  lemma GatherOther(since: seq<RxFrame>, f: RxFrame)
    requires |since| > 0 && !IsCf(f)
    ensures Gathered(since + [f]) == Overlaid(Gathered(since), f)
  {
    hide IsSingle, IsCf, Overlaid, Overlay, CfsOf, Payloads;
    Snoc(since, f);
    assert CfsOf(since[1..]) + [] == CfsOf(since[1..]);
    OverlaidConcat(Overlay(since[0].data[2..], since[1..]), Payloads(CfsOf(since[1..])), f);
  }

  lemma GatherCf(since: seq<RxFrame>, f: RxFrame)
    requires |since| > 0 && IsCf(f)
    ensures Gathered(since + [f]) == Gathered(since) + f.data[1..]
  {
    Snoc(since, f);
    PayloadsSnoc(CfsOf(since[1..]), f);
  }

  lemma ReceiveOther(rx: Rx, config: RxConfig, f: RxFrame)
    requires RxConfigValid(config) && RxValid(rx, config) && rx.state.Receiving? && !IsCf(f)
    ensures Receive(rx, config, f.data, f.length).rx == rx.(buffer := Overlaid(rx.buffer, f))
  {}

  /** A frame that is no consecutive frame leaves the SDU being collected as it is, but for a single
      frame, which is written over its beginning. */
  lemma OtherFrameKeeps(rx: Rx, config: RxConfig, since: seq<RxFrame>, f: RxFrame)
    requires RxConfigValid(config) && RxValid(rx, config) && Collecting(rx, config, since) && !IsCf(f)
    ensures Collecting(Receive(rx, config, f.data, f.length).rx, config, since + [f])
  {
    hide Receive, IsSingle, IsCf, IsFirst, Gathered, Overlaid;
    Snoc(since, f);
    GatherOther(since, f);
    ReceiveOther(rx, config, f);
    OverlaidPrefix(rx.buffer, rx.receivedLength, f);
  }

  lemma NumberingExtends(cfs: seq<RxFrame>, f: RxFrame)
    requires NumberedFromOne(cfs) && PciLow(f.data) == (|cfs| + 1) % 16
    ensures NumberedFromOne(cfs + [f])
  {}

  lemma ReceiveCf(rx: Rx, config: RxConfig, f: RxFrame)
    requires RxConfigValid(config) && RxValid(rx, config) && rx.state.Receiving? && IsCf(f)
    ensures var r, k, n := Receive(rx, config, f.data, f.length), rx.receivedLength, CfShare(rx);
            && (r.rx.state.Receiving? || r.delivered.Some? ==> PciLow(f.data) == rx.expectedSn)
            && (r.rx.state.Receiving? ==>
                  && n == CF_DATA && |r.rx.buffer| == BUFFER_SIZE && r.rx.totalLength == rx.totalLength
                  && r.rx.expectedSn == (rx.expectedSn + 1) % 16 && r.rx.receivedLength == k + CF_DATA <= BUFFER_SIZE
                  && r.rx.buffer[..k + CF_DATA] == rx.buffer[..k] + f.data[1..])
            && (r.delivered.Some? ==>
                  && k + n == rx.totalLength && r.delivered.value.sdu == rx.buffer[..k] + f.data[1..1 + n])
  {}

  /** A consecutive frame extends the SDU, completes it, or ends it with a reset. */
  lemma ConsecutiveFrame(rx: Rx, config: RxConfig, since: seq<RxFrame>, f: RxFrame)
    requires RxConfigValid(config) && RxValid(rx, config) && Collecting(rx, config, since) && IsCf(f)
    ensures var r := Receive(rx, config, f.data, f.length);
            && (r.rx.state.Receiving? ==> Collecting(r.rx, config, since + [f]))
            && (r.delivered.Some? ==> Complete(r.delivered.value.sdu, config, since + [f]))
  {
    hide Receive, IsSingle, IsCf, IsFirst, Gathered, NumberedFromOne, RxValid, CfsOf, PciLength, PciLow, Overlay;
    Snoc(since, f);
    GatherCf(since, f);
    ReceiveCf(rx, config, f);
    var r := Receive(rx, config, f.data, f.length);
    if r.rx.state.Receiving? || r.delivered.Some? {
      LengthGuardsAreDead(rx, config);
      NumberingExtends(CfsOf(since[1..]), f);
      var n := CfShare(rx);
      assert (Gathered(since) + f.data[1..])[..rx.receivedLength + n] == Gathered(since) + f.data[1..1 + n];
    }
  }

  // ---------------------------------------------------------------------------------------------
  // Every history.

  /** Whenever the channel is receiving, it is collecting the SDU of one first frame of its history. */
  lemma {:induction false} ReceivingSince(config: RxConfig, frames: seq<RxFrame>) returns (start: nat)
    requires RxConfigValid(config) && StateAfter(config, frames).state.Receiving?
    ensures start < |frames| && Collecting(StateAfter(config, frames), config, frames[start..])
    decreases |frames|
  {
    hide Receive, Collecting, IsCf;
    var n := |frames| - 1;
    var rx, f := StateAfter(config, frames[..n]), frames[n];
    if rx.state.RxIdle? {
      start := n;
      FirstFrameStarts(rx, config, f);
      assert frames[n..] == [f];
    } else {
      start := ReceivingSince(config, frames[..n]);
      assert frames[start..] == frames[..n][start..] + [f];
      if IsCf(f) {
        ConsecutiveFrame(rx, config, frames[..n][start..], f);
      } else {
        OtherFrameKeeps(rx, config, frames[..n][start..], f);
      }
    }
  }

  lemma OnlyCfsCompleteSegments(rx: Rx, config: RxConfig, f: RxFrame)
    requires RxConfigValid(config) && RxValid(rx, config)
    requires Receive(rx, config, f.data, f.length).delivered.Some?
    ensures IsCf(f) ==> rx.state.Receiving?
    ensures !IsCf(f) ==>
              && IsSingle(f)
              && Receive(rx, config, f.data, f.length).delivered.value.sdu == SfData(f)
  {}

  /** Whatever the history, an SDU delivered on a consecutive frame is complete since some first
      frame of the history; one delivered on any other frame is that single frame's own data. */
  lemma DeliveredIsComplete(config: RxConfig, frames: seq<RxFrame>) returns (start: nat)
    requires RxConfigValid(config) && frames != [] && DeliveredBy(config, frames).Some?
    ensures start < |frames|
    ensures var last, sdu := frames[|frames| - 1], DeliveredBy(config, frames).value.sdu;
            && (IsCf(last) ==> Complete(sdu, config, frames[start..]))
            && (!IsCf(last) ==> IsSingle(last) && sdu == SfData(last))
  {
    hide Receive, IsCf, IsSingle, Complete, Collecting;
    var n := |frames| - 1;
    var rx, f := StateAfter(config, frames[..n]), frames[n];
    OnlyCfsCompleteSegments(rx, config, f);
    if IsCf(f) {
      start := ReceivingSince(config, frames[..n]);
      assert frames[start..] == frames[..n][start..] + [f];
      ConsecutiveFrame(rx, config, frames[..n][start..], f);
    } else {
      start := n;
    }
  }

  lemma {:induction false} NoSingleNoOverlay(first: seq<byte>, since: seq<RxFrame>)
    requires |first| == FF_DATA
    requires forall i :: 0 <= i < |since| ==> !IsSingle(since[i])
    ensures Overlay(first, since) == first
    decreases |since|
  {
    if since != [] {
      NoSingleNoOverlay(first, since[..|since| - 1]);
    }
  }

  /** With no single frame between a first frame and its completion, the SDU is the first frame's
      data followed by the consecutive frames' data, cut to the declared length. */
  lemma UndisturbedSegments(config: RxConfig, sdu: seq<byte>, since: seq<RxFrame>)
    requires Complete(sdu, config, since)
    requires forall i :: 1 <= i < |since| ==> !IsSingle(since[i])
    ensures sdu == (since[0].data[2..] + Payloads(CfsOf(since[1..])))[..PciLength(since[0].data)]
  {
    forall i | 0 <= i < |since[1..]| ensures !IsSingle(since[1..][i]) {
      assert since[1..][i] == since[i + 1];
    }
    NoSingleNoOverlay(since[0].data[2..], since[1..]);
  }

  /** The exact condition: the SDU is what its own segments say if and only if the single frames
      received meanwhile rewrote the first frame's data with the same bytes. */
  lemma CorruptedIffOverlaid(config: RxConfig, sdu: seq<byte>, since: seq<RxFrame>)
    requires Complete(sdu, config, since)
    ensures sdu == (since[0].data[2..] + Payloads(CfsOf(since[1..])))[..PciLength(since[0].data)]
            <==> Overlay(since[0].data[2..], since[1..]) == since[0].data[2..]
  {
    var first, over, tail := since[0].data[2..], Overlay(since[0].data[2..], since[1..]), Payloads(CfsOf(since[1..]));
    assert (over + tail)[..|sdu|][..FF_DATA] == over;
    assert (first + tail)[..|sdu|][..FF_DATA] == first;
  }

  /** And it does happen: a one-byte single frame between a first frame and its consecutive frame. */
  lemma SingleFrameCorrupts(config: RxConfig)
    requires config.rxBufferSize == BUFFER_SIZE
    ensures exists first, single, last: RxFrame ::
              && IsFirst(first, config) && IsSingle(single) && IsCf(last)
              && DeliveredBy(config, [first, last]).Some? && DeliveredBy(config, [first, single, last]).Some?
              && DeliveredBy(config, [first, single, last]).value.sdu != DeliveredBy(config, [first, last]).value.sdu
  {
    var ff := RxFrame(FfFrame(63, Zeros(FF_DATA)), 64);
    var sf := RxFrame(SfFrame([1]), 64);
    var cf := RxFrame(CfFrame(1, [0]), 64);
    assert ff.data[..64] == [16, 63] + Zeros(FF_DATA);
    assert sf.data[..3] == [0, 1, 1] && cf.data[..2] == [33, 0];
    assert SfData(sf) == [1];
    History(config, ff, sf, cf);
  }

  lemma History(config: RxConfig, ff: RxFrame, sf: RxFrame, cf: RxFrame)
    requires RxConfigValid(config) && IsFirst(ff, config) && IsSingle(sf) && IsCf(cf)
    requires PciLength(ff.data) == 63 && PciLow(cf.data) == 1
    requires SfData(sf) == [1] && ff.data[2] == 0
    ensures DeliveredBy(config, [ff, cf]).Some? && DeliveredBy(config, [ff, sf, cf]).Some?
    ensures DeliveredBy(config, [ff, sf, cf]).value.sdu != DeliveredBy(config, [ff, cf]).value.sdu
  {
    var r1 := Receive(RX_RESET, config, ff.data, ff.length).rx;
    var r2 := Receive(r1, config, sf.data, sf.length).rx;
    assert r1.buffer[0] == 0;
    ReceiveOther(r1, config, sf);
    assert r2.buffer[0] == 1;
    hide Receive;
    Histories(ff, sf, cf);
    StateOne(config, ff);
    StateTwo(config, ff, sf);
    LastOne(r1, config, cf);
    LastOne(r2, config, cf);
  }

  lemma StateOne(config: RxConfig, a: RxFrame)
    requires RxConfigValid(config)
    ensures StateAfter(config, [a]) == Receive(RX_RESET, config, a.data, a.length).rx
  {
    hide Receive;
    assert [a][..|[a]| - 1] == [];
    assert StateAfter(config, []) == RX_RESET;
  }

  lemma StateTwo(config: RxConfig, a: RxFrame, b: RxFrame)
    requires RxConfigValid(config)
    ensures StateAfter(config, [a, b]) == Receive(StateAfter(config, [a]), config, b.data, b.length).rx
  {
    hide Receive;
    assert [a, b][..|[a, b]| - 1] == [a];
  }

  lemma Histories(a: RxFrame, b: RxFrame, c: RxFrame)
    ensures [a, c][..1] == [a] && [a, b, c][..2] == [a, b] && [a, b][..1] == [a] && [a][..0] == []
  {}

  lemma LastOne(rx: Rx, config: RxConfig, cf: RxFrame)
    requires RxConfigValid(config) && RxValid(rx, config) && rx.state.Receiving?
    requires rx.totalLength == 63 && rx.receivedLength == 62 && IsCf(cf) && PciLow(cf.data) == rx.expectedSn
    ensures var d := Receive(rx, config, cf.data, cf.length).delivered;
            d.Some? && |d.value.sdu| == 63 && d.value.sdu[0] == rx.buffer[0]
  {}

  // ---------------------------------------------------------------------------------------------
  // Several channels of one node.

  /** A frame with the receive channel its CAN identifier maps to. */
  datatype Tagged = Tagged(channel: nat, frame: RxFrame)

  ghost predicate ConfigsValid(configs: seq<RxConfig>) {
    forall c :: 0 <= c < |configs| ==> RxConfigValid(configs[c])
  }

  /** All receive channels of a node after an interleaved history. */
  ghost function NodeAfter(configs: seq<RxConfig>, frames: seq<Tagged>): (rxs: seq<Rx>)
    requires ConfigsValid(configs)
    ensures |rxs| == |configs| && forall c :: 0 <= c < |rxs| ==> RxValid(rxs[c], configs[c])
    decreases |frames|
  {
    if frames == [] then
      seq(|configs|, _ => RX_RESET)
    else
      var before, last := NodeAfter(configs, frames[..|frames| - 1]), frames[|frames| - 1];
      var c := last.channel;
      if c < |configs| then
        before[c := Receive(before[c], configs[c], last.frame.data, last.frame.length).rx]
      else
        before
  }

  function OnChannel(frames: seq<Tagged>, c: nat): seq<RxFrame>
    decreases |frames|
  {
    if frames == [] then
      []
    else
      var last := frames[|frames| - 1];
      OnChannel(frames[..|frames| - 1], c) + if last.channel == c then [last.frame] else []
  }

  /** For every interleaving, a channel's reassembly depends only on that channel's own frames. */
  lemma {:induction false} ChannelIndependence(configs: seq<RxConfig>, frames: seq<Tagged>, c: nat)
    requires ConfigsValid(configs) && c < |configs|
    ensures NodeAfter(configs, frames)[c] == StateAfter(configs[c], OnChannel(frames, c))
    decreases |frames|
  {
    hide Receive;
    if frames != [] {
      var rest, last := frames[..|frames| - 1], frames[|frames| - 1];
      ChannelIndependence(configs, rest, c);
      if last.channel == c {
        var own := OnChannel(rest, c);
        assert (own + [last.frame])[..|own|] == own;
        assert OnChannel(frames, c) == own + [last.frame];
      } else {
        assert OnChannel(frames, c) == OnChannel(rest, c);
      }
    }
  }
}
