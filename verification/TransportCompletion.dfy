/** Transfers come to an end. Every step but a new request leaves the network as it is or leaves it less
    to do; so under every fair schedule, everything accepted is delivered, or its transfer is stalled;
    and a transfer that is not stalled can always still be finished. */
module TransportCompletion {

  import opened Bytes
  import opened CanTpModel
  import opened Segmentation
  import opened TransportLink
  import opened TransportSystem
  import opened TransportSafety
  import opened TransportProgress

  /** A frame that may cause an answer weighs more than one that cannot. */
  function Weight(frames: seq<Frame>): nat {
    if frames == [] then 0 else (if IsFc(frames[0]) then 1 else 2) + Weight(frames[1..])
  }

  lemma {:induction false} WeightSnoc(frames: seq<Frame>, f: Frame)
    ensures Weight(frames + [f]) == Weight(frames) + if IsFc(f) then 1 else 2
    decreases |frames|
  {
    if frames == [] {
      assert frames + [f] == [f];
    } else {
      assert (frames + [f])[1..] == frames[1..] + [f];
      WeightSnoc(frames[1..], f);
    }
  }

  function Bit(b: bool): nat {
    if b then 1 else 0
  }

  /** What one end still has to send, and what it has sent that is still to be read. */
  function EndLoad(end: End): nat
    requires TxValid(end.tx)
  {
    10 * |Remaining(end.tx)| + 3 * Weight(end.unread)
  }

  /** What is still to be done in the network: frames to send, frames to read, confirmations to give. */
  ghost function Load(s: System): nat
    requires Shape(s)
  {
    EndLoad(s.ends[0]) + EndLoad(s.ends[1]) + EndLoad(s.ends[2]) + EndLoad(s.ends[3])
    + Bit(s.slots[0].Some?) + Bit(s.slots[1].Some?) + Bit(s.slots[2].Some?)
  }

  // ---------------------------------------------------------------------------------------------
  // What a step does to one end.

  lemma ConfirmLoad(end: End)
    requires TxValid(end.tx)
    ensures var r := ConfirmStep(end);
            TxValid(r.end.tx) && r.emitted == None && EndLoad(r.end) == EndLoad(end)
  {}

  lemma ReadLoad(end: End, config: RxConfig, f: Frame, accept: bool)
    requires TxValid(end.tx) && RxConfigValid(config) && RxValid(end.rx, config)
    requires IsFc(f) ==> PciLow(f) == FC_CTS
    ensures var r := ReadStep(end, config, f, accept);
            && TxValid(r.end.tx)
            && (r.emitted.None? ==> EndLoad(r.end) == EndLoad(end))
            && (r.emitted.Some? ==> accept && !IsFc(f) && EndLoad(r.end) == EndLoad(end) + 3)
  {
    hide Receive;
    if !IsFc(f) {
      var reply := Receive(end.rx, config, f, FRAME_LENGTH).reply;
      if reply.Some? {
        var fc := FcFrame(reply.value, config.blockSize, config.stMin);
        FcRoundTrip(reply.value % 16, config.blockSize, config.stMin);
        WeightSnoc(end.unread, fc);
      }
    } else {
      var t := FlowControl(end.tx, f, FRAME_LENGTH).tx;
      assert Remaining(t) == Remaining(end.tx);
    }
  }

  /** Nothing to send, or no driver to take it: nothing happens. */
  lemma PollIdle(end: End, accept: bool)
    requires TxValid(end.tx) && !(end.tx.state.SendCf? && accept)
    requires end.tx.state.SendCf? ==> end.tx.blockSize == 0 || end.tx.blockCounter < end.tx.blockSize
    ensures PollStep(end, accept) == StepResult(end, None)
  {}

  lemma PollLoad(end: End)
    requires TxValid(end.tx) && end.tx.state.SendCf?
    requires end.tx.blockSize == 0 || end.tx.blockCounter < end.tx.blockSize
    ensures var r := PollStep(end, true);
            r.emitted.Some? && TxValid(r.end.tx) && EndLoad(r.end) + 4 <= EndLoad(end)
  {
    PollSendsNext(end.tx, true);
    var r := PollStep(end, true);
    WeightSnoc(end.unread, r.emitted.value);
  }

  // ---------------------------------------------------------------------------------------------
  // And to the network.

  /** What holds in every reachable state. */
  ghost predicate Regular(s: System, b: BlockSizes) {
    Linked(s, b) && Ready(s, b) && SlotsOwned(s) && forall e: EndId :: InPhase(s, b, e)
  }

  lemma StepKeepsRegular(s: System, b: BlockSizes, event: Event)
    requires Regular(s, b)
    ensures Regular(Step(s, b, event), b)
  {
    hide Linked, SlotsOwned, Phase, Step;
    StepKeepsLinked(s, b, event);
    LinkedIsReady(Step(s, b, event), b);
    StepKeepsSlots(s, b, event);
    forall e: EndId ensures InPhase(Step(s, b, event), b, e) {
      StallsIffCtsLost(s, b, event, e);
    }
  }

  lemma {:induction false} PlayKeepsRegular(s: System, b: BlockSizes, events: seq<Event>)
    requires Linked(s, b) && Regular(s, b)
    ensures Regular(Play(s, b, events), b)
    decreases |events|
  {
    hide Step, Linked, Regular;
    if events != [] {
      StepKeepsLinked(s, b, events[0]);
      StepKeepsRegular(s, b, events[0]);
      PlayKeepsRegular(Step(s, b, events[0]), b, events[1..]);
    }
  }

  lemma ReachableIsRegular(s: System, b: BlockSizes)
    requires Reachable(s, b)
    ensures Regular(s, b)
  {
    hide Linked, Phase, SlotsOwned, Step;
    var history :| Linked(INITIAL, b) && Play(INITIAL, b, history) == s;
    InitialSlots();
    LinkedIsReady(INITIAL, b);
    forall e: EndId ensures InPhase(INITIAL, b, e) {
      InitialPhase(b, e);
    }
    PlayKeepsRegular(INITIAL, b, history);
  }

  lemma RegularIsLinked(s: System, b: BlockSizes)
    requires Regular(s, b)
    ensures Linked(s, b) && Ready(s, b) && Shape(s)
  {}

  lemma ApplyLoad(s: System, e: EndId, r: StepResult)
    requires Shape(s) && TxValid(r.end.tx) && (r.emitted.Some? ==> s.slots[NodeOf(e)].None?)
    ensures Shape(Apply(s, e, r))
    ensures Load(Apply(s, e, r)) == Load(s) - EndLoad(s.ends[e]) + EndLoad(r.end) + Bit(r.emitted.Some?)
  {
    hide EndLoad, TxValid;
  }

  lemma SendsWithinBlock(s: System, b: BlockSizes, e: EndId)
    requires Regular(s, b) && s.ends[e].tx.state.SendCf?
    ensures s.ends[e].tx.blockSize == 0 || s.ends[e].tx.blockCounter < s.ends[e].tx.blockSize
  {
    hide Linked, SlotsOwned, Course, Silent;
    assert InPhase(s, b, e);
  }

  lemma ReadLightens(s: System, b: BlockSizes, e: EndId, hwOk: bool)
    requires Regular(s, b) && Shape(s) && s.ends[Peer(e)].unread != []
    ensures Shape(Step(s, b, ReadFrame(e, hwOk)))
    ensures Load(Step(s, b, ReadFrame(e, hwOk))) < Load(s)
  {
    hide ReadStep, Linked, SlotsOwned, Phase, Load, TxValid, RxValid;
    var p, f := Peer(e), s.ends[Peer(e)].unread[0];
    OnlyClearToSends(s, b, e);
    var source := s.ends[p].(unread := s.ends[p].unread[1..]);
    var taken := s.(ends := s.ends[p := source]);
    assert taken == Apply(s, p, StepResult(source, None));
    ApplyLoad(s, p, StepResult(source, None));
    ReadLoad(s.ends[e], RxConfigOf(e, b), f, Accepts(s, e, hwOk));
    ApplyLoad(taken, e, ReadStep(s.ends[e], RxConfigOf(e, b), f, Accepts(s, e, hwOk)));
  }

  lemma PollLightens(s: System, b: BlockSizes, e: EndId, hwOk: bool)
    requires Regular(s, b) && Shape(s)
    ensures var t := Step(s, b, MainFunction(e, hwOk));
            if s.ends[e].tx.state.SendCf? && Accepts(s, e, hwOk) then Shape(t) && Load(t) < Load(s) else t == s
  {
    hide PollStep, Linked, SlotsOwned, Phase, Load, RxValid;
    if s.ends[e].tx.state.SendCf? {
      SendsWithinBlock(s, b, e);
    }
    if s.ends[e].tx.state.SendCf? && Accepts(s, e, hwOk) {
      hide TxValid;
      PollLoad(s.ends[e]);
      ApplyLoad(s, e, PollStep(s.ends[e], true));
    } else {
      PollIdle(s.ends[e], Accepts(s, e, hwOk));
    }
  }

  lemma ConfirmLightens(s: System, b: BlockSizes, n: NodeId)
    requires Regular(s, b) && Shape(s) && s.slots[n].Some?
    ensures Shape(Step(s, b, DriverConfirms(n))) && Load(Step(s, b, DriverConfirms(n))) < Load(s)
  {
    hide ConfirmStep, Linked, SlotsOwned, Phase, TxValid, RxValid, EndLoad;
    var e := s.slots[n].value.owner;
    ConfirmLoad(s.ends[e]);
    var freed := s.(slots := s.slots[n := None]);
    assert Shape(freed) && Load(freed) < Load(s);
    hide Load;
    ApplyLoad(freed, e, ConfirmStep(s.ends[e]));
  }

  /** Whether an event finds something to do. */
  predicate Works(s: System, event: Event)
    requires |s.ends| == 4 && |s.slots| == 3
  {
    match event
    case Send(_, _, _) => true
    case MainFunction(e, hwOk) => s.ends[e].tx.state.SendCf? && Accepts(s, e, hwOk)
    case DriverConfirms(n) => s.slots[n].Some?
    case ReadFrame(e, _) => s.ends[Peer(e)].unread != []
  }

  /** Apart from new requests, every step of the network either changes nothing or leaves less to do. */
  lemma EveryStepLightens(s: System, b: BlockSizes, event: Event)
    requires Regular(s, b) && Shape(s) && !event.Send?
    ensures var t := Step(s, b, event);
            if Works(s, event) then Shape(t) && Load(t) < Load(s) else t == s
  {
    hide Regular, Load;
    RegularIsLinked(s, b);
    match event
    case MainFunction(e, hwOk) =>
      hide PollStep;
      PollLightens(s, b, e, hwOk);
    case DriverConfirms(n) =>
      if s.slots[n].Some? {
        hide ConfirmStep;
        ConfirmLightens(s, b, n);
      }
    case ReadFrame(e, hwOk) =>
      if s.ends[Peer(e)].unread != [] {
        hide ReadStep;
        ReadLightens(s, b, e, hwOk);
      }
  }

  // ---------------------------------------------------------------------------------------------
  // Fair schedules.

  /** In any order and among anything else but new requests: every main function and every read, with
      a driver that takes frames when it is free, and every confirmation. */
  ghost predicate FairRound(round: seq<Event>) {
    && (forall i :: 0 <= i < |round| ==> !round[i].Send?)
    && (forall e: EndId :: MainFunction(e, true) in round && ReadFrame(e, true) in round)
    && (forall n: NodeId :: DriverConfirms(n) in round)
  }

  const ALL_CONFIRMED: seq<Event> := [DriverConfirms(0), DriverConfirms(1), DriverConfirms(2)]
  const ALL_POLLED: seq<Event> :=
    [MainFunction(0, true), MainFunction(1, true), MainFunction(2, true), MainFunction(3, true)]
  const ALL_READ: seq<Event> := [ReadFrame(0, true), ReadFrame(1, true), ReadFrame(2, true), ReadFrame(3, true)]

  /** For one: all confirmations, then all main functions, then all reads. */
  const PLAIN_ROUND := ALL_CONFIRMED + (ALL_POLLED + ALL_READ)

  lemma FairParts(x: seq<Event>, y: seq<Event>, z: seq<Event>)
    requires forall event :: event in x || event in y || event in z ==> !event.Send?
    requires forall n: NodeId :: DriverConfirms(n) in x
    requires forall e: EndId :: MainFunction(e, true) in y && ReadFrame(e, true) in z
    ensures FairRound(x + (y + z))
  {
    var round := x + (y + z);
    forall i | 0 <= i < |round| ensures !round[i].Send? {
      assert round[i] in x || round[i] in y || round[i] in z;
    }
  }

  lemma PlainRoundIsFair()
    ensures FairRound(PLAIN_ROUND)
  {
    forall n: NodeId ensures DriverConfirms(n) in ALL_CONFIRMED {
      assert ALL_CONFIRMED[n] == DriverConfirms(n);
    }
    forall e: EndId ensures MainFunction(e, true) in ALL_POLLED && ReadFrame(e, true) in ALL_READ {
      assert ALL_POLLED[e] == MainFunction(e, true) && ALL_READ[e] == ReadFrame(e, true);
    }
    FairParts(ALL_CONFIRMED, ALL_POLLED, ALL_READ);
  }

  /** A round without requests works off some of the load, unless none of its events has anything to do. */
  lemma {:induction false} RoundLightens(s: System, b: BlockSizes, round: seq<Event>)
    requires Linked(s, b) && Regular(s, b) && Shape(s)
    requires forall i :: 0 <= i < |round| ==> !round[i].Send?
    ensures var t := Play(s, b, round);
            && Shape(t) && Regular(t, b)
            && (Load(t) < Load(s) || (t == s && forall event :: event in round ==> !Works(s, event)))
    decreases |round|
  {
    hide Step, Linked, Regular, Load, Works;
    if round != [] {
      RegularIsLinked(s, b);
      EveryStepLightens(s, b, round[0]);
      StepKeepsLinked(s, b, round[0]);
      StepKeepsRegular(s, b, round[0]);
      RoundLightens(Step(s, b, round[0]), b, round[1..]);
      assert round == [round[0]] + round[1..];
    }
  }

  /** Nothing has anything to do but a new request. */
  ghost predicate Quiet(s: System)
    requires |s.ends| == 4 && |s.slots| == 3
  {
    forall event: Event :: !event.Send? ==> !Works(s, event)
  }

  lemma IdleRoundIsQuiet(s: System, round: seq<Event>)
    requires |s.ends| == 4 && |s.slots| == 3
    requires FairRound(round) && forall event :: event in round ==> !Works(s, event)
    ensures Quiet(s)
  {
    forall event: Event | !event.Send? ensures !Works(s, event) {
      match event
      case MainFunction(e, _) => assert !Works(s, MainFunction(e, true));
      case DriverConfirms(n) => assert !Works(s, DriverConfirms(n));
      case ReadFrame(e, _) => assert !Works(s, ReadFrame(e, true));
    }
  }

  /** Then every transfer is delivered or stalled, and stays so. */
  lemma QuietIsDone(s: System, b: BlockSizes, e: EndId)
    requires Regular(s, b) && Shape(s) && Quiet(s)
    ensures Wedged(s, e) || s.ends[Peer(e)].delivered == s.ends[e].accepted
  {
    hide Linked, Phase, IsLastCf;
    assert !Works(s, MainFunction(e, true)) && !Works(s, ReadFrame(e, true)) && !Works(s, ReadFrame(Peer(e), true));
    assert !Works(s, DriverConfirms(NodeOf(e)));
    assert Peer(Peer(e)) == e;
    if Remaining(s.ends[e].tx) == [] {
      LinkedIsSafe(s, b, e);
    } else {
      assert WaitsForCf(s.ends[e].tx) ==> OwnsSlot(s, e);
      assert InPhase(s, b, e);
      AwaitingCourse(s.ends[e], s.ends[Peer(e)], RxConfigOf(Peer(e), b));
    }
  }

  lemma {:induction false} QuietStays(s: System, b: BlockSizes, events: seq<Event>)
    requires Linked(s, b) && Regular(s, b) && Shape(s) && Quiet(s)
    requires forall i :: 0 <= i < |events| ==> !events[i].Send?
    ensures Play(s, b, events) == s
    decreases |events|
  {
    hide Step, Linked, Regular, Load, Works;
    if events != [] {
      RegularIsLinked(s, b);
      EveryStepLightens(s, b, events[0]);
      QuietStays(s, b, events[1..]);
    }
  }

  function Concat(rounds: seq<seq<Event>>): seq<Event> {
    if rounds == [] then [] else rounds[0] + Concat(rounds[1..])
  }

  lemma {:induction false} PlayConcat(s: System, b: BlockSizes, x: seq<Event>, y: seq<Event>)
    requires Linked(s, b)
    ensures Play(s, b, x + y) == Play(Play(s, b, x), b, y)
    decreases |x|
  {
    hide Step, Linked;
    if x == [] {
      assert x + y == y;
    } else {
      StepKeepsLinked(s, b, x[0]);
      assert (x + y)[1..] == x[1..] + y;
      PlayConcat(Step(s, b, x[0]), b, x[1..], y);
    }
  }

  lemma {:induction false} FairRoundsFinish(s: System, b: BlockSizes, rounds: seq<seq<Event>>, e: EndId)
    requires Linked(s, b) && Regular(s, b) && Shape(s)
    requires (forall i :: 0 <= i < |rounds| ==> FairRound(rounds[i])) && |rounds| > Load(s)
    ensures var t := Play(s, b, Concat(rounds));
            && |t.ends| == 4 && |t.slots| == 3 && Quiet(t)
            && (Wedged(t, e) || t.ends[Peer(e)].delivered == t.ends[e].accepted)
    decreases |rounds|
  {
    hide Linked, Regular, Load, Works, Play, FairRound, Quiet;
    assert FairRound(rounds[0]);
    RoundHasNoSend(rounds[0]);
    RoundLightens(s, b, rounds[0]);
    PlayConcat(s, b, rounds[0], Concat(rounds[1..]));
    var t := Play(s, b, rounds[0]);
    if Load(t) < Load(s) {
      FairRoundsFinish(t, b, rounds[1..], e);
    } else {
      IdleRoundIsQuiet(s, rounds[0]);
      NoSends(rounds[1..]);
      QuietStays(s, b, Concat(rounds[1..]));
      QuietIsDone(s, b, e);
    }
  }

  lemma {:induction false} NoSends(rounds: seq<seq<Event>>)
    requires forall i :: 0 <= i < |rounds| ==> FairRound(rounds[i])
    ensures forall i :: 0 <= i < |Concat(rounds)| ==> !Concat(rounds)[i].Send?
  {
    if rounds != [] {
      RoundHasNoSend(rounds[0]);
      NoSends(rounds[1..]);
    }
  }

  lemma RoundHasNoSend(round: seq<Event>)
    requires FairRound(round)
    ensures forall i :: 0 <= i < |round| ==> !round[i].Send?
  {}

  /** Somewhere in a run the clear-to-send for `e` is lost. */
  ghost predicate LosesCts(s: System, b: BlockSizes, events: seq<Event>, e: EndId)
    requires Linked(s, b) && Ready(s, b)
    decreases |events|
  {
    events != [] &&
    (|| RefusesCts(s, b, e, events[0]) || MissesCts(s, e, events[0])
     || (StepKeepsLinked(s, b, events[0]);
         LinkedIsReady(Step(s, b, events[0]), b);
         LosesCts(Step(s, b, events[0]), b, events[1..], e)))
  }

  /** Over whole runs: a transfer is stalled at the end if and only if it was at the beginning, or its
      clear-to-send was lost on the way. */
  lemma {:induction false} StalledIffCtsLostInRun(s: System, b: BlockSizes, events: seq<Event>, e: EndId)
    requires Linked(s, b) && Ready(s, b) && InPhase(s, b, e)
    ensures var t := Play(s, b, events);
            |t.ends| == 4 && (Wedged(t, e) <==> Wedged(s, e) || LosesCts(s, b, events, e))
    decreases |events|
  {
    hide Step, Linked, Ready, Phase, WedgedPair, RefusesCts, MissesCts;
    FourEnds(s, b);
    if events != [] {
      StepKeepsLinked(s, b, events[0]);
      LinkedIsReady(Step(s, b, events[0]), b);
      FourEnds(Step(s, b, events[0]), b);
      StallsIffCtsLost(s, b, events[0], e);
      StalledIffCtsLostInRun(Step(s, b, events[0]), b, events[1..], e);
    }
  }

  /** Under every fair schedule, whatever block sizes are granted: from any reachable state, after more
      fair rounds than there is left to do, nothing moves any more, and what an end had accepted has
      been delivered in full, unless the transfer was stalled before or its clear-to-send was lost. */
  lemma FairScheduleFinishes(s: System, b: BlockSizes, rounds: seq<seq<Event>>, e: EndId)
    requires Reachable(s, b) && Linked(s, b) && Ready(s, b)
    requires (forall i :: 0 <= i < |rounds| ==> FairRound(rounds[i])) && |rounds| > Load(s)
    ensures var t := Play(s, b, Concat(rounds));
            && |t.ends| == 4 && |t.slots| == 3 && Quiet(t)
            && (t.ends[Peer(e)].delivered == t.ends[e].accepted || Wedged(t, e))
            && (Wedged(t, e) <==> Wedged(s, e) || LosesCts(s, b, Concat(rounds), e))
  {
    ReachableIsRegular(s, b);
    assert InPhase(s, b, e);
    hide Linked, Regular, Load, Play, Wedged, Quiet, LosesCts;
    FairRoundsFinish(s, b, rounds, e);
    StalledIffCtsLostInRun(s, b, Concat(rounds), e);
  }

  // ---------------------------------------------------------------------------------------------
  // Without a stall.

  /** The next step of a schedule that loses no clear-to-send of `e`: what waits for a confirmation is
      confirmed before anything else is read. */
  lemma NextStep(s: System, b: BlockSizes, e: EndId) returns (event: Event)
    requires Regular(s, b) && Shape(s) && !Wedged(s, e)
    requires s.ends[Peer(e)].delivered != s.ends[e].accepted
    ensures !event.Send? && Works(s, event) && !RefusesCts(s, b, e, event) && !MissesCts(s, e, event)
  {
    hide Linked, Phase, IsLastCf, Receive;
    var p := Peer(e);
    assert Peer(p) == e;
    var tx := s.ends[e].tx;
    assert WaitsForCf(tx) ==> OwnsSlot(s, e);
    if s.slots[NodeOf(p)].Some? {
      event := DriverConfirms(NodeOf(p));
    } else if s.slots[NodeOf(e)].Some? {
      event := DriverConfirms(NodeOf(e));
    } else if s.ends[e].unread != [] {
      event := ReadFrame(p, true);
    } else if tx.state.SendCf? {
      event := MainFunction(e, true);
    } else {
      event := ReadFrame(e, true);
      if Remaining(tx) == [] {
        LinkedIsSafe(s, b, e);
      } else {
        assert InPhase(s, b, e);
        AwaitingCourse(s.ends[e], s.ends[p], RxConfigOf(p, b));
      }
    }
  }

  lemma {:induction false} FinishesFrom(s: System, b: BlockSizes, e: EndId) returns (events: seq<Event>)
    requires Linked(s, b) && Regular(s, b) && Shape(s) && !Wedged(s, e)
    ensures var t := Play(s, b, events);
            |t.ends| == 4 && !Wedged(t, e) && t.ends[Peer(e)].delivered == t.ends[e].accepted
    decreases Load(s)
  {
    hide Step, Linked, Regular, Load, Works, Wedged, RefusesCts, MissesCts;
    if s.ends[Peer(e)].delivered == s.ends[e].accepted {
      events := [];
    } else {
      RegularIsLinked(s, b);
      var event := NextStep(s, b, e);
      EveryStepLightens(s, b, event);
      StepKeepsLinked(s, b, event);
      StepKeepsRegular(s, b, event);
      StaysUnwedged(s, b, event, e);
      var rest := FinishesFrom(Step(s, b, event), b, e);
      events := [event] + rest;
      assert events[1..] == rest;
    }
  }

  lemma StaysUnwedged(s: System, b: BlockSizes, event: Event, e: EndId)
    requires Regular(s, b) && !Wedged(s, e) && !RefusesCts(s, b, e, event) && !MissesCts(s, e, event)
    ensures !Wedged(Step(s, b, event), e)
  {
    hide Linked, Phase, SlotsOwned, Wedged, Step;
    assert InPhase(s, b, e);
    StallsIffCtsLost(s, b, event, e);
  }

  /** From every reachable state in which the transfer of `e` is not stalled, whatever block size its
      receiver grants, the network can go on so that everything `e` had accepted is delivered. */
  lemma CanAlwaysComplete(s: System, b: BlockSizes, e: EndId) returns (events: seq<Event>)
    requires Reachable(s, b) && Linked(s, b) && |s.ends| == 4 && !Wedged(s, e)
    ensures var t := Play(s, b, events);
            |t.ends| == 4 && t.ends[Peer(e)].delivered == t.ends[e].accepted
  {
    hide Linked, Regular, Wedged;
    ReachableIsRegular(s, b);
    RegularIsLinked(s, b);
    events := FinishesFrom(s, b, e);
  }
}
