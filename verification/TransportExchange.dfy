/** One SDU across a network at rest, and the network at rest again: what a fair schedule leaves behind
    is not only everything delivered but every channel idle, so that the next exchange can begin. */
module TransportExchange {

  import opened Bytes
  import opened CanTpModel
  import opened Segmentation
  import opened TransportLink
  import opened TransportSystem
  import opened TransportSafety
  import opened TransportProgress
  import opened TransportCompletion

  /** A channel waiting for a confirmation will get it: the frame in the slot of its node is its own.
      A single frame the driver refused breaks this. */
  ghost predicate Pledged(s: System, e: EndId)
    requires |s.ends| == 4 && |s.slots| == 3
  {
    s.ends[e].tx.state.WaitTxConfirmation? ==> s.slots[NodeOf(e)].Some? && s.slots[NodeOf(e)].value.owner == e
  }

  /** Idle, or sending a single frame. */
  predicate Brief(tx: Tx) {
    tx.state.TxIdle? || (tx.state.WaitTxConfirmation? && tx.totalLength == 0)
  }

  /** What a step without a request does to an end. */
  ghost predicate Unasked(before: End, r: StepResult, accept: bool) {
    && r.end.accepted == before.accepted && (r.emitted.Some? ==> accept)
    && (Brief(before.tx) || (r.end.tx.state.WaitTxConfirmation? && r.end.tx.totalLength == 0) ==>
          r.end.tx == before.tx)
  }

  lemma PollUnasked(end: End, accept: bool)
    requires TxValid(end.tx)
    ensures Unasked(end, PollStep(end, accept), accept)
  {}

  lemma ReadUnasked(end: End, config: RxConfig, f: Frame, accept: bool)
    requires TxValid(end.tx) && RxValid(end.rx, config)
    ensures Unasked(end, ReadStep(end, config, f, accept), accept)
  {
    hide Receive;
  }

  lemma ConfirmUnasked(end: End)
    requires TxValid(end.tx)
    ensures var t := ConfirmStep(end).end;
            && t.accepted == end.accepted && ConfirmStep(end).emitted == None
            && (Brief(end.tx) || !WaitsForCf(t.tx) ==> !t.tx.state.WaitTxConfirmation?)
            && (Brief(end.tx) ==> t.tx.state.TxIdle?)
  {}

  /** Without a request for `e`, nothing more is accepted from it, a single frame stays one, and no
      confirmation is lost. */
  lemma StepUnasked(s: System, b: BlockSizes, event: Event, e: EndId)
    requires Regular(s, b) && Pledged(s, e) && !event.Send?
    ensures var t := Step(s, b, event);
            && t.ends[e].accepted == s.ends[e].accepted
            && (Brief(s.ends[e].tx) ==> Brief(t.ends[e].tx)) && Pledged(t, e)
  {
    hide SendStep, PollStep, ConfirmStep, ReadStep, IsLastCf, Linked, Phase, TxValid, RxValid;
    StepKeepsSlots(s, b, event);
    var t := Step(s, b, event);
    assert WaitsForCf(t.ends[e].tx) ==> OwnsSlot(t, e);
    match event
    case MainFunction(a, hwOk) =>
      PollUnasked(s.ends[a], Accepts(s, a, hwOk));
    case ReadFrame(a, hwOk) =>
      if s.ends[Peer(a)].unread != [] {
        ReadUnasked(s.ends[a], RxConfigOf(a, b), s.ends[Peer(a)].unread[0], Accepts(s, a, hwOk));
      }
    case DriverConfirms(n) =>
      if s.slots[n].Some? {
        ConfirmUnasked(s.ends[s.slots[n].value.owner]);
      }
  }

  lemma {:induction false} PlayUnasked(s: System, b: BlockSizes, events: seq<Event>, e: EndId)
    requires Linked(s, b) && Regular(s, b) && |s.ends| == 4 && |s.slots| == 3 && Pledged(s, e)
    requires forall i :: 0 <= i < |events| ==> !events[i].Send?
    ensures var t := Play(s, b, events);
            && |t.ends| == 4 && |t.slots| == 3 && t.ends[e].accepted == s.ends[e].accepted
            && (Brief(s.ends[e].tx) ==> Brief(t.ends[e].tx)) && Pledged(t, e)
    decreases |events|
  {
    hide Step, Linked, Regular, Pledged, Brief;
    if events != [] {
      RegularIsLinked(s, b);
      StepUnasked(s, b, events[0], e);
      StepKeepsLinked(s, b, events[0]);
      StepKeepsRegular(s, b, events[0]);
      PlayUnasked(Step(s, b, events[0]), b, events[1..], e);
    }
  }

  /** When nothing moves any more, a channel that is not stalled and waits for no lost confirmation is
      idle, and its node's driver is free. */
  lemma QuietIsIdle(s: System, b: BlockSizes, e: EndId)
    requires Regular(s, b) && Shape(s) && Quiet(s) && Pledged(s, e) && !Wedged(s, e)
    ensures s.ends[e].tx.state.TxIdle? && s.slots[NodeOf(e)].None?
  {
    hide Linked, Phase, IsLastCf;
    assert !Works(s, MainFunction(e, true)) && !Works(s, ReadFrame(e, true)) && !Works(s, ReadFrame(Peer(e), true));
    assert !Works(s, DriverConfirms(NodeOf(e)));
    assert Peer(Peer(e)) == e;
    if s.ends[e].tx.state.WaitFc? {
      assert InPhase(s, b, e);
      AwaitingCourse(s.ends[e], s.ends[Peer(e)], RxConfigOf(Peer(e), b));
    }
  }

  /** More fair rounds than there is left to do. */
  ghost predicate Enough(s: System, b: BlockSizes, rounds: seq<seq<Event>>)
    requires Linked(s, b)
  {
    LinkedIsReady(s, b);
    |rounds| > Load(s) && forall i :: 0 <= i < |rounds| ==> FairRound(rounds[i])
  }

  /** A channel whose confirmations are all to come ends up idle under every fair schedule, with all it
      had accepted delivered, if it sends a single frame or no clear-to-send for it is lost. */
  lemma Settles(s: System, b: BlockSizes, rounds: seq<seq<Event>>, e: EndId)
    requires Reachable(s, b) && Linked(s, b) && Ready(s, b) && Pledged(s, e) && Enough(s, b, rounds)
    requires Brief(s.ends[e].tx) || (!Wedged(s, e) && !LosesCts(s, b, Concat(rounds), e))
    ensures var t := Play(s, b, Concat(rounds));
            && |t.ends| == 4 && |t.slots| == 3
            && t.ends[e].tx.state.TxIdle? && t.slots[NodeOf(e)].None?
            && t.ends[e].accepted == s.ends[e].accepted && t.ends[Peer(e)].delivered == s.ends[e].accepted
  {
    hide Linked, Ready, Regular, Load, Play, Quiet, LosesCts, Pledged, FairRound, Stuck;
    var t := Play(s, b, Concat(rounds));
    ReachableIsRegular(s, b);
    FourEnds(s, b);
    NoSends(rounds);
    PlayUnasked(s, b, Concat(rounds), e);
    FairScheduleFinishes(s, b, rounds, e);
    PlayKeepsRegular(s, b, Concat(rounds));
    RegularIsLinked(t, b);
    assert Brief(t.ends[e].tx) ==> !Wedged(t, e) by { BriefAwaitsNothing(t.ends[e], t.ends[Peer(e)]); }
    QuietIsIdle(t, b, e);
  }

  lemma BriefAwaitsNothing(s: End, r: End)
    ensures Brief(s.tx) ==> !WedgedPair(s, r)
  {}

  // ---------------------------------------------------------------------------------------------
  // From rest to rest.

  /** Both ends of a connection idle, their drivers free, and everything delivered. */
  ghost predicate AtRest(s: System, b: BlockSizes, e: EndId) {
    && Reachable(s, b) && |s.ends| == 4 && |s.slots| == 3
    && (forall x: EndId :: x == e || x == Peer(e) ==>
          && s.ends[x].tx.state.TxIdle? && s.slots[NodeOf(x)].None?
          && s.ends[Peer(x)].delivered == s.ends[x].accepted)
  }

  lemma InitialAtRest(b: BlockSizes, e: EndId)
    ensures Linked(INITIAL, b) && AtRest(INITIAL, b, e)
  {
    InitialLinked(b);
    InitialReachable(b);
  }

  lemma {:induction false} PlayReachable(s: System, b: BlockSizes, events: seq<Event>)
    requires Reachable(s, b) && Linked(s, b)
    ensures Reachable(Play(s, b, events), b)
    decreases |events|
  {
    hide Step, Linked, Reachable;
    if events != [] {
      ReachableStep(s, b, events[0]);
      StepKeepsLinked(s, b, events[0]);
      PlayReachable(Step(s, b, events[0]), b, events[1..]);
    }
  }

  lemma SentFromRest(s: System, b: BlockSizes, e: EndId, sdu: seq<byte>)
    requires AtRest(s, b, e) && Ready(s, b) && 1 <= |sdu| <= BUFFER_SIZE
    ensures var t := Step(s, b, Send(e, sdu, true));
            && t.ends[e].accepted == s.ends[e].accepted + [sdu] && t.ends[Peer(e)] == s.ends[Peer(e)]
            && Pledged(t, e) && Pledged(t, Peer(e)) && !Awaits(s.ends[e].tx)
            && (|sdu| <= SF_MAX ==> Brief(t.ends[e].tx)) && Brief(t.ends[Peer(e)].tx)
  {
    hide Reachable;
  }

  /** The network after a request and the rounds that follow it. */
  ghost function Crossing(s: System, b: BlockSizes, e: EndId, sdu: seq<byte>, rounds: seq<seq<Event>>): (t: System)
    requires Linked(s, b)
    ensures Linked(t, b)
  {
    Play(s, b, [Send(e, sdu, true)] + Concat(rounds))
  }

  /** Fair rounds enough for this request, in which its transfer loses no clear-to-send. */
  ghost predicate Carries(s: System, b: BlockSizes, e: EndId, sdu: seq<byte>, rounds: seq<seq<Event>>)
    requires Linked(s, b)
  {
    StepKeepsLinked(s, b, Send(e, sdu, true));
    var sent := Step(s, b, Send(e, sdu, true));
    LinkedIsReady(sent, b);
    Enough(sent, b, rounds) && (|sdu| <= SF_MAX || !LosesCts(sent, b, Concat(rounds), e))
  }

  /** From rest to rest: an SDU of any size a channel takes is delivered once, as it is, nothing else
      is delivered at either end, and both ends are idle again. */
  lemma CrossesOnce(s: System, b: BlockSizes, e: EndId, sdu: seq<byte>, rounds: seq<seq<Event>>)
    requires AtRest(s, b, e) && Linked(s, b) && 1 <= |sdu| <= BUFFER_SIZE && Carries(s, b, e, sdu, rounds)
    ensures var t := Crossing(s, b, e, sdu, rounds);
            && AtRest(t, b, e)
            && t.ends[Peer(e)].delivered == s.ends[Peer(e)].delivered + [sdu]
            && t.ends[e].delivered == s.ends[e].delivered
  {
    hide Step, Linked, Ready, Load, LosesCts, Pledged, Brief, FairRound, Reachable, Phase, SlotsOwned;
    var event := Send(e, sdu, true);
    StepKeepsLinked(s, b, event);
    var sent := Step(s, b, event);
    LinkedIsReady(s, b);
    LinkedIsReady(sent, b);
    ReachableStep(s, b, event);
    SentFromRest(s, b, e, sdu);
    ReachableIsRegular(s, b);
    assert InPhase(s, b, e);
    StallsIffCtsLost(s, b, event, e);
    Settles(sent, b, rounds, e);
    Settles(sent, b, rounds, Peer(e));
    PlayReachable(sent, b, Concat(rounds));
    assert ([event] + Concat(rounds))[1..] == Concat(rounds);
    assert Peer(Peer(e)) == e;
  }

  // ---------------------------------------------------------------------------------------------
  // A schedule that always works.

  lemma {:induction false} LosesConcat(s: System, b: BlockSizes, x: seq<Event>, y: seq<Event>, e: EndId)
    requires Linked(s, b) && Ready(s, b)
    ensures Ready(Play(s, b, x), b)
    ensures LosesCts(s, b, x + y, e) <==> LosesCts(s, b, x, e) || LosesCts(Play(s, b, x), b, y, e)
    decreases |x|
  {
    hide Step, Linked, Ready, RefusesCts, MissesCts;
    if x == [] {
      assert x + y == y;
    } else {
      StepKeepsLinked(s, b, x[0]);
      LinkedIsReady(Step(s, b, x[0]), b);
      assert (x + y)[1..] == x[1..] + y;
      LosesConcat(Step(s, b, x[0]), b, x[1..], y, e);
    }
  }

  lemma {:induction false} ConfirmsFree(s: System, b: BlockSizes, events: seq<Event>, n: NodeId)
    requires Linked(s, b) && |s.slots| == 3
    requires forall i :: 0 <= i < |events| ==> events[i].DriverConfirms?
    ensures |Play(s, b, events).slots| == 3
    ensures s.slots[n].None? || DriverConfirms(n) in events ==> Play(s, b, events).slots[n].None?
    decreases |events|
  {
    hide Linked, ConfirmStep, TxValid, RxValid;
    if events != [] {
      StepKeepsLinked(s, b, events[0]);
      var m := events[0].node;
      if s.slots[m].Some? {
        ConfirmUnasked(s.ends[s.slots[m].value.owner]);
      }
      ConfirmsFree(Step(s, b, events[0]), b, events[1..], n);
    }
  }

  /** The peer of `e` can answer, and its answer has not come too early. */
  ghost predicate Open(s: System, e: EndId)
    requires |s.ends| == 4 && |s.slots| == 3
  {
    && s.slots[NodeOf(Peer(e))].None? && Brief(s.ends[Peer(e)].tx)
    && (WaitsForCf(s.ends[e].tx) ==> NoFc(s.ends[Peer(e)].unread))
  }

  lemma SendingSeesNoFlowControl(s: End, r: End, config: RxConfig)
    requires Phase(s, r, config) && s.tx.state.SendCf?
    ensures NoFc(r.unread)
  {
    hide Matched, Grants, Silent, Course, IsFc;
  }

  lemma PollBegins(end: End, accept: bool)
    requires TxValid(end.tx)
    ensures var r := PollStep(end, accept);
            && (Brief(end.tx) ==> r == StepResult(end, None))
            && (WaitsForCf(r.end.tx) ==> end.tx.state.SendCf? || r.end.tx == end.tx)
  {}

  lemma ReadEndsNoWait(end: End, config: RxConfig, f: Frame, accept: bool)
    requires TxValid(end.tx) && RxValid(end.rx, config)
    ensures WaitsForCf(ReadStep(end, config, f, accept).end.tx) ==> WaitsForCf(end.tx)
  {
    hide Receive;
  }

  /** Until the peer reads, it stays so, and no clear-to-send is lost. */
  lemma OpenStays(s: System, b: BlockSizes, event: Event, e: EndId)
    requires Linked(s, b) && Regular(s, b) && |s.ends| == 4 && |s.slots| == 3 && Open(s, e) && e < 2
    requires event.MainFunction? || (event.ReadFrame? && event.e != Peer(e))
    ensures Open(Step(s, b, event), e) && !RefusesCts(s, b, e, event) && !MissesCts(s, e, event)
  {
    hide PollStep, ReadStep, Linked, IsFc, Phase, TxValid, RxValid, SlotsOwned;
    match event
    case MainFunction(a, hwOk) =>
      PollBegins(s.ends[a], Accepts(s, a, hwOk));
      if a == e && s.ends[e].tx.state.SendCf? {
        assert InPhase(s, b, e);
        SendingSeesNoFlowControl(s.ends[e], s.ends[Peer(e)], RxConfigOf(Peer(e), b));
      }
    case ReadFrame(a, hwOk) =>
      if s.ends[Peer(a)].unread != [] {
        ReadEndsNoWait(s.ends[a], RxConfigOf(a, b), s.ends[Peer(a)].unread[0], Accepts(s, a, hwOk));
      }
  }

  lemma {:induction false} OpenLosesNothing(s: System, b: BlockSizes, events: seq<Event>, e: EndId)
    requires Linked(s, b) && Ready(s, b) && Regular(s, b) && |s.ends| == 4 && |s.slots| == 3 && Open(s, e) && e < 2
    requires forall i :: 0 <= i < |events| ==> events[i].MainFunction? || (events[i].ReadFrame? && events[i].e != Peer(e))
    ensures !LosesCts(s, b, events, e)
    ensures var t := Play(s, b, events); |t.ends| == 4 && |t.slots| == 3 && Open(t, e)
    decreases |events|
  {
    hide Step, Linked, Ready, Regular, Open, RefusesCts, MissesCts;
    if events != [] {
      OpenStays(s, b, events[0], e);
      StepKeepsLinked(s, b, events[0]);
      StepKeepsRegular(s, b, events[0]);
      LinkedIsReady(Step(s, b, events[0]), b);
      OpenLosesNothing(Step(s, b, events[0]), b, events[1..], e);
    }
  }

  /** Nor by what neither of the two reads. */
  lemma {:induction false} OthersLoseNothing(s: System, b: BlockSizes, events: seq<Event>, e: EndId)
    requires Linked(s, b) && Ready(s, b)
    requires forall i :: 0 <= i < |events| && events[i].ReadFrame? ==> events[i].e != e && events[i].e != Peer(e)
    ensures !LosesCts(s, b, events, e)
    decreases |events|
  {
    hide Step, Linked, Ready;
    if events != [] {
      StepKeepsLinked(s, b, events[0]);
      LinkedIsReady(Step(s, b, events[0]), b);
      OthersLoseNothing(Step(s, b, events[0]), b, events[1..], e);
    }
  }

  lemma OpenOnceConfirmed(s: System, b: BlockSizes, e: EndId)
    requires Linked(s, b) && Regular(s, b) && |s.ends| == 4 && |s.slots| == 3
    requires Pledged(s, Peer(e)) && Brief(s.ends[Peer(e)].tx)
    ensures var t := Play(s, b, ALL_CONFIRMED); |t.ends| == 4 && |t.slots| == 3 && Open(t, e)
  {
    hide Linked, Phase, IsLastCf, Play, TxValid, RxValid, Pledged, Brief;
    ConfirmsFree(s, b, ALL_CONFIRMED, NodeOf(e));
    ConfirmsFree(s, b, ALL_CONFIRMED, NodeOf(Peer(e)));
    PlayUnasked(s, b, ALL_CONFIRMED, Peer(e));
    PlayKeepsRegular(s, b, ALL_CONFIRMED);
    var t := Play(s, b, ALL_CONFIRMED);
    assert WaitsForCf(t.ends[e].tx) ==> OwnsSlot(t, e);
  }

  /** A plain round loses no clear-to-send for a channel of the gateway whose ECU sends nothing but single
      frames: all is confirmed before anything is read, and the ECU reads one frame. */
  lemma PlainRoundLosesNothing(s: System, b: BlockSizes, e: EndId)
    requires Linked(s, b) && Ready(s, b) && Regular(s, b) && |s.ends| == 4 && |s.slots| == 3 && e < 2
    requires Pledged(s, Peer(e)) && Brief(s.ends[Peer(e)].tx)
    ensures !LosesCts(s, b, PLAIN_ROUND, e)
  {
    hide Linked, Ready, Regular, Play, Open, Step, RefusesCts, MissesCts, Pledged, Brief;
    var p := Peer(e);
    var before, after := ALL_POLLED + ALL_READ[..p], ALL_READ[p + 1..];
    assert PLAIN_ROUND == ALL_CONFIRMED + (before + ([ReadFrame(p, true)] + after));
    LosesConcat(s, b, ALL_CONFIRMED, before + ([ReadFrame(p, true)] + after), e);
    OthersLoseNothing(s, b, ALL_CONFIRMED, e);
    OpenOnceConfirmed(s, b, e);
    var t := Play(s, b, ALL_CONFIRMED);
    PlayKeepsRegular(s, b, ALL_CONFIRMED);
    LosesConcat(t, b, before, [ReadFrame(p, true)] + after, e);
    OpenLosesNothing(t, b, before, e);
    PeerReadsLast(Play(t, b, before), b, after, e);
  }

  lemma PeerReadsLast(s: System, b: BlockSizes, after: seq<Event>, e: EndId)
    requires Linked(s, b) && Ready(s, b) && |s.ends| == 4 && |s.slots| == 3 && Open(s, e)
    requires forall i :: 0 <= i < |after| && after[i].ReadFrame? ==> after[i].e != e && after[i].e != Peer(e)
    ensures !LosesCts(s, b, [ReadFrame(Peer(e), true)] + after, e)
  {
    hide Linked, Ready, Step, Receive;
    var event := ReadFrame(Peer(e), true);
    assert ([event] + after)[1..] == after;
    StepKeepsLinked(s, b, event);
    LinkedIsReady(Step(s, b, event), b);
    OthersLoseNothing(Step(s, b, event), b, after, e);
  }

  function PlainRounds(n: nat): seq<seq<Event>> {
    if n == 0 then [] else [PLAIN_ROUND] + PlainRounds(n - 1)
  }

  lemma {:induction false} PlainRoundsAreFair(n: nat)
    ensures |PlainRounds(n)| == n && forall i :: 0 <= i < n ==> FairRound(PlainRounds(n)[i])
  {
    hide FairRound, PLAIN_ROUND;
    if n > 0 {
      PlainRoundIsFair();
      PlainRoundsAreFair(n - 1);
    }
  }

  lemma {:induction false} PlainRoundsLoseNothing(s: System, b: BlockSizes, e: EndId, n: nat)
    requires Linked(s, b) && Ready(s, b) && Regular(s, b) && |s.ends| == 4 && |s.slots| == 3 && e < 2
    requires Pledged(s, Peer(e)) && Brief(s.ends[Peer(e)].tx)
    ensures !LosesCts(s, b, Concat(PlainRounds(n)), e)
    decreases n
  {
    hide Linked, Ready, Regular, Play, Step, RefusesCts, MissesCts, Pledged, Brief, PLAIN_ROUND;
    if n > 0 {
      assert PlainRounds(n)[1..] == PlainRounds(n - 1);
      PlainRoundIsFair();
      RoundHasNoSend(PLAIN_ROUND);
      PlainRoundLosesNothing(s, b, e);
      PlayUnasked(s, b, PLAIN_ROUND, Peer(e));
      PlayKeepsRegular(s, b, PLAIN_ROUND);
      LosesConcat(s, b, PLAIN_ROUND, Concat(PlainRounds(n - 1)), e);
      PlainRoundsLoseNothing(Play(s, b, PLAIN_ROUND), b, e, n - 1);
    }
  }

  /** Plain rounds, one after the other, carry every SDU of the gateway's to an ECU at rest, whatever
      block size the ECU grants, and every single frame back. */
  lemma PlainRoundsCarry(s: System, b: BlockSizes, e: EndId, sdu: seq<byte>) returns (rounds: seq<seq<Event>>)
    requires AtRest(s, b, e) && Linked(s, b) && 1 <= |sdu| <= BUFFER_SIZE && (e < 2 || |sdu| <= SF_MAX)
    ensures Carries(s, b, e, sdu, rounds)
  {
    hide Step, Linked, Ready, Load, LosesCts, Pledged, Brief, FairRound, Reachable, Phase, SlotsOwned, Regular;
    var event := Send(e, sdu, true);
    StepKeepsLinked(s, b, event);
    var sent := Step(s, b, event);
    LinkedIsReady(s, b);
    LinkedIsReady(sent, b);
    ReachableStep(s, b, event);
    ReachableIsRegular(sent, b);
    SentFromRest(s, b, e, sdu);
    FourEnds(sent, b);
    rounds := PlainRounds(Load(sent) + 1);
    PlainRoundsAreFair(Load(sent) + 1);
    if |sdu| > SF_MAX {
      PlainRoundsLoseNothing(sent, b, e, Load(sent) + 1);
    }
  }
}
