/** What the gateway's diagnostic server lets a tester do, told from outside: from the requests it
    answered positively and the transmissions that failed, in the order they happened. */
module DcmTrace {

  import opened Bytes
  import opened DcmModel

  datatype Mark =
    | ToExtended | Download | Block(counter: byte) | Exit | Verify | ToProgramming | Activate | Reset | Rollback | TxFailed

  /** The mark of a request and its response, seen by a bystander. */
  function MarkOf(req: seq<byte>, response: seq<byte>, rids: Routines): seq<Mark>
    requires |req| > 0
  {
    if |response| == 0 || response[0] == 0x7F || |req| < 1 then []
    else if req[0] == SID_SESSION && |req| >= 2 then
      if req[1] % 128 == 3 then [ToExtended] else if req[1] % 128 == 2 then [ToProgramming] else []
    else if req[0] == SID_DOWNLOAD then [Download]
    else if req[0] == SID_TRANSFER && |req| >= 2 then [Block(req[1])]
    else if req[0] == SID_EXIT then [Exit]
    else if req[0] == SID_RESET then [Reset]
    else if req[0] == SID_ROUTINE && |req| >= 4 then
      var rid := U16(req[2], req[3]);
      if rid == rids.verify then [Verify]
      else if rid == rids.activate then [Activate]
      else if rid == rids.rollback then [Rollback]
      else []
    else []
  }

  datatype Event = Request(req: seq<byte>) | Confirmation(ok: bool)

  datatype History = History(dcm: Dcm, marks: seq<Mark>)

  function Next(h: History, event: Event, rids: Routines): History {
    match event
    case Request(req) =>
      if |req| == 0 then
        h
      else
        var a := Dispatch(h.dcm, req, rids);
        History(a.dcm, h.marks + MarkOf(req, a.response, rids))
    case Confirmation(ok) =>
      History(TxConfirmation(h.dcm, ok), h.marks + if ok then [] else [TxFailed])
  }

  function After(events: seq<Event>, rids: Routines): History
    decreases |events|
  {
    if events == [] then
      History(INIT, [])
    else
      Next(After(events[..|events| - 1], rids), events[|events| - 1], rids)
  }

  // ---------------------------------------------------------------------------------------------
  // The path through an update, with what repeats itself without effect left out.

  /** One more mark on the path: a repeated session change, a reset with nothing activated, and a
      failed transmission before the first session change or after the final reset do not show. */
  function Extend(path: seq<Mark>, m: Mark): seq<Mark> {
    var last := if path == [] then None else Some(path[|path| - 1]);
    if m.ToExtended? && path != [] then path
    else if m.ToProgramming? && last == Some(ToProgramming) then path
    else if m.Reset? && last != Some(Activate) then path
    else if m.TxFailed? && (path == [] || last == Some(Reset)) then path
    else path + [m]
  }

  function PathOf(marks: seq<Mark>): seq<Mark> {
    if marks == [] then [] else Extend(PathOf(marks[..|marks| - 1]), marks[|marks| - 1])
  }

  lemma PathSnoc(marks: seq<Mark>, m: Mark)
    ensures PathOf(marks + [m]) == Extend(PathOf(marks), m)
  {}

  /** n blocks, numbered 1, 2, ... modulo 256. */
  function Blocks(n: nat): (s: seq<Mark>)
    ensures |s| == n && forall i :: 0 <= i < n ==> s[i] == Block((i + 1) % 256)
  {
    seq(n, i => Block((i + 1) % 256))
  }

  /** The one way to get to a state with n blocks transferred. */
  function TheWayTo(state: FotaState, n: nat): seq<Mark>
    requires !state.Failed? && !state.RollbackDone?
  {
    match state
    case Idle => []
    case Extended => [ToExtended]
    case DownloadAccepted => [ToExtended, Download]
    case InProgress => [ToExtended, Download] + Blocks(n)
    case Completed => [ToExtended, Download] + Blocks(n) + [Exit]
    case Verified => [ToExtended, Download] + Blocks(n) + [Exit, Verify]
    case Programming => [ToExtended, Download] + Blocks(n) + [Exit, Verify, ToProgramming]
    case ActivationPending => [ToExtended, Download] + Blocks(n) + [Exit, Verify, ToProgramming, Activate]
    case Activated => [ToExtended, Download] + Blocks(n) + [Exit, Verify, ToProgramming, Activate, Reset]
  }

  predicate Given(state: FotaState) {
    !state.Idle? && !state.Extended? && !state.DownloadAccepted?
  }

  ghost predicate OnTheWay(h: History, n: nat) {
    && !h.dcm.state.Failed? && !h.dcm.state.RollbackDone?
    && (Given(h.dcm.state) <==> n > 0)
    && PathOf(h.marks) == TheWayTo(h.dcm.state, n)
    && (h.dcm.state.DownloadAccepted? || h.dcm.state.InProgress? ==> h.dcm.expected == (n + 1) % 256)
    && (h.dcm.state.Idle? ==> !h.dcm.session.ExtendedSession?)
  }

  predicate OffTheWay(state: FotaState) {
    state.Failed? || state.RollbackDone?
  }

  // ---------------------------------------------------------------------------------------------
  // Every step.

  lemma NoMark(marks: seq<Mark>)
    ensures marks + [] == marks
  {}

  /** How a request that leaves this mark can change the runtime. */
  predicate Moves(d: Dcm, marks: seq<Mark>, t: Dcm) {
    && (t.state.Idle? ==> !t.session.ExtendedSession?)
    && (OffTheWay(d.state) ==> OffTheWay(t.state))
    && (if marks == [] then
          (t.state == d.state && t.expected == d.expected)
          || (t.state.Failed? && (OffTheWay(d.state) || d.state.DownloadAccepted? || d.state.InProgress?))
        else
          |marks| == 1 &&
          match marks[0]
          case ToExtended => t.state == (if d.state.Idle? then Extended else d.state) && t.expected == d.expected
          case Download => d.state.Extended? && t.state.DownloadAccepted? && t.expected == 1
          case Block(c) =>
            && (d.state.DownloadAccepted? || d.state.InProgress?) && c == d.expected
            && t.state.InProgress? && t.expected == NextCounter(d.expected)
          case Exit => d.state.InProgress? && t.state.Completed?
          case Verify => d.state.Completed? && t.state.Verified?
          case ToProgramming => (d.state.Verified? || d.state.Programming?) && t.state.Programming?
          case Activate => d.state.Programming? && t.state.ActivationPending?
          case Reset => t.state == (if d.state.ActivationPending? then Activated else d.state) && t.expected == d.expected
          case Rollback => t.state.RollbackDone?
          case TxFailed => false)
  }

  lemma RequestMoves(d: Dcm, req: seq<byte>, rids: Routines)
    requires |req| > 0 && RoutinesValid(rids) && (d.state.Idle? ==> !d.session.ExtendedSession?)
    ensures var a := Dispatch(d, req, rids); Moves(d, MarkOf(req, a.response, rids), a.dcm)
  {}

  lemma ConfirmationMoves(d: Dcm, ok: bool)
    ensures var t := TxConfirmation(d, ok);
            && t.session == d.session && t.expected == d.expected
            && (t.state == d.state || t.state.Failed?)
            && (t.state == d.state && !ok && !OffTheWay(d.state) ==> d.state.Idle? || d.state.Activated?)
            && (ok ==> t == d)
  {}

  /** The last mark of the way tells the state. */
  function LastMark(state: FotaState, n: nat): Mark
    requires !OffTheWay(state) && !state.Idle?
  {
    match state
    case Extended => ToExtended
    case DownloadAccepted => Download
    case InProgress => Block(n % 256)
    case Completed => Exit
    case Verified => Verify
    case Programming => ToProgramming
    case ActivationPending => Activate
    case Activated => Reset
  }

  lemma WayEnds(state: FotaState, n: nat)
    requires !OffTheWay(state) && (Given(state) <==> n > 0)
    ensures var way := TheWayTo(state, n);
            && (way == [] <==> state.Idle?)
            && (way != [] ==> way[|way| - 1] == LastMark(state, n))
  {}

  /** The way to the state a mark leads to is the way so far and that mark. */
  lemma WayGrows(s: FotaState, m: Mark, t: FotaState, n: nat)
    requires !OffTheWay(s) && !OffTheWay(t) && t != s && !m.Block?
    requires match m
             case ToExtended => s.Idle? && t.Extended?
             case Download => s.Extended? && t.DownloadAccepted?
             case Exit => s.InProgress? && t.Completed?
             case Verify => s.Completed? && t.Verified?
             case ToProgramming => s.Verified? && t.Programming?
             case Activate => s.Programming? && t.ActivationPending?
             case Reset => s.ActivationPending? && t.Activated?
             case _ => false
    ensures TheWayTo(t, n) == TheWayTo(s, n) + [m]
  {}

  lemma BlockGrows(s: FotaState, n: nat)
    requires s.DownloadAccepted? || s.InProgress?
    requires s.DownloadAccepted? ==> n == 0
    ensures TheWayTo(InProgress, n + 1) == TheWayTo(s, n) + [Block((n + 1) % 256)]
  {}

  /** A mark on the way is the next step of the way, or a repetition that does not show. */
  lemma MarkOnTheWay(d: Dcm, marks: seq<Mark>, m: Mark, t: Dcm, n: nat) returns (k: nat)
    requires OnTheWay(History(d, marks), n) && Moves(d, [m], t)
    ensures OnTheWay(History(t, marks + [m]), k) || OffTheWay(t.state)
  {
    hide TheWayTo, PathOf;
    k := if m.Block? then n + 1 else n;
    PathSnoc(marks, m);
    WayEnds(d.state, n);
    if m.Block? {
      BlockGrows(d.state, n);
    } else if !OffTheWay(t.state) && t.state != d.state {
      WayGrows(d.state, m, t.state, n);
    }
  }

  lemma StepOnTheWay(h: History, event: Event, rids: Routines, n: nat) returns (m: nat)
    requires RoutinesValid(rids) && OnTheWay(h, n)
    ensures var t := Next(h, event, rids); OnTheWay(t, m) || OffTheWay(t.dcm.state)
  {
    m := n;
    if event.Request? {
      if |event.req| > 0 {
        hide Dispatch, MarkOf, PathOf, TheWayTo;
        RequestMoves(h.dcm, event.req, rids);
        var a := Dispatch(h.dcm, event.req, rids);
        var marks := MarkOf(event.req, a.response, rids);
        if marks == [] {
          NoMark(h.marks);
        } else {
          assert marks == [marks[0]];
          m := MarkOnTheWay(h.dcm, h.marks, marks[0], a.dcm, n);
        }
      }
    } else {
      ConfirmationMoves(h.dcm, event.ok);
      if event.ok {
        NoMark(h.marks);
      } else {
        PathSnoc(h.marks, TxFailed);
        assert h.dcm.state.Idle? || h.dcm.state.Activated? ==> Extend(PathOf(h.marks), TxFailed) == PathOf(h.marks);
      }
    }
  }

  lemma {:induction false} OffIsForEver(h: History, event: Event, rids: Routines)
    requires RoutinesValid(rids) && OffTheWay(h.dcm.state)
    ensures OffTheWay(Next(h, event, rids).dcm.state)
  {}

  lemma {:induction false} AlwaysOnOrOff(events: seq<Event>, rids: Routines) returns (n: nat)
    requires RoutinesValid(rids)
    ensures var h := After(events, rids); OnTheWay(h, n) || OffTheWay(h.dcm.state)
    decreases |events|
  {
    hide Next, OnTheWay;
    n := 0;
    if events == [] {
      AtStart(rids);
    } else {
      var k := |events| - 1;
      n := AlwaysOnOrOff(events[..k], rids);
      var h := After(events[..k], rids);
      if OnTheWay(h, n) {
        n := StepOnTheWay(h, events[k], rids, n);
      } else {
        OffIsForEver(h, events[k], rids);
      }
    }
  }

  lemma AtStart(rids: Routines)
    ensures OnTheWay(History(INIT, []), 0)
  {}

  /** Trace safety: in every history since Dcm_Init that has led to ACTIVATED, what was answered
      positively is, in this order and apart from repetitions without effect: one change to the
      extended session, one download, n >= 1 blocks with counters 1, 2, ... modulo 256, the exit, the
      verification, the programming session, the activation and the reset; no transmission failed in
      between and no rollback was accepted. */
  lemma ActivatedOnlyOneWay(events: seq<Event>, rids: Routines) returns (n: nat)
    requires RoutinesValid(rids) && After(events, rids).dcm.state.Activated?
    ensures n >= 1
    ensures PathOf(After(events, rids).marks) ==
            [ToExtended, Download] + Blocks(n) + [Exit, Verify, ToProgramming, Activate, Reset]
  {
    hide After;
    n := AlwaysOnOrOff(events, rids);
  }

  /** FAILED and ROLLBACK_DONE are left for no other state, whatever is requested or confirmed. */
  lemma {:induction false} FailedOrRolledBackForEver(events: seq<Event>, more: seq<Event>, rids: Routines)
    requires RoutinesValid(rids) && OffTheWay(After(events, rids).dcm.state)
    ensures OffTheWay(After(events + more, rids).dcm.state)
    decreases |more|
  {
    hide Next;
    if more == [] {
      assert events + more == events;
    } else {
      var k := |more| - 1;
      FailedOrRolledBackForEver(events, more[..k], rids);
      assert (events + more)[..|events + more| - 1] == events + more[..k];
      OffIsForEver(After(events + more[..k], rids), more[k], rids);
    }
  }

  function Downloads(marks: seq<Mark>): nat {
    if marks == [] then 0
    else Downloads(marks[..|marks| - 1]) + if marks[|marks| - 1].Download? then 1 else 0
  }

  lemma DownloadsSnoc(marks: seq<Mark>, m: Mark)
    ensures Downloads(marks + [m]) == Downloads(marks) + if m.Download? then 1 else 0
  {}

  predicate NoDownloadYet(d: Dcm) {
    d.state.Idle? || d.state.Extended?
  }

  /** At most one download is accepted per initialisation, and none before the extended session. */
  lemma {:induction false} OneDownload(events: seq<Event>, rids: Routines)
    requires RoutinesValid(rids)
    ensures var h := After(events, rids);
            && Downloads(h.marks) <= 1
            && (NoDownloadYet(h.dcm) ==> Downloads(h.marks) == 0)
            && (h.dcm.state.Idle? ==> !h.dcm.session.ExtendedSession?)
    decreases |events|
  {
    hide Dispatch, MarkOf, Moves, TxConfirmation;
    if events != [] {
      var k := |events| - 1;
      OneDownload(events[..k], rids);
      var h, event := After(events[..k], rids), events[k];
      if event.Request? {
        if |event.req| > 0 {
          RequestMoves(h.dcm, event.req, rids);
          var a := Dispatch(h.dcm, event.req, rids);
          var marks := MarkOf(event.req, a.response, rids);
          DownloadMoves(h.dcm, marks, a.dcm);
          if marks == [] {
            NoMark(h.marks);
          } else {
            DownloadsSnoc(h.marks, marks[0]);
            assert marks == [marks[0]];
          }
        }
      } else {
        ConfirmationMoves(h.dcm, event.ok);
        if event.ok {
          NoMark(h.marks);
        } else {
          DownloadsSnoc(h.marks, TxFailed);
        }
      }
    }
  }

  lemma DownloadMoves(d: Dcm, marks: seq<Mark>, t: Dcm)
    requires Moves(d, marks, t)
    ensures |marks| <= 1
    ensures marks == [Download] ==> NoDownloadYet(d) && !NoDownloadYet(t)
    ensures NoDownloadYet(t) ==> NoDownloadYet(d)
    ensures t.state.Idle? ==> !t.session.ExtendedSession?
  {}

  // ---------------------------------------------------------------------------------------------
  // Answers.

  /** Every request is answered once, positively with its own identifier plus 0x40 or negatively with
      its identifier and a code; a negative answer leaves the server as it was, except that a block
      with the wrong counter in a running transfer fails the update. */
  lemma AnswersAreHonest(d: Dcm, req: seq<byte>, rids: Routines)
    requires |req| > 0
    ensures var a := Dispatch(d, req, rids);
            && |a.response| > 0
            && (a.response[0] == 0x7F ==> |a.response| == 3 && a.response[1] == req[0])
            && (a.response[0] != 0x7F ==> a.response[0] == req[0] + 0x40)
            && (a.response[0] == 0x7F ==>
                  if req[0] == SID_TRANSFER && |req| >= 2 && req[1] != d.expected
                     && (d.state.DownloadAccepted? || d.state.InProgress?) then
                    a.dcm == d.(state := Failed, result := TransferFailed)
                  else
                    a.dcm == d)
  {}

  /** The programming session is refused with 0x22 exactly in the states other than verified and
      programming session: before the update is verified, after it has failed or was rolled back, and
      also once its activation is pending or done. In the two other states it is granted. */
  lemma ProgrammingRefusedUntilVerified(d: Dcm, rids: Routines)
    ensures var response := Dispatch(d, [SID_SESSION, 0x02], rids).response;
            && (response == [0x7F, SID_SESSION, 0x22] <==> !d.state.Verified? && !d.state.Programming?)
            && (response != [0x7F, SID_SESSION, 0x22] ==> response[0] == 0x50)
  {}

  // ---------------------------------------------------------------------------------------------
  // The way can be gone, for every number of blocks.

  function Routine(rid: nat): Event {
    Request([SID_ROUTINE, 0x01] + Be16(rid))
  }

  function Transfer(n: nat): seq<Event> {
    if n == 0 then
      [Request([SID_SESSION, 0x03]), Request([SID_DOWNLOAD, 0x00, 0x44, 0x80, 0x00])]
    else
      Transfer(n - 1) + [Request([SID_TRANSFER, n % 256])]
  }

  lemma AfterSnoc(events: seq<Event>, event: Event, rids: Routines)
    ensures After(events + [event], rids) == Next(After(events, rids), event, rids)
  {}

  lemma {:induction false} TransferAccepted(n: nat, rids: Routines)
    ensures var d := After(Transfer(n), rids).dcm;
            d.expected == (n + 1) % 256 && d.state == (if n == 0 then DownloadAccepted else InProgress)
    decreases n
  {
    hide Next, After;
    if n == 0 {
      FirstSteps(rids);
    } else {
      TransferAccepted(n - 1, rids);
      AfterSnoc(Transfer(n - 1), Request([SID_TRANSFER, n % 256]), rids);
      BlockIsAccepted(After(Transfer(n - 1), rids), n % 256, rids);
      CounterWraps(n);
    }
  }

  lemma CounterWraps(n: nat)
    ensures NextCounter(n % 256) == (n + 1) % 256
  {}

  lemma FirstSteps(rids: Routines)
    ensures var d := After(Transfer(0), rids).dcm; d.state.DownloadAccepted? && d.expected == 1
  {}

  lemma BlockIsAccepted(h: History, counter: byte, rids: Routines)
    requires h.dcm.expected == counter && (h.dcm.state.DownloadAccepted? || h.dcm.state.InProgress?)
    ensures var d := Next(h, Request([SID_TRANSFER, counter]), rids).dcm;
            d.state.InProgress? && d.expected == NextCounter(counter)
  {}

  lemma EveryUpdateCanActivate(n: nat, rids: Routines)
    requires n >= 1 && RoutinesValid(rids) && rids.verify < 0x1_0000 && rids.activate < 0x1_0000
    ensures var events := Transfer(n) + [Request([SID_EXIT])] + [Routine(rids.verify)] + [Request([SID_SESSION, 0x02])]
                          + [Routine(rids.activate)] + [Request([SID_RESET, 0x01])];
            After(events, rids).dcm.state.Activated?
  {
    hide After, Next, Routine;
    TransferAccepted(n, rids);
    var e0 := Transfer(n);
    AfterSnoc(e0, Request([SID_EXIT]), rids);
    FinalSteps(After(e0, rids), rids);
    var e1 := e0 + [Request([SID_EXIT])];
    AfterSnoc(e1, Routine(rids.verify), rids);
    FinalSteps(After(e1, rids), rids);
    var e2 := e1 + [Routine(rids.verify)];
    AfterSnoc(e2, Request([SID_SESSION, 0x02]), rids);
    FinalSteps(After(e2, rids), rids);
    var e3 := e2 + [Request([SID_SESSION, 0x02])];
    AfterSnoc(e3, Routine(rids.activate), rids);
    FinalSteps(After(e3, rids), rids);
    var e4 := e3 + [Routine(rids.activate)];
    AfterSnoc(e4, Request([SID_RESET, 0x01]), rids);
    FinalSteps(After(e4, rids), rids);
  }

  lemma FinalSteps(h: History, rids: Routines)
    requires RoutinesValid(rids) && rids.verify < 0x1_0000 && rids.activate < 0x1_0000
    ensures h.dcm.state.InProgress? ==> Next(h, Request([SID_EXIT]), rids).dcm.state.Completed?
    ensures h.dcm.state.Completed? ==> Next(h, Routine(rids.verify), rids).dcm.state.Verified?
    ensures h.dcm.state.Verified? ==> Next(h, Request([SID_SESSION, 0x02]), rids).dcm.state.Programming?
    ensures h.dcm.state.Programming? ==> Next(h, Routine(rids.activate), rids).dcm.state.ActivationPending?
    ensures h.dcm.state.ActivationPending? ==> Next(h, Request([SID_RESET, 0x01]), rids).dcm.state.Activated?
  {
    hide MarkOf, Routine;
    RoutineRequest(rids.verify);
    RoutineRequest(rids.activate);
  }

  lemma RoutineRequest(rid: nat)
    requires rid < 0x1_0000
    ensures Routine(rid).Request?
    ensures var req := Routine(rid).req;
            |req| == 4 && req[0] == SID_ROUTINE && req[1] == 1 && U16(req[2], req[3]) == rid
  {}
}
