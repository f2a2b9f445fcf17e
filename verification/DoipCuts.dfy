/** What the cut of a TCP stream into indications changes, errors and wrapped lengths included. */
module DoipCuts {

  import opened Bytes
  import opened DoipModel

  // ---------------------------------------------------------------------------------------------
  // What a stream in the buffer leads to, header by header.

  datatype Scanned = Scanned(items: seq<Item>, rest: seq<byte>, ending: Ending)

  /** The length of what the first header has handled, if the loop goes on behind it. */
  function Step(s: seq<byte>): (next: Option<nat>)
    ensures next.Some? ==> 0 < next.value <= |s|
  {
    match HeadOf(s)
    case NeedMore => None
    case Whole(n) => Some(n)
    case Bad(stop) =>
      if stop.Nack? then None
      else
        BadWraps(s);
        if Advance(s) == 0 then None else Some(Advance(s))
  }

  /** What is done about the first header: a message handed over, whole or of a wrapped length, or a
      refusal, which counts only if `refusals` says so. */
  function First(s: seq<byte>, refusals: bool): seq<Item> {
    match HeadOf(s)
    case NeedMore => []
    case Whole(n) => [Handed(Message(DeclaredType(s), s[HEADER_LENGTH..n]))]
    case Bad(stop) =>
      if stop.Nack? then
        if refusals then [Refused(stop.code)] else []
      else
        BadWraps(s);
        [Overlong(DeclaredType(s), DeclaredLength(s))]
  }

  function Scan(s: seq<byte>, refusals: bool): Scanned
    decreases |s|
  {
    var next := Step(s);
    if next.Some? then
      var more := Scan(s[next.value..], refusals);
      more.(items := First(s, refusals) + more.items)
    else
      match HeadOf(s)
      case Bad(stop) => Scanned(First(s, refusals), [], if stop.Nack? then Refuses(stop.code) else Endless)
      case _ => Scanned([], s, Waits)
  }

  /** The loop over the buffer does just that: the same calls of DoIP_HandleMessage with the same types and
      lengths, the same refusals, the same rest. */
  lemma {:induction false} ProcessScans(d: Session, memory: seq<byte>, offset: nat, end: nat)
    requires offset <= end <= |memory|
    ensures var p, c := Process(d, memory, offset, end), Scan(memory[offset..end], true);
            if p.ending.ReadsBeyond? then p.items <= c.items
            else p.items == c.items && p.rest == c.rest && p.ending == c.ending
    decreases end - offset
  {
    hide TurnAt, HeadOf, Step, First;
    TurnScans(d, memory, offset, end);
    var t := TurnAt(d, memory, offset, end);
    if t.Next? {
      ProcessScans(t.h.session, memory, t.next, end);
      PrefixAfter(t.item, Process(t.h.session, memory, t.next, end).items, Scan(memory[t.next..end], true).items);
    }
  }

  lemma PrefixAfter(item: Item, a: seq<Item>, b: seq<Item>)
    ensures a <= b ==> [item] + a <= [item] + b
  {}

  lemma TurnScans(d: Session, memory: seq<byte>, offset: nat, end: nat)
    requires offset <= end <= |memory|
    ensures var s, t := memory[offset..end], TurnAt(d, memory, offset, end);
            if t.Next? then
              Step(s) == Some(t.next - offset) && First(s, true) == [t.item] && s[t.next - offset..] == memory[t.next..end]
            else if t.p.ending.ReadsBeyond? then
              t.p.items <= Scan(s, true).items
            else
              t.p.items == Scan(s, true).items && t.p.rest == Scan(s, true).rest && t.p.ending == Scan(s, true).ending
  {
    hide Handle, HandleAt, NackOutput;
  }

  // ---------------------------------------------------------------------------------------------
  // More bytes at the end.

  lemma BadIsLong(s: seq<byte>)
    requires HeadOf(s).Bad? || HeadOf(s).Whole?
    ensures |s| >= HEADER_LENGTH
  {}

  lemma LengthStable(s: seq<byte>, t: seq<byte>)
    requires |s| >= HEADER_LENGTH
    ensures DeclaredLength(s + t) == DeclaredLength(s)
  {}

  lemma StepStable(s: seq<byte>, t: seq<byte>, refusals: bool)
    ensures HeadOf(s) != NeedMore ==>
              && HeadOf(s + t) == HeadOf(s)
              && Step(s + t) == Step(s) && First(s + t, refusals) == First(s, refusals)
              && (Step(s).Some? ==> (s + t)[Step(s).value..] == s[Step(s).value..] + t)
  {
    hide HeadOf, DeclaredType, DeclaredLength;
    HeadStable(s, t);
    if HeadOf(s) != NeedMore {
      BadIsLong(s);
      LengthStable(s, t);
    }
  }

  /** Scanning a longer stream is scanning its first part, and then what is left with the rest. */
  lemma {:induction false} ScanConcat(s: seq<byte>, t: seq<byte>, refusals: bool)
    ensures var c := Scan(s, refusals);
            if c.ending.Waits? then
              var more := Scan(c.rest + t, refusals);
              Scan(s + t, refusals) == more.(items := c.items + more.items)
            else
              Scan(s + t, refusals) == c
    decreases |s|
  {
    hide First, Step;
    StepStable(s, t, refusals);
    StepOfHead(s);
    if Step(s).Some? {
      ScanConcat(s[Step(s).value..], t, refusals);
      var c := Scan(s[Step(s).value..], refusals);
      var more := Scan(c.rest + t, refusals);
      assert First(s, refusals) + (c.items + more.items) == (First(s, refusals) + c.items) + more.items;
      hide HeadOf;
    } else if HeadOf(s).NeedMore? {
      var more := Scan(s + t, refusals);
      assert [] + more.items == more.items;
    }
  }

  lemma StepOfHead(s: seq<byte>)
    ensures HeadOf(s).NeedMore? ==> Step(s).None?
    ensures HeadOf(s).Whole? ==> Step(s).Some?
  {}

  // ---------------------------------------------------------------------------------------------
  // Cuts.

  /** What is done about a stream in pieces, and whether the loop hangs in the end. An indication that
      does not fit is refused and dropped together with the buffer. */
  datatype Account = Account(items: seq<Item>, hangs: bool)

  function Arrive(rx: seq<byte>, chunks: seq<seq<byte>>, refusals: bool): Account
    decreases |chunks|
  {
    if chunks == [] then
      Account([], false)
    else if |rx| + |chunks[0]| > BUFFER_SIZE then
      var more := Arrive([], chunks[1..], refusals);
      more.(items := (if refusals then [Refused(NACK_MESSAGE_TOO_LARGE)] else []) + more.items)
    else
      var c := Scan(rx + chunks[0], refusals);
      if c.ending.Endless? then
        Account(c.items, true)
      else
        var more := Arrive(c.rest, chunks[1..], refusals);
        more.(items := c.items + more.items)
  }

  /** In one piece. */
  function AtOnce(s: seq<byte>, refusals: bool): Account {
    Account(Scan(s, refusals).items, Scan(s, refusals).ending.Endless?)
  }

  lemma OneIndication(s: seq<byte>, refusals: bool)
    requires |s| <= BUFFER_SIZE
    ensures Arrive([], [s], refusals) == AtOnce(s, refusals)
  {
    hide Scan;
    assert [] + s == s && Scan(s, refusals).items + [] == Scan(s, refusals).items;
  }

  /** Something is done about the first header. */
  predicate Acts(s: seq<byte>, refusals: bool) {
    First(s, refusals) != []
  }

  predicate Barren(s: seq<byte>, from: nat, refusals: bool) {
    forall i :: from <= i <= |s| ==> !Acts(s[i..], refusals)
  }

  /** Behind the first refused header no position starts anything that would be acted on: with refusals
      counted, no header at all; without, no whole message and no header whose length wraps. */
  predicate NothingBehindError(s: seq<byte>, refusals: bool)
    decreases |s|
  {
    var next := Step(s);
    if next.Some? then NothingBehindError(s[next.value..], refusals)
    else HeadOf(s).Bad? && HeadOf(s).stop.Nack? ==> Barren(s, HEADER_LENGTH, refusals)
  }

  /** Exactly when the cut does not matter: all cuts of a stream that fits the buffer lead to the same calls
      of DoIP_HandleMessage, by type and length, and of messages that lie in the stream by content, if and
      only if behind the first refused header nothing starts that would be handled; and with refusals
      counted, if and only if no header at all follows it. (What a call with a wrapped length reads is not
      part of the stream.) */
  lemma CutNeverMattersIff(s: seq<byte>, refusals: bool)
    requires |s| <= BUFFER_SIZE
    ensures (forall chunks :: Flatten(chunks) == s ==> Arrive([], chunks, refusals) == Arrive([], [s], refusals))
            <==> NothingBehindError(s, refusals)
  {
    hide NothingBehindError, Scan, Arrive;
    OneIndication(s, refusals);
    if NothingBehindError(s, refusals) {
      forall chunks | Flatten(chunks) == s ensures Arrive([], chunks, refusals) == Arrive([], [s], refusals) {
        assert [] + s == s;
        CutsAgree([], chunks, refusals);
      }
    } else {
      var chunks := CutSaves(s, refusals);
    }
  }

  lemma {:induction false} CutsAgree(rx: seq<byte>, chunks: seq<seq<byte>>, refusals: bool)
    requires HeadOf(rx) == NeedMore && |rx + Flatten(chunks)| <= BUFFER_SIZE
    requires NothingBehindError(rx + Flatten(chunks), refusals)
    ensures Arrive(rx, chunks, refusals) == AtOnce(rx + Flatten(chunks), refusals)
    decreases |chunks|
  {
    hide HeadOf, First, Step, NothingBehindError;
    if chunks == [] {
      assert rx + [] == rx;
      NothingYet(rx, refusals);
    } else {
      var x, rest := rx + chunks[0], Flatten(chunks[1..]);
      assert rx + Flatten(chunks) == x + rest;
      ScanConcat(x, rest, refusals);
      BehindConcat(x, rest, refusals);
      RestNeedsMore(x, refusals);
      if Scan(x, refusals).ending.Waits? {
        CutsAgree(Scan(x, refusals).rest, chunks[1..], refusals);
      } else if Scan(x, refusals).ending.Refuses? {
        assert [] + rest == rest;
        ShortHead([]);
        NothingThere([], chunks[1..], refusals);
        assert Scan(x, refusals).items + [] == Scan(x, refusals).items;
      }
    }
  }

  lemma NothingYet(s: seq<byte>, refusals: bool)
    requires HeadOf(s) == NeedMore
    ensures Scan(s, refusals) == Scanned([], s, Waits)
  {}

  lemma {:induction false} RestNeedsMore(s: seq<byte>, refusals: bool)
    ensures var c := Scan(s, refusals);
            && !c.ending.ReadsBeyond? && |c.rest| <= |s|
            && (if c.ending.Waits? then HeadOf(c.rest) == NeedMore else c.rest == [])
    decreases |s|
  {
    hide First;
    if Step(s).Some? {
      RestNeedsMore(s[Step(s).value..], refusals);
    }
  }

  /** What is behind the error of a longer stream. */
  lemma {:induction false} BehindConcat(s: seq<byte>, t: seq<byte>, refusals: bool)
    requires NothingBehindError(s + t, refusals)
    ensures var c := Scan(s, refusals);
            && (c.ending.Waits? ==> NothingBehindError(c.rest + t, refusals))
            && (c.ending.Refuses? ==> Barren(t, 0, refusals))
    decreases |s|
  {
    hide First, Step;
    StepStable(s, t, refusals);
    StepOfHead(s);
    if Step(s).Some? {
      hide HeadOf;
      BehindConcat(s[Step(s).value..], t, refusals);
    } else if HeadOf(s).Bad? && HeadOf(s).stop.Nack? {
      BadIsLong(s);
      hide HeadOf;
      BarrenTail(s, t, HEADER_LENGTH, refusals);
    }
  }

  lemma BarrenTail(s: seq<byte>, t: seq<byte>, from: nat, refusals: bool)
    requires Barren(s + t, from, refusals) && |s| >= from
    ensures Barren(t, 0, refusals)
  {
    hide Acts;
    forall i | 0 <= i <= |t| ensures !Acts(t[i..], refusals) {
      assert (s + t)[|s| + i..] == t[i..];
    }
  }

  /** A stream in which nothing starts leads to nothing, however it is cut. */
  lemma {:induction false} NothingThere(rx: seq<byte>, chunks: seq<seq<byte>>, refusals: bool)
    requires HeadOf(rx) == NeedMore && |rx + Flatten(chunks)| <= BUFFER_SIZE
    requires Barren(rx + Flatten(chunks), 0, refusals)
    ensures Arrive(rx, chunks, refusals) == Account([], false)
    decreases |chunks|
  {
    hide HeadOf, First, Step, Barren;
    if chunks != [] {
      var x, rest := rx + chunks[0], Flatten(chunks[1..]);
      assert rx + Flatten(chunks) == x + rest;
      BarrenScan(x, rest, refusals);
      NothingThere(Scan(x, refusals).rest, chunks[1..], refusals);
    }
  }

  /** Then the first piece leads to nothing, and what it leaves is again such a stream. */
  lemma BarrenScan(x: seq<byte>, t: seq<byte>, refusals: bool)
    requires Barren(x + t, 0, refusals)
    ensures var c := Scan(x, refusals);
            && c.items == [] && !c.ending.Endless? && HeadOf(c.rest) == NeedMore && |c.rest| <= |x|
            && Barren(c.rest + t, 0, refusals)
  {
    assert (x + t)[0..] == x + t && !Acts((x + t)[0..], refusals);
    StepStable(x, t, refusals);
    RestNeedsMore(x, refusals);
    ShortHead([]);
    BarrenTail(x, t, 0, refusals);
    assert [] + t == t;
    hide Barren, DeclaredType, DeclaredLength;
  }

  lemma CutSaves(s: seq<byte>, refusals: bool) returns (chunks: seq<seq<byte>>)
    requires |s| <= BUFFER_SIZE && !NothingBehindError(s, refusals)
    ensures Flatten(chunks) == s && Arrive([], chunks, refusals) != AtOnce(s, refusals)
  {
    hide HeadOf, NothingBehindError, First, Step;
    var i := SavingCut(s, refusals);
    chunks := [s[..i], s[i..]];
    FlattenTwo(s, i);
    ArriveTwo(s[..i], s[i..], refusals);
    ActsFirst(s[i..], refusals);
  }

  lemma ActsFirst(s: seq<byte>, refusals: bool)
    requires Acts(s, refusals)
    ensures |Scan(s, refusals).items| > 0
  {}

  lemma FlattenTwo(s: seq<byte>, i: nat)
    requires i <= |s|
    ensures Flatten([s[..i], s[i..]]) == s
  {
    assert [s[..i], s[i..]][1..] == [s[i..]];
    assert Flatten([s[i..]]) == s[i..] + [];
  }

  /** Two indications, the first of which ends in a refusal. */
  lemma ArriveTwo(c: seq<byte>, d: seq<byte>, refusals: bool)
    requires |c| <= BUFFER_SIZE && |d| <= BUFFER_SIZE
    requires Scan(c, refusals).ending.Refuses? && Scan(c, refusals).rest == []
    ensures Arrive([], [c, d], refusals).items == Scan(c, refusals).items + Scan(d, refusals).items
  {
    hide Scan;
    assert [c, d][1..] == [d] && [] + c == c;
    OneIndication(d, refusals);
  }

  /** Where to cut: before something that would be acted on behind the refused header. */
  lemma {:induction false} SavingCut(s: seq<byte>, refusals: bool) returns (i: nat)
    requires !NothingBehindError(s, refusals)
    ensures HEADER_LENGTH <= i <= |s| && Acts(s[i..], refusals)
    ensures var c := Scan(s, refusals); Scan(s[..i], refusals) == c && c.ending.Refuses? && c.rest == []
    decreases |s|
  {
    hide HeadOf, First, Acts;
    if Step(s).Some? {
      var n := Step(s).value;
      var k := SavingCut(s[n..], refusals);
      i := n + k;
      PrefixStep(s, i, refusals);
      assert s[n..][k..] == s[i..] && s[..i][n..] == s[n..][..k];
    } else {
      i :| HEADER_LENGTH <= i <= |s| && Acts(s[i..], refusals);
      PrefixStep(s, i, refusals);
    }
  }

  /** The first header is read the same in a prefix that contains it and its message. */
  lemma PrefixStep(s: seq<byte>, i: nat, refusals: bool)
    requires HEADER_LENGTH <= i <= |s| && HeadOf(s) != NeedMore && (Step(s).Some? ==> Step(s).value <= i)
    ensures HeadOf(s[..i]) == HeadOf(s) && Step(s[..i]) == Step(s) && First(s[..i], refusals) == First(s, refusals)
  {
    assert s == s[..i] + s[i..];
    PrefixHead(s, i);
    StepStable(s[..i], s[i..], refusals);
  }

  lemma PrefixHead(s: seq<byte>, i: nat)
    requires HEADER_LENGTH <= i <= |s| && HeadOf(s) != NeedMore && (Step(s).Some? ==> Step(s).value <= i)
    ensures HeadOf(s[..i]) != NeedMore
  {
    var p := s[..i];
    assert p[0] == s[0] && p[1] == s[1] && p[2] == s[2] && p[3] == s[3];
    assert p[4] == s[4] && p[5] == s[5] && p[6] == s[6] && p[7] == s[7];
  }

  // ---------------------------------------------------------------------------------------------
  // The condition spelt out, and some inputs.

  /** No header at all: fewer bytes than a header, or exactly a sound one that waits for its message. */
  lemma NoHeaderIff(u: seq<byte>)
    ensures Barren(u, 0, true) <==> |u| < HEADER_LENGTH || (|u| == HEADER_LENGTH && HeadOf(u) == NeedMore)
  {
    assert u[0..] == u;
    if |u| < HEADER_LENGTH {
      forall i | 0 <= i <= |u| ensures !Acts(u[i..], true) {
        ShortHead(u[i..]);
      }
    } else if |u| == HEADER_LENGTH {
      forall i | 0 < i <= |u| ensures !Acts(u[i..], true) {
        ShortHead(u[i..]);
      }
      assert Acts(u[0..], true) <==> HeadOf(u) != NeedMore;
    } else {
      SomeHeader(u);
    }
  }

  /** Of two headers that overlap but for a byte, one is not sound. */
  lemma SomeHeader(u: seq<byte>)
    requires |u| > HEADER_LENGTH
    ensures Acts(u[0..], true) || Acts(u[1..], true)
  {}

  /** A refused header and a message: the message is lost in one indication, and handled in two. */
  lemma CutMattersAfterError(bad: seq<byte>, good: Message)
    requires |bad| == HEADER_LENGTH && !VersionOk(bad) && Encodable(good) && |bad + Encode(good)| <= BUFFER_SIZE
    ensures Flatten([bad + Encode(good)]) == Flatten([bad, Encode(good)])
    ensures Arrive([], [bad + Encode(good)], false).items == [] && Arrive([], [bad, Encode(good)], false).items == [Handed(good)]
  {
    var e := Encode(good);
    RefusedFirst(bad, e);
    ScanOneWhole(good);
    hide Encode, Scan;
    FlattenTwo(bad + e, HEADER_LENGTH);
    assert (bad + e)[..HEADER_LENGTH] == bad && (bad + e)[HEADER_LENGTH..] == e && bad + e + [] == bad + e;
    OneIndication(bad + e, false);
    ArriveTwo(bad, e, false);
  }

  lemma RefusedFirst(bad: seq<byte>, t: seq<byte>)
    requires |bad| == HEADER_LENGTH && !VersionOk(bad)
    ensures var c := Scanned([], [], Refuses(NACK_INVALID_HEADER));
            Scan(bad, false) == c && Scan(bad + t, false) == c
  {
    HeadStable(bad, t);
  }

  lemma ScanOneWhole(good: Message)
    requires Encodable(good)
    ensures Scan(Encode(good), false).items == [Handed(good)]
  {
    var e := Encode(good);
    EncodedHead(good, []);
    assert e + [] == e;
    hide Encode, HeadOf;
    ShortHead([]);
    NothingYet([], false);
    assert Step(e) == Some(|e|) && First(e, false) == [Handed(good)] && e[|e|..] == [];
  }

  /** A header whose declared length makes the loop go on `n` bytes later. */
  function Wrapping(payloadType: nat, n: nat): seq<byte>
    requires n < HEADER_LENGTH
  {
    [VERSION, INVERSE_VERSION] + Be16(payloadType) + [0xFF, 0xFF, 0xFF, 0xF8 + n]
  }

  lemma WrappingHead(payloadType: nat, n: nat)
    requires payloadType < 0x1_0000 && n < HEADER_LENGTH
    ensures var s := Wrapping(payloadType, n);
            && HeadOf(s) == Bad(LengthWraps) && Advance(s) == n
            && DeclaredType(s) == payloadType && DeclaredLength(s) == 0xFFFF_FFF8 + n
  {}

  /** So it is with a header whose length wraps: after a refused header it is lost in one indication, and
      handled, as a message of almost 2^32 bytes, in two. */
  lemma CutMattersForWrap(bad: seq<byte>, payloadType: nat, n: nat)
    requires |bad| == HEADER_LENGTH && !VersionOk(bad) && payloadType < 0x1_0000 && 0 < n < HEADER_LENGTH
    ensures var w := Wrapping(payloadType, n);
            && Flatten([bad + w]) == Flatten([bad, w])
            && Arrive([], [bad + w], false).items == []
            && Arrive([], [bad, w], false).items == [Overlong(payloadType, 0xFFFF_FFF8 + n)]
  {
    var w := Wrapping(payloadType, n);
    RefusedFirst(bad, w);
    ScanWrapping(payloadType, n);
    hide Scan, Wrapping;
    FlattenTwo(bad + w, HEADER_LENGTH);
    assert (bad + w)[..HEADER_LENGTH] == bad && (bad + w)[HEADER_LENGTH..] == w && bad + w + [] == bad + w;
    OneIndication(bad + w, false);
    ArriveTwo(bad, w, false);
  }

  lemma ScanWrapping(payloadType: nat, n: nat)
    requires payloadType < 0x1_0000 && 0 < n < HEADER_LENGTH
    ensures |Wrapping(payloadType, n)| == HEADER_LENGTH
    ensures Scan(Wrapping(payloadType, n), false).items == [Overlong(payloadType, 0xFFFF_FFF8 + n)]
  {
    var w := Wrapping(payloadType, n);
    WrappingHead(payloadType, n);
    hide Wrapping, HeadOf, DeclaredLength, DeclaredType;
    ShortHead(w[n..]);
    NothingYet(w[n..], false);
    assert Step(w) == Some(n) && First(w, false) == [Overlong(payloadType, 0xFFFF_FFF8 + n)];
  }
}
