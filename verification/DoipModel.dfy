/** DoIP framing over a TCP byte stream (clause 7 of ISO 13400-2:2012) as the gateway does it, and
    what it does with each framed message. */
module DoipModel {

  import opened Bytes

  const VERSION: byte := 0x02
  const INVERSE_VERSION: byte := 0xFD
  const HEADER_LENGTH := 8
  const BUFFER_SIZE := 2048

  const TYPE_GENERIC_NACK := 0x0000
  const TYPE_ROUTING_ACTIVATION_REQ := 0x0005
  const TYPE_ROUTING_ACTIVATION_RES := 0x0006
  const TYPE_DIAG_MESSAGE := 0x8001

  const NACK_INVALID_HEADER: byte := 0x00
  const NACK_UNKNOWN_PAYLOAD_TYPE: byte := 0x01
  const NACK_MESSAGE_TOO_LARGE: byte := 0x02

  const ROUTING_ACTIVATION_SUCCESS: byte := 0x10
  const ENTITY_ADDRESS := 0x0F00
  const TESTER_ADDRESS := 0x0E00

  /** One framed message as DoIP_HandleMessage gets it. */
  datatype Message = Message(payloadType: nat, payload: seq<byte>)

  /** Why framing into sound messages stops: it waits for more bytes, it dropped the buffer after a
      negative acknowledgement, or a declared length makes the 32-bit message length wrap below the
      header length. What the code then does is in `Process`. */
  datatype Stop = Waiting | Nack(code: byte) | LengthWraps

  datatype Framing = Framing(messages: seq<Message>, rest: seq<byte>, stop: Stop)

  predicate VersionOk(s: seq<byte>)
    requires |s| >= HEADER_LENGTH
  {
    s[0] == VERSION && s[1] == INVERSE_VERSION
  }

  function DeclaredType(s: seq<byte>): nat
    requires |s| >= HEADER_LENGTH
  {
    U16(s[2], s[3])
  }

  function DeclaredLength(s: seq<byte>): nat
    requires |s| >= HEADER_LENGTH
  {
    U32(s[4], s[5], s[6], s[7])
  }

  /** What the first header of `s` makes of it. */
  datatype Head = NeedMore | Bad(stop: Stop) | Whole(length: nat)

  function HeadOf(s: seq<byte>): (h: Head)
    ensures h.Whole? ==> HEADER_LENGTH <= h.length <= |s| && h.length <= BUFFER_SIZE
    ensures h.Bad? ==> h.stop != Waiting
  {
    if |s| < HEADER_LENGTH then
      NeedMore
    else if !VersionOk(s) then
      Bad(Nack(NACK_INVALID_HEADER))
    else if HEADER_LENGTH + DeclaredLength(s) >= 0x1_0000_0000 then
      Bad(LengthWraps)
    else if HEADER_LENGTH + DeclaredLength(s) > BUFFER_SIZE then
      Bad(Nack(NACK_MESSAGE_TOO_LARGE))
    else if |s| < HEADER_LENGTH + DeclaredLength(s) then
      NeedMore
    else
      Whole(HEADER_LENGTH + DeclaredLength(s))
  }

  /** `LengthWraps` is exactly the case where the code's 32-bit sum comes out below the header length:
      the loop then goes on at most 7 bytes later, inside the header it has just read, and with the
      length 0xFFFFFFF8 at that very header again, for ever. */
  lemma WrappedLength(s: seq<byte>)
    requires |s| >= HEADER_LENGTH && VersionOk(s)
    ensures var advance := (HEADER_LENGTH + DeclaredLength(s)) % 0x1_0000_0000;
            && (HeadOf(s) == Bad(LengthWraps) <==> advance < HEADER_LENGTH)
            && (advance == 0 <==> DeclaredLength(s) == 0xFFFF_FFF8)
            && (advance == 0 <==> s[4..8] == [0xFF, 0xFF, 0xFF, 0xF8])
  {
    hide U32, U16;
    EndlessLength(s[4], s[5], s[6], s[7]);
    assert s[4..8] == [s[4], s[5], s[6], s[7]];
  }

  lemma EndlessLength(a: byte, b: byte, c: byte, d: byte)
    ensures U32(a, b, c, d) == 0xFFFF_FFF8 <==> [a, b, c, d] == [0xFF, 0xFF, 0xFF, 0xF8]
  {
    hide U32;
    Be32OfParsed(a, b, c, d);
    assert Be32(0xFFFF_FFF8) == [0xFF, 0xFF, 0xFF, 0xF8];
    assert U32(0xFF, 0xFF, 0xFF, 0xF8) == 0xFFFF_FFF8 by { EndlessValue(); }
  }

  lemma EndlessValue()
    ensures U32(0xFF, 0xFF, 0xFF, 0xF8) == 0xFFFF_FFF8
  {}

  /** The messages of a byte stream, the bytes left over, and why framing stops. */
  function Frame(s: seq<byte>): Framing
    decreases |s|
  {
    match HeadOf(s)
    case NeedMore => Framing([], s, Waiting)
    case Bad(stop) => Framing([], [], stop)
    case Whole(n) =>
      var more := Frame(s[n..]);
      more.(messages := [Message(DeclaredType(s), s[HEADER_LENGTH..n])] + more.messages)
  }

  /** More bytes at the end never change what the first header says, once it says anything. */
  lemma HeadStable(s: seq<byte>, t: seq<byte>)
    ensures HeadOf(s) != NeedMore ==>
              && HeadOf(s + t) == HeadOf(s) && DeclaredType(s + t) == DeclaredType(s)
              && (HeadOf(s).Whole? ==>
                    var n := HeadOf(s).length;
                    (s + t)[n..] == s[n..] + t && (s + t)[HEADER_LENGTH..n] == s[HEADER_LENGTH..n])
  {}

  // ---------------------------------------------------------------------------------------------
  // Framing undoes encoding.

  predicate Encodable(m: Message) {
    m.payloadType < 0x1_0000 && HEADER_LENGTH + |m.payload| <= BUFFER_SIZE
  }

  /** DoIP_SendMessage: the bytes handed to SoAd. */
  function Encode(m: Message): (s: seq<byte>)
    requires |m.payload| < 0x1_0000_0000
    ensures |s| == HEADER_LENGTH + |m.payload|
  {
    [VERSION, INVERSE_VERSION] + Be16(m.payloadType) + Be32(|m.payload|) + m.payload
  }

  ghost predicate AllEncodable(ms: seq<Message>) {
    forall i :: 0 <= i < |ms| ==> Encodable(ms[i])
  }

  ghost function EncodeAll(ms: seq<Message>): seq<byte>
    requires AllEncodable(ms)
  {
    if ms == [] then [] else Encode(ms[0]) + EncodeAll(ms[1..])
  }

  lemma HeaderBytes(t: seq<byte>, l: seq<byte>, payload: seq<byte>)
    requires |t| == 2 && |l| == 4
    ensures var s := [VERSION, INVERSE_VERSION] + t + l + payload;
            && |s| >= 8 && s[0] == VERSION && s[1] == INVERSE_VERSION && s[2] == t[0] && s[3] == t[1]
            && s[4] == l[0] && s[5] == l[1] && s[6] == l[2] && s[7] == l[3]
  {}

  lemma EncodedFields(m: Message)
    requires Encodable(m)
    ensures var s := Encode(m);
            VersionOk(s) && DeclaredType(s) == m.payloadType && DeclaredLength(s) == |m.payload|
  {
    hide Be16, Be32, U16, U32;
    HeaderBytes(Be16(m.payloadType), Be32(|m.payload|), m.payload);
    Be16RoundTrip(m.payloadType);
    Be32RoundTrip(|m.payload|);
  }

  lemma EncodedHead(m: Message, t: seq<byte>)
    requires Encodable(m)
    ensures var s := Encode(m) + t;
            && HeadOf(s) == Whole(|Encode(m)|) && DeclaredType(s) == m.payloadType
            && s[HEADER_LENGTH..|Encode(m)|] == m.payload && s[|Encode(m)|..] == t
  {
    EncodedFields(m);
    assert Encode(m)[HEADER_LENGTH..] == m.payload;
    hide Encode, U16, U32;
    HeadStable(Encode(m), t);
    assert (Encode(m) + t)[HEADER_LENGTH..|Encode(m)|] == Encode(m)[HEADER_LENGTH..];
  }

  /** Round trip: encoded messages followed by the beginning of one more come out as exactly those
      messages, with the beginning left over. */
  lemma {:induction false} FrameUndoesEncode(ms: seq<Message>, rest: seq<byte>)
    requires AllEncodable(ms) && HeadOf(rest) == NeedMore
    ensures Frame(EncodeAll(ms) + rest) == Framing(ms, rest, Waiting)
    decreases |ms|
  {
    hide HeadOf, Encode;
    if ms == [] {
      assert [] + rest == rest;
    } else {
      FrameUndoesEncode(ms[1..], rest);
      EncodedHead(ms[0], EncodeAll(ms[1..]) + rest);
      assert EncodeAll(ms) + rest == Encode(ms[0]) + (EncodeAll(ms[1..]) + rest);
    }
  }

  lemma HeadIsEncoded(s: seq<byte>)
    requires HeadOf(s).Whole?
    ensures var n := HeadOf(s).length;
            var m := Message(DeclaredType(s), s[HEADER_LENGTH..n]);
            Encodable(m) && Encode(m) + s[n..] == s
  {
    hide U16, U32, Be16, Be32;
    var n := HeadOf(s).length;
    Be16OfParsed(s[2], s[3]);
    Be32OfParsed(s[4], s[5], s[6], s[7]);
    HeaderAndRest(s, n);
  }

  lemma HeaderAndRest(s: seq<byte>, n: nat)
    requires HEADER_LENGTH <= n <= |s| && VersionOk(s)
    ensures [VERSION, INVERSE_VERSION] + [s[2], s[3]] + [s[4], s[5], s[6], s[7]] + s[HEADER_LENGTH..n] + s[n..] == s
  {}

  /** Conservation: framing loses nothing. While it waits for more, the stream is exactly the
      encodings of its messages followed by what is left over. */
  lemma {:induction false} FrameConserves(s: seq<byte>)
    requires Frame(s).stop == Waiting
    ensures AllEncodable(Frame(s).messages)
    ensures s == EncodeAll(Frame(s).messages) + Frame(s).rest
    decreases |s|
  {
    hide HeadOf, Encode;
    if HeadOf(s).Whole? {
      var n := HeadOf(s).length;
      FrameConserves(s[n..]);
      HeadIsEncoded(s);
      EncodeOneMore(Message(DeclaredType(s), s[HEADER_LENGTH..n]), Frame(s[n..]).messages, Frame(s[n..]).rest);
    }
  }

  lemma EncodeOneMore(m: Message, ms: seq<Message>, rest: seq<byte>)
    requires Encodable(m) && AllEncodable(ms)
    ensures AllEncodable([m] + ms)
    ensures EncodeAll([m] + ms) + rest == Encode(m) + (EncodeAll(ms) + rest)
  {
    hide Encode;
    assert ([m] + ms)[1..] == ms;
  }

  /** What is left over is shorter than a header, or starts with a sound header and is shorter than
      the message that header declares. */
  lemma {:induction false} LeftoverIsIncomplete(s: seq<byte>)
    ensures var f := Frame(s);
            && |f.rest| <= |s|
            && (f.stop == Waiting ==>
                  || |f.rest| < HEADER_LENGTH
                  || (VersionOk(f.rest) && |f.rest| < HEADER_LENGTH + DeclaredLength(f.rest) <= BUFFER_SIZE))
            && (f.stop != Waiting ==> f.rest == [])
    decreases |s|
  {
    if HeadOf(s).Whole? {
      LeftoverIsIncomplete(s[HeadOf(s).length..]);
    }
  }

  // ---------------------------------------------------------------------------------------------
  // Chunking.

  function Prepend(ms: seq<Message>, f: Framing): Framing {
    f.(messages := ms + f.messages)
  }

  lemma {:induction false} FrameConcat(s: seq<byte>, t: seq<byte>)
    ensures Frame(s).stop == Waiting ==> Frame(s + t) == Prepend(Frame(s).messages, Frame(Frame(s).rest + t))
    ensures Frame(s).stop != Waiting ==> Frame(s + t) == Frame(s)
    decreases |s|
  {
    hide HeadOf;
    HeadStable(s, t);
    if HeadOf(s).Whole? {
      var n := HeadOf(s).length;
      FrameConcat(s[n..], t);
      var m := [Message(DeclaredType(s), s[HEADER_LENGTH..n])];
      if Frame(s).stop == Waiting {
        assert m + (Frame(s[n..]).messages + Frame(Frame(s[n..]).rest + t).messages) ==
               (m + Frame(s[n..]).messages) + Frame(Frame(s[n..]).rest + t).messages;
      }
    } else if HeadOf(s).NeedMore? {
      assert [] + Frame(s + t).messages == Frame(s + t).messages;
    }
  }

  /** The buffer never overflows while these chunks arrive, up to the first error. */
  predicate Fits(rx: seq<byte>, chunks: seq<seq<byte>>)
    decreases |chunks|
  {
    chunks == [] ||
    (|rx| + |chunks[0]| <= BUFFER_SIZE
     && var f := Frame(rx + chunks[0]);
        (f.stop == Waiting ==> Fits(f.rest, chunks[1..])))
  }

  /** Chunk by chunk, up to the first error: the messages handled, what is left over, and why it
      stopped. */
  function Feed(rx: seq<byte>, chunks: seq<seq<byte>>): Framing
    decreases |chunks|
  {
    if chunks == [] then
      Framing([], rx, Waiting)
    else
      var f := Frame(rx + chunks[0]);
      if f.stop == Waiting then Prepend(f.messages, Feed(f.rest, chunks[1..])) else f
  }

  /** The same messages, the same stop, and the same bytes left over; where a length wraps, what is left
      over is not what `Framing` says. */
  predicate SameFraming(f: Framing, g: Framing) {
    f.messages == g.messages && f.stop == g.stop && (f.stop != LengthWraps ==> f.rest == g.rest)
  }

  /** Chunking invariance: however the stream is cut into indications that fit the buffer, the
      messages handled, the leftover and the first error are those of the whole stream. */
  lemma {:induction false} ChunkingInvariance(rx: seq<byte>, chunks: seq<seq<byte>>)
    requires Fits(rx, chunks) && Frame(rx) == Framing([], rx, Waiting)
    ensures SameFraming(Feed(rx, chunks), Frame(rx + Flatten(chunks)))
    decreases |chunks|
  {
    if chunks == [] {
      assert rx + [] == rx;
      assert [] + Frame(rx).messages == Frame(rx).messages;
    } else {
      var rest := Flatten(chunks[1..]);
      assert rx + Flatten(chunks) == (rx + chunks[0]) + rest;
      FrameConcat(rx + chunks[0], rest);
      var f := Frame(rx + chunks[0]);
      if f.stop == Waiting {
        LeftoverIsSettled(rx + chunks[0]);
        ChunkingInvariance(f.rest, chunks[1..]);
      }
    }
  }

  /** Framing what is left over yields nothing new. */
  lemma {:induction false} LeftoverIsSettled(s: seq<byte>)
    requires Frame(s).stop == Waiting
    ensures Frame(Frame(s).rest) == Framing([], Frame(s).rest, Waiting)
    decreases |s|
  {
    if HeadOf(s).Whole? {
      LeftoverIsSettled(s[HeadOf(s).length..]);
    }
  }

  /** Any two ways of cutting the same stream agree. */
  lemma SameStreamSameMessages(c: seq<seq<byte>>, d: seq<seq<byte>>)
    requires Flatten(c) == Flatten(d) && Fits([], c) && Fits([], d)
    ensures SameFraming(Feed([], c), Feed([], d))
  {
    ChunkingInvariance([], c);
    ChunkingInvariance([], d);
  }

  lemma OneWhole(good: Message)
    requires Encodable(good)
    ensures Frame(Encode(good)) == Framing([good], [], Waiting)
  {
    var e := Encode(good);
    EncodedHead(good, []);
    assert e + [] == e;
    hide Encode, HeadOf;
    assert HeadOf([]) == NeedMore by { ShortHead([]); }
  }

  lemma ShortHead(s: seq<byte>)
    requires |s| < HEADER_LENGTH
    ensures HeadOf(s) == NeedMore
  {}

  // ---------------------------------------------------------------------------------------------
  // What a message does.

  datatype TargetAddress = TargetAddress(doipRxPduId: nat, address: nat)
  datatype SourceAddress = SourceAddress(doipTxPduId: nat, address: nat)

  const TARGETS: seq<TargetAddress> := [TargetAddress(0, 0x1234), TargetAddress(1, 0x5678)]
  const SOURCES: seq<SourceAddress> := [SourceAddress(0, 0x1234), SourceAddress(1, 0x5678)]

  function FirstTarget(address: nat, from: nat): Option<nat>
    requires from <= |TARGETS|
    decreases |TARGETS| - from
  {
    if from == |TARGETS| then None
    else if TARGETS[from].address == address then Some(TARGETS[from].doipRxPduId)
    else FirstTarget(address, from + 1)
  }

  function FirstSource(id: nat, from: nat): Option<nat>
    requires from <= |SOURCES|
    decreases |SOURCES| - from
  {
    if from == |SOURCES| then None
    else if SOURCES[from].doipTxPduId == id then Some(SOURCES[from].address)
    else FirstSource(id, from + 1)
  }

  /** DoIP_Runtime without its buffers. */
  datatype Session = Session(active: bool, tester: nat)

  const INITIALIZED := Session(false, TESTER_ADDRESS)

  /** A message to SoAd, or an indication to PduR. */
  datatype Output =
    | ToSoAd(bytes: seq<byte>)
    | ToPduR(doipRxPduId: nat, uds: seq<byte>)
    | ToPduRBeyond(doipRxPduId: nat, length: nat) // of a length that runs beyond the receive buffer

  function NackOutput(code: byte): Output {
    ToSoAd(Encode(Message(TYPE_GENERIC_NACK, [code])))
  }

  datatype Handled = Handled(session: Session, outputs: seq<Output>)

  /** DoIP_HandleMessage with the routing activation and the diagnostic message handler. */
  function Handle(d: Session, m: Message): Handled {
    if m.payloadType == TYPE_ROUTING_ACTIVATION_REQ then
      if |m.payload| < 3 then
        Handled(d, [NackOutput(NACK_INVALID_HEADER)])
      else
        var tester := U16(m.payload[0], m.payload[1]);
        Handled(
          Session(true, tester),
          [ToSoAd(Encode(Message(TYPE_ROUTING_ACTIVATION_RES,
                                 Be16(tester) + Be16(ENTITY_ADDRESS) + [ROUTING_ACTIVATION_SUCCESS, 0, 0, 0, 0])))])
    else if m.payloadType == TYPE_DIAG_MESSAGE then
      if |m.payload| < 5 || !d.active then
        Handled(d, [])
      else
        var id := FirstTarget(U16(m.payload[2], m.payload[3]), 0);
        if id.None? then
          Handled(d, [])
        else
          Handled(d.(tester := U16(m.payload[0], m.payload[1])), [ToPduR(id.value, m.payload[4..])])
    else
      Handled(d, [NackOutput(NACK_UNKNOWN_PAYLOAD_TYPE)])
  }

  function HandleAll(d: Session, ms: seq<Message>): Handled
    decreases |ms|
  {
    if ms == [] then
      Handled(d, [])
    else
      var last := HandleAll(d, ms[..|ms| - 1]);
      var h := Handle(last.session, ms[|ms| - 1]);
      Handled(h.session, last.outputs + h.outputs)
  }

  lemma {:induction false} HandleFirst(d: Session, m: Message, ms: seq<Message>)
    ensures var h := Handle(d, m);
            var rest := HandleAll(h.session, ms);
            HandleAll(d, [m] + ms) == Handled(rest.session, h.outputs + rest.outputs)
    decreases |ms|
  {
    hide Handle;
    var all := [m] + ms;
    if ms == [] {
      assert all == [m] && all[..|all| - 1] == [] && HandleAll(d, []) == Handled(d, []);
    } else {
      assert all[..|all| - 1] == [m] + ms[..|ms| - 1] && all[|all| - 1] == ms[|ms| - 1];
      HandleFirst(d, m, ms[..|ms| - 1]);
    }
  }

  /** DoIP_HandleMessage as it is called: `memory` is what stands in the receive buffer from the payload
      on, `length` the payload's length as declared. Nothing comes out if it reads beyond the buffer. */
  function HandleAt(d: Session, payloadType: nat, memory: seq<byte>, length: nat): Option<Handled> {
    if payloadType == TYPE_ROUTING_ACTIVATION_REQ then
      if length < 3 then
        Some(Handled(d, [NackOutput(NACK_INVALID_HEADER)]))
      else if |memory| < 2 then
        None
      else
        var tester := U16(memory[0], memory[1]);
        Some(Handled(
          Session(true, tester),
          [ToSoAd(Encode(Message(TYPE_ROUTING_ACTIVATION_RES,
                                 Be16(tester) + Be16(ENTITY_ADDRESS) + [ROUTING_ACTIVATION_SUCCESS, 0, 0, 0, 0])))]))
    else if payloadType == TYPE_DIAG_MESSAGE then
      if length < 5 || !d.active then
        Some(Handled(d, []))
      else if |memory| < 4 then
        None
      else
        var id := FirstTarget(U16(memory[2], memory[3]), 0);
        if id.None? then
          Some(Handled(d, []))
        else
          Some(Handled(
            d.(tester := U16(memory[0], memory[1])),
            [if length <= |memory| then ToPduR(id.value, memory[4..length])
             else ToPduRBeyond(id.value, (length - 4) % 0x1_0000)]))
    else
      Some(Handled(d, [NackOutput(NACK_UNKNOWN_PAYLOAD_TYPE)]))
  }

  /** A message that lies in the buffer is handled as `Handle` says. */
  lemma HandledInBuffer(d: Session, payloadType: nat, memory: seq<byte>, length: nat)
    requires length <= |memory|
    ensures HandleAt(d, payloadType, memory, length) == Some(Handle(d, Message(payloadType, memory[..length])))
  {}

  // ---------------------------------------------------------------------------------------------
  // The loop over the buffer, whatever stands in it.

  /** A message as handed to DoIP_HandleMessage, a call of it for a length that wraps, or a refusal. */
  datatype Item =
    | Handed(m: Message)
    | Overlong(payloadType: nat, declared: nat)
    | Refused(code: byte)

  /** How the loop ends: it waits for more bytes, it has dropped the buffer, it never ends, or what it
      does depends on memory beyond the buffer. */
  datatype Ending = Waits | Refuses(code: byte) | Endless | ReadsBeyond

  datatype Outcome = Outcome(session: Session, outputs: seq<Output>, items: seq<Item>, rest: seq<byte>, ending: Ending)

  function Then(h: Handled, item: Item, p: Outcome): Outcome {
    p.(outputs := h.outputs + p.outputs, items := [item] + p.items)
  }

  /** How far the loop goes on after a length that wraps. */
  function Advance(s: seq<byte>): (n: nat)
    requires HeadOf(s) == Bad(LengthWraps)
    ensures n < HEADER_LENGTH <= |s|
  {
    (HEADER_LENGTH + DeclaredLength(s)) % 0x1_0000_0000
  }

  /** One turn of the loop: the last, or one that handles a message and goes on at `next`. */
  datatype Turn = Last(p: Outcome) | Next(h: Handled, item: Item, next: nat)

  /** A length that wraps passes both length tests, so its header is handled as a message of that length,
      read from whatever the buffer holds, and the loop goes on inside the header. */
  function TurnAt(d: Session, memory: seq<byte>, offset: nat, end: nat): (t: Turn)
    requires offset <= end <= |memory|
    ensures t.Next? ==> offset < t.next <= end
  {
    var s := memory[offset..end];
    match HeadOf(s)
    case NeedMore => Last(Outcome(d, [], [], s, Waits))
    case Whole(n) =>
      var m := Message(DeclaredType(s), s[HEADER_LENGTH..n]);
      Next(Handle(d, m), Handed(m), offset + n)
    case Bad(stop) =>
      if stop.Nack? then
        Last(Outcome(d, [NackOutput(stop.code)], [Refused(stop.code)], [], Refuses(stop.code)))
      else
        BadWraps(s);
        var item := Overlong(DeclaredType(s), DeclaredLength(s));
        var h := HandleAt(d, item.payloadType, memory[offset + HEADER_LENGTH..], item.declared);
        if h.None? then
          Last(Outcome(d, [], [item], [], ReadsBeyond))
        else if Advance(s) == 0 then
          Last(Outcome(h.value.session, h.value.outputs, [item], [], Endless))
        else
          Next(h.value, item, offset + Advance(s))
  }

  /** DoIP_ProcessRxBuffer from `offset` on, in a buffer `memory` of which the first `end` bytes were
      received. */
  function Process(d: Session, memory: seq<byte>, offset: nat, end: nat): Outcome
    requires offset <= end <= |memory|
    decreases end - offset
  {
    match TurnAt(d, memory, offset, end)
    case Last(p) => p
    case Next(h, item, next) => Then(h, item, Process(h.session, memory, next, end))
  }

  lemma BadWraps(s: seq<byte>)
    requires HeadOf(s).Bad? && !HeadOf(s).stop.Nack?
    ensures HeadOf(s) == Bad(LengthWraps) && |s| >= HEADER_LENGTH
  {}

  /** While no length wraps, the loop does what handling the framed messages one by one does. */
  lemma {:induction false} ProcessFrames(d: Session, memory: seq<byte>, offset: nat, end: nat)
    requires offset <= end <= |memory| && Frame(memory[offset..end]).stop != LengthWraps
    ensures var f, p := Frame(memory[offset..end]), Process(d, memory, offset, end);
            var h := HandleAll(d, f.messages);
            && p.session == h.session && p.rest == f.rest
            && p.outputs == h.outputs + (if f.stop.Nack? then [NackOutput(f.stop.code)] else [])
            && p.ending == (if f.stop.Nack? then Refuses(f.stop.code) else Waits)
    decreases end - offset
  {
    hide HeadOf, Handle, NackOutput, TurnAt, Frame, HandleAll;
    FirstTurn(d, memory, offset, end);
    var t := TurnAt(d, memory, offset, end);
    if t.Next? {
      ProcessFrames(t.h.session, memory, t.next, end);
      HandleFirst(d, t.item.m, Frame(memory[t.next..end]).messages);
    }
  }

  lemma FirstTurn(d: Session, memory: seq<byte>, offset: nat, end: nat)
    requires offset <= end <= |memory| && Frame(memory[offset..end]).stop != LengthWraps
    ensures var f, t := Frame(memory[offset..end]), TurnAt(d, memory, offset, end);
            if t.Last? then
              && f.messages == [] && HandleAll(d, []) == Handled(d, []) && t.p.session == d && t.p.rest == f.rest
              && t.p.outputs == (if f.stop.Nack? then [NackOutput(f.stop.code)] else [])
              && t.p.ending == (if f.stop.Nack? then Refuses(f.stop.code) else Waits)
            else
              && t.item.Handed? && t.h == Handle(d, t.item.m)
              && var g := Frame(memory[t.next..end]);
                 f.messages == [t.item.m] + g.messages && f.rest == g.rest && f.stop == g.stop
  {
    hide HeadOf, Handle, NackOutput, HandleAt, DeclaredType;
    var s := memory[offset..end];
    if HeadOf(s).Whole? {
      var n := HeadOf(s).length;
      assert s[n..] == memory[offset + n..end];
    }
  }

  /** A call of DoIP_HandleMessage that activates routing. */
  predicate ActivatesBy(item: Item) {
    match item
    case Handed(m) => Activates(m)
    case Overlong(payloadType, _) => payloadType == TYPE_ROUTING_ACTIVATION_REQ
    case Refused(_) => false
  }

  /** Whatever stands in the buffer, nothing gets past DoIP before such a call. */
  lemma {:induction false} ProcessBeforeActivation(d: Session, memory: seq<byte>, offset: nat, end: nat)
    requires offset <= end <= |memory| && !d.active
    requires forall item :: item in Process(d, memory, offset, end).items ==> !ActivatesBy(item)
    ensures var p := Process(d, memory, offset, end);
            p.session == d && forall i :: 0 <= i < |p.outputs| ==> p.outputs[i].ToSoAd?
    decreases end - offset
  {
    hide TurnAt, ActivatesBy;
    var t, p := TurnAt(d, memory, offset, end), Process(d, memory, offset, end);
    if p.items != [] {
      assert p.items[0] in p.items;
    }
    TurnBeforeActivation(d, memory, offset, end);
    if t.Next? {
      var q := Process(t.h.session, memory, t.next, end);
      assert p.items == [t.item] + q.items;
      ProcessBeforeActivation(d, memory, t.next, end);
    }
  }

  lemma TurnBeforeActivation(d: Session, memory: seq<byte>, offset: nat, end: nat)
    requires offset <= end <= |memory| && !d.active
    ensures var t := TurnAt(d, memory, offset, end);
            if t.Last? then
              (t.p.items != [] ==> !ActivatesBy(t.p.items[0])) ==>
                t.p.session == d && forall i :: 0 <= i < |t.p.outputs| ==> t.p.outputs[i].ToSoAd?
            else
              !ActivatesBy(t.item) ==>
                t.h.session == d && forall i :: 0 <= i < |t.h.outputs| ==> t.h.outputs[i].ToSoAd?
  {
    hide Encode, HeadOf;
  }

  /** DoIP_TpTransmit: the message for SoAd, or nothing when it refuses. */
  function Transmit(d: Session, doipTxPduId: nat, uds: seq<byte>): Option<seq<byte>> {
    var source := FirstSource(doipTxPduId, 0);
    if source.None? || !d.active || HEADER_LENGTH + 4 + |uds| > BUFFER_SIZE then
      None
    else
      Some(Encode(Message(TYPE_DIAG_MESSAGE, Be16(source.value) + Be16(d.tester) + uds)))
  }

  predicate Activates(m: Message) {
    m.payloadType == TYPE_ROUTING_ACTIVATION_REQ && |m.payload| >= 3
  }

  /** Before routing activation nothing gets past DoIP, whatever arrives; and the session stays as
      DoIP_Init left it. */
  lemma {:induction false} NothingRoutedBeforeActivation(ms: seq<Message>)
    requires forall i :: 0 <= i < |ms| ==> !Activates(ms[i])
    ensures HandleAll(INITIALIZED, ms).session == INITIALIZED
    ensures forall i :: 0 <= i < |HandleAll(INITIALIZED, ms).outputs| ==> HandleAll(INITIALIZED, ms).outputs[i].ToSoAd?
    decreases |ms|
  {
    hide Encode;
    if ms != [] {
      NothingRoutedBeforeActivation(ms[..|ms| - 1]);
    }
  }

  /** After it, exactly the diagnostic messages with a known target and at least one byte of UDS data
      get past, each as one indication with that data. */
  lemma RoutedIff(d: Session, m: Message)
    requires d.active
    ensures var known := m.payloadType == TYPE_DIAG_MESSAGE && |m.payload| >= 5
                         && FirstTarget(U16(m.payload[2], m.payload[3]), 0).Some?;
            && (known <==> exists id, uds :: ToPduR(id, uds) in Handle(d, m).outputs)
            && (known ==>
                  var id := FirstTarget(U16(m.payload[2], m.payload[3]), 0).value;
                  Handle(d, m).outputs == [ToPduR(id, m.payload[4..])])
            && Handle(d, m).session.active
  {}
}
