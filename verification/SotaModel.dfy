/** The flash update core of a target ECU as values: what it has received since a download began,
    what is programmed at the start of the inactive bank, and when it accepts the image. */
module SotaModel {

  import opened Bytes
  import Crc32

  const PAGE := 32
  const BANK_SIZE := 0x30_0000

  datatype CoreState = Idle | Erasing | Receiving | Programming | Verifying | Verified | Failed

  datatype CoreResult =
    | Ok | InvalidParam | InvalidLength | InvalidBank | EraseFailed | ProgramFailed | CrcFailed | StateError

  /** `received` are the bytes taken since SotaUpdate_Begin, `flash` the bytes programmed at the
      start of the inactive bank. */
  datatype Core = Core(state: CoreState, imageLength: nat, received: seq<byte>, flash: seq<byte>)

  const CORE_RESET := Core(Idle, 0, [], [])

  datatype Outcome = Outcome(core: Core, result: CoreResult)

  function Octet(b: byte): bv8 {
    b as bv8
  }

  function Octets(s: seq<byte>): (r: seq<bv8>)
    ensures |r| == |s|
  {
    seq(|s|, i requires 0 <= i < |s| => Octet(s[i]))
  }

  function WholePages(n: nat): (m: nat)
    ensures m <= n < m + PAGE && m % PAGE == 0
  {
    n / PAGE * PAGE
  }

  /** The data padded with erased bytes to whole pages. */
  function PagePadded(s: seq<byte>): (r: seq<byte>)
    ensures |r| % PAGE == 0 && |s| <= |r| < |s| + PAGE && r[..|s|] == s
  {
    if |s| % PAGE == 0 then s else s + Repeat(0xFF, PAGE - |s| % PAGE)
  }

  predicate CoreValid(c: Core) {
    && (c.state.Receiving? ==>
          && 1 <= c.imageLength <= BANK_SIZE && |c.received| <= c.imageLength
          && c.flash == c.received[..WholePages(|c.received|)])
    && (c.state.Verified? ==> |c.received| == c.imageLength && c.flash == PagePadded(c.received))
    && !c.state.Programming? && !c.state.Erasing? && !c.state.Verifying?
  }

  /** The first page from `from` on that does not program, of those complete within `to` bytes. */
  function FirstBad(from: nat, to: nat, failing: set<nat>): (p: Option<nat>)
    ensures p.Some? ==> from <= p.value && p.value + PAGE <= to && p.value in failing && (p.value - from) % PAGE == 0
    ensures from + PAGE > to ==> p.None?
    decreases if from <= to then to - from else 0
  {
    if from + PAGE > to then None
    else if from in failing then Some(from)
    else FirstBad(from + PAGE, to, failing)
  }

  function Fail(c: Core, result: CoreResult): Outcome {
    Outcome(c.(state := Failed), result)
  }

  /** SotaUpdate_Begin. `bankOk` and `eraseOk` stand for the bank lookup and the sector erase. */
  function Begin(imageLength: nat, bankOk: bool, eraseOk: bool): Outcome {
    var begun := Core(Idle, imageLength, [], []);
    if imageLength == 0 || imageLength > BANK_SIZE then Fail(begun, InvalidLength)
    else if !bankOk then Fail(begun, InvalidBank)
    else if !eraseOk then Fail(begun, EraseFailed)
    else Outcome(begun.(state := Receiving), Ok)
  }

  /** SotaUpdate_WriteChunk; `failing` are the page offsets that do not program. */
  function WriteChunk(c: Core, chunk: seq<byte>, failing: set<nat>): (o: Outcome)
    requires CoreValid(c)
    ensures CoreValid(o.core)
  {
    if !c.state.Receiving? then
      Fail(c, StateError)
    else if |chunk| == 0 then
      Outcome(c, Ok)
    else if |c.received| + |chunk| > c.imageLength then
      Fail(c, InvalidLength)
    else
      var all := c.received + chunk;
      var bad := FirstBad(|c.flash|, |all|, failing);
      if bad.Some? then
        Fail(c.(received := all[..bad.value + PAGE], flash := all[..bad.value]), ProgramFailed)
      else
        Outcome(c.(received := all, flash := all[..WholePages(|all|)]), Ok)
  }

  /** SotaUpdate_FinalizeAndVerify. */
  function Finalize(c: Core, expectedCrc: bv32, failing: set<nat>): (o: Outcome)
    requires CoreValid(c)
    ensures CoreValid(o.core)
  {
    if !c.state.Receiving? then
      Fail(c, StateError)
    else if |c.received| != c.imageLength then
      Fail(c, InvalidLength)
    else if |c.received| % PAGE > 0 && |c.flash| in failing then
      Fail(c, ProgramFailed)
    else
      var done := c.(flash := PagePadded(c.received));
      if Crc32.Checksum(Octets(done.flash[..c.imageLength])) != Crc32.BitsOfWord(expectedCrc) then
        Fail(done, CrcFailed)
      else
        Outcome(done.(state := Verified), Ok)
  }

  /** Accepted means: everything announced has arrived, it is what the inactive bank holds, padded
      with erased bytes, and its checksum is the one expected; and in every other case refused. */
  lemma FinalizeOkIff(c: Core, expectedCrc: bv32, failing: set<nat>)
    requires CoreValid(c)
    ensures var o := Finalize(c, expectedCrc, failing);
            && (o.result == Ok <==>
                  && c.state.Receiving? && |c.received| == c.imageLength
                  && (|c.received| % PAGE > 0 ==> |c.flash| !in failing)
                  && Crc32.Checksum(Octets(c.received)) == Crc32.BitsOfWord(expectedCrc))
            && (o.result == Ok ==> o.core.state.Verified? && o.core.received == c.received)
            && (o.result == Ok <==> !o.core.state.Failed?)
  {}

  /** Chunk by chunk is the same as at once: while all pages program, a sequence of accepted writes
      leaves exactly the concatenation of its chunks, however it was cut. */
  lemma {:induction false} WritesConcatenate(c: Core, chunks: seq<seq<byte>>, failing: set<nat>)
    requires CoreValid(c) && c.state.Receiving?
    requires |c.received| + |Flatten(chunks)| <= c.imageLength
    requires FirstBad(|c.flash|, c.imageLength, failing).None?
    ensures var all := c.received + Flatten(chunks);
            WriteAll(c, chunks, failing) == c.(received := all, flash := all[..WholePages(|all|)])
    decreases |chunks|
  {
    hide WholePages;
    if chunks == [] {
      assert c.received + [] == c.received;
    } else {
      var next := WriteChunk(c, chunks[0], failing).core;
      WriteAppends(c, chunks[0], failing);
      hide WriteChunk, FirstBad;
      assert c.received + chunks[0] + Flatten(chunks[1..]) == c.received + Flatten(chunks);
      WritesConcatenate(next, chunks[1..], failing);
    }
  }

  lemma WriteAppends(c: Core, chunk: seq<byte>, failing: set<nat>)
    requires CoreValid(c) && c.state.Receiving?
    requires |c.received| + |chunk| <= c.imageLength
    requires FirstBad(|c.flash|, c.imageLength, failing).None?
    ensures var next := WriteChunk(c, chunk, failing).core;
            && next == c.(received := c.received + chunk, flash := (c.received + chunk)[..WholePages(|c.received + chunk|)])
            && FirstBad(|next.flash|, c.imageLength, failing).None?
  {
    hide WholePages;
    NoBadBelow(|c.flash|, |c.received| + |chunk|, c.imageLength, failing);
    if chunk == [] {
      assert c.received + [] == c.received;
    }
    PagesGrow(|c.received|, |c.received| + |chunk|);
    NoBadAbove(|c.flash|, |WriteChunk(c, chunk, failing).core.flash|, c.imageLength, failing);
  }

  lemma PagesGrow(m: nat, n: nat)
    requires m <= n
    ensures WholePages(m) <= WholePages(n) && (WholePages(n) - WholePages(m)) % PAGE == 0
  {}

  function WriteAll(c: Core, chunks: seq<seq<byte>>, failing: set<nat>): (r: Core)
    requires CoreValid(c)
    ensures CoreValid(r)
    decreases |chunks|
  {
    if chunks == [] then c else WriteAll(WriteChunk(c, chunks[0], failing).core, chunks[1..], failing)
  }

  lemma {:induction false} NoBadBelow(from: nat, to: nat, limit: nat, failing: set<nat>)
    requires to <= limit && FirstBad(from, limit, failing).None?
    ensures FirstBad(from, to, failing).None?
    decreases if from <= to then to - from else 0
  {
    if from + PAGE <= to {
      NoBadBelow(from + PAGE, to, limit, failing);
    }
  }

  lemma {:induction false} NoBadAbove(from: nat, later: nat, limit: nat, failing: set<nat>)
    requires from <= later && (later - from) % PAGE == 0 && FirstBad(from, limit, failing).None?
    ensures FirstBad(later, limit, failing).None?
    decreases later - from
  {
    if from < later && from + PAGE <= limit {
      NoBadAbove(from + PAGE, later, limit, failing);
    }
  }
}
