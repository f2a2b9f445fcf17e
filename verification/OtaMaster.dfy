/** The master's whole command sequence, against any answers at all: what it has sent, in which order,
    when it stops, and with which result. */
module OtaMaster {

  import opened Bytes
  import S = SotaModel
  import Crc32

  const FLASH_START := 0x8000_0000
  const BLOCK := 1024
  const MAX_RETRIES := 120
  const CONDITIONS_NOT_CORRECT := 0x22
  const NOT_FOUND := -100

  datatype Request =
    | Session(sub: byte)
    | Download(address: nat, size: nat)
    | Transfer(sn: byte, data: seq<byte>)
    | Exit
    | Verify(crc: bv32)
    | Swap
    | Reset
    | Rollback

  /** What comes back for a request: nothing at all, or bytes that checkUdsResponse turns into a code,
      0 for a positive response. */
  datatype Answer = Silence | Says(code: int)

  /** A request and the code the master saw for it. */
  datatype Exchange = Exchange(request: Request, code: int)

  type Trace = seq<Exchange>

  /** With nothing received, checkUdsResponse finds no header; the transfer loop gives up with -1. */
  function CodeOf(request: Request, answer: Answer): int {
    if answer.Says? then answer.code else if request.Transfer? then -1 else NOT_FOUND
  }

  /** The k-th code of a trace is what the k-th answer gave. */
  ghost predicate Answered(trace: Trace, answers: nat -> Answer) {
    forall k :: 0 <= k < |trace| ==> trace[k].code == CodeOf(trace[k].request, answers(k))
  }

  /** One request and its answer. */
  method Ask(trace: Trace, request: Request, answers: nat -> Answer) returns (longer: Trace, code: int)
    requires Answered(trace, answers)
    ensures Answered(longer, answers)
    ensures longer == trace + [Exchange(request, code)]
  {
    code := CodeOf(request, answers(|trace|));
    longer := trace + [Exchange(request, code)];
  }

  // ---------------------------------------------------------------------------------------------
  // The sequences a run consists of.

  function BlockAt(image: seq<byte>, i: nat): Request
    requires i * BLOCK < |image|
  {
    var from := i * BLOCK;
    Transfer((i + 1) % 256, image[from..if |image| - from > BLOCK then from + BLOCK else |image|])
  }

  function BlockCount(image: seq<byte>): nat {
    (|image| + BLOCK - 1) / BLOCK
  }

  /** The first n blocks, all answered positively. */
  function Blocks(image: seq<byte>, n: nat): (t: Trace)
    requires n <= BlockCount(image)
    ensures |t| == n
  {
    seq(n, i requires 0 <= i < n => Exchange(BlockAt(image, i), 0))
  }

  /** Session and download, both positive. */
  function Opening(image: seq<byte>): Trace {
    [Exchange(Session(3), 0), Exchange(Download(FLASH_START, |image|), 0)]
  }

  /** The whole image transferred, exited and verified, all positive. */
  function Installed(image: seq<byte>, crc: bv32): (t: Trace)
    ensures |t| == BlockCount(image) + 4
    ensures forall k :: 0 <= k < |t| ==> t[k].code == 0
  {
    Opening(image) + Blocks(image, BlockCount(image)) + [Exchange(Exit, 0), Exchange(Verify(crc), 0)]
  }

  /** n requests for the programming session, each answered that the conditions are not correct. */
  function Refused(n: nat): (t: Trace)
    ensures |t| == n && forall i :: 0 <= i < n ==> t[i] == Exchange(Session(2), CONDITIONS_NOT_CORRECT)
  {
    seq(n, _ => Exchange(Session(2), CONDITIONS_NOT_CORRECT))
  }

  /** Everything up to the bank swap. */
  function ReadyToSwap(image: seq<byte>, crc: bv32, retries: nat): Trace {
    Installed(image, crc) + Refused(retries) + [Exchange(Session(2), 0)]
  }

  /** Stopped while installing: everything before the last request is what a successful run would have
      sent, the last request is the next such one, and its code, not 0, is the result. */
  ghost predicate StoppedInstalling(trace: Trace, code: int, image: seq<byte>, crc: bv32) {
    && 0 < |trace| <= |Installed(image, crc)| && code != 0
    && var n := |trace| - 1;
       trace == Installed(image, crc)[..n] + [Exchange(Installed(image, crc)[n].request, code)]
  }

  /** Stopped while waiting for the safe state, by an answer that is neither a yes nor a not-yet. */
  ghost predicate StoppedWaiting(trace: Trace, code: int, image: seq<byte>, crc: bv32) {
    && |Installed(image, crc)| < |trace| <= |Installed(image, crc)| + MAX_RETRIES
    && code != 0 && code != CONDITIONS_NOT_CORRECT
    && trace == Installed(image, crc) + Refused(|trace| - 1 - |Installed(image, crc)|) + [Exchange(Session(2), code)]
  }

  /** What follows the swap request: after a refused swap, rollback and reset if the user asks for
      them; after an accepted one, the reset, and if the user asks for it session, rollback and reset. */
  ghost predicate Aftermath(tail: Trace, code: int, swapCode: int, user: bool) {
    if swapCode != 0 then
      && code == swapCode
      && if user then |tail| == 2 && tail[0].request == Rollback && tail[1].request == Reset else tail == []
    else
      && |tail| >= 1 && tail[0].request == Reset
      && if !user then
           |tail| == 1 && code == 0
         else
           && |tail| >= 2 && tail[1].request == Session(3)
           && if tail[1].code != 0 then
                |tail| == 2 && code == tail[1].code
              else
                |tail| == 4 && tail[2].request == Rollback && tail[3].request == Reset && code == 0
  }

  ghost predicate CameToSwap(trace: Trace, code: int, image: seq<byte>, crc: bv32, user: bool, retries: nat) {
    && retries < MAX_RETRIES
    && var ready := ReadyToSwap(image, crc, retries);
       && |trace| > |ready| && trace[..|ready|] == ready
       && trace[|ready|].request == Swap
       && Aftermath(trace[|ready| + 1..], code, trace[|ready|].code, user)
  }

  ghost predicate TimedOut(trace: Trace, code: int, image: seq<byte>, crc: bv32) {
    trace == Installed(image, crc) + Refused(MAX_RETRIES) && code == CONDITIONS_NOT_CORRECT
  }

  /** A run: every code comes from its answer, and the requests follow one of the four courses. */
  ghost predicate IsRun(trace: Trace, code: int, image: seq<byte>, crc: bv32, user: bool, answers: nat -> Answer) {
    && Answered(trace, answers)
    && (|| StoppedInstalling(trace, code, image, crc)
        || StoppedWaiting(trace, code, image, crc)
        || TimedOut(trace, code, image, crc)
        || exists retries: nat :: CameToSwap(trace, code, image, crc, user, retries))
  }

  // ---------------------------------------------------------------------------------------------
  // The program.

  /** The parts of a successful installation, request by request. */
  lemma InstalledParts(image: seq<byte>, crc: bv32)
    ensures var t, n := Installed(image, crc), BlockCount(image);
            && t[..2] == Opening(image)
            && t[0].request == Session(3) && t[1].request == Download(FLASH_START, |image|)
            && (forall i :: 0 <= i < n ==> t[i + 2].request == BlockAt(image, i))
            && t[n + 2].request == Exit && t[n + 3].request == Verify(crc)
  {}

  /** One more positive answer. */
  lemma InstalledGrows(image: seq<byte>, crc: bv32, n: nat)
    requires n < |Installed(image, crc)|
    ensures Installed(image, crc)[..n] + [Exchange(Installed(image, crc)[n].request, 0)] == Installed(image, crc)[..n + 1]
  {
    hide Installed;
  }

  /** The next request of the installation. */
  method AskNext(trace: Trace, request: Request, answers: nat -> Answer, ghost image: seq<byte>, ghost crc: bv32)
    returns (longer: Trace, code: int)
    requires |trace| < |Installed(image, crc)| && trace == Installed(image, crc)[..|trace|]
    requires request == Installed(image, crc)[|trace|].request && Answered(trace, answers)
    ensures Answered(longer, answers) && |longer| == |trace| + 1
    ensures code == 0 ==> longer == Installed(image, crc)[..|longer|]
    ensures code != 0 ==> StoppedInstalling(longer, code, image, crc)
  {
    hide Installed, Answered;
    InstalledGrows(image, crc, |trace|);
    longer, code := Ask(trace, request, answers);
  }

  /** The body of startOtaTransfer after routing activation. `user` is the user's answer to the
      question whether to roll back. */
  method StartOtaTransfer(image: seq<byte>, answers: nat -> Answer, user: bool) returns (code: int, trace: Trace, crc: bv32)
    requires |image| < 0x1_0000_0000
    ensures Crc32.BitsOfWord(crc) == Crc32.Checksum(S.Octets(image))
    ensures IsRun(trace, code, image, crc, user, answers)
  {
    hide Crc32.BitsOfWord, Crc32.Checksum, S.Octets, Aftermath, CameToSwap, Installed, StoppedInstalling, StoppedWaiting;
    var nrc;
    crc := Crc32.CalculateChunkCrc32(S.Octets(image));
    InstalledParts(image, crc);
    trace := [];
    trace, nrc := AskNext(trace, Session(3), answers, image, crc);
    if nrc != 0 {
      return nrc, trace, crc;
    }
    trace, nrc := AskNext(trace, Download(FLASH_START, |image|), answers, image, crc);
    if nrc != 0 {
      return nrc, trace, crc;
    }
    trace, nrc := TransferAll(trace, image, answers, crc);
    if nrc != 0 {
      return nrc, trace, crc;
    }
    trace, nrc := AskNext(trace, Exit, answers, image, crc);
    if nrc != 0 {
      return nrc, trace, crc;
    }
    trace, nrc := AskNext(trace, Verify(crc), answers, image, crc);
    if nrc != 0 {
      return nrc, trace, crc;
    }
    assert trace == Installed(image, crc);
    var safe, retries;
    trace, nrc, safe, retries := AwaitSafeState(trace, image, answers, crc);
    if nrc != 0 {
      return nrc, trace, crc;
    }
    if !safe {
      return CONDITIONS_NOT_CORRECT, trace, crc;
    }
    trace, code := SwapAndAfter(trace, image, answers, crc, user, retries);
  }

  /** The 0x36 loop after n blocks: `offset` bytes are sent. */
  predicate SentBlocks(image: seq<byte>, n: nat, offset: nat) {
    && offset <= |image| && n <= BlockCount(image)
    && (offset == n * BLOCK || offset == |image|) && offset <= n * BLOCK < offset + BLOCK
  }

  function CurrLen(image: seq<byte>, offset: nat): nat
    requires offset <= |image|
  {
    if |image| - offset > BLOCK then BLOCK else |image| - offset
  }

  lemma NextBlock(image: seq<byte>, n: nat, offset: nat)
    requires SentBlocks(image, n, offset) && offset < |image|
    ensures n < BlockCount(image) && n * BLOCK < |image|
    ensures BlockAt(image, n) == Transfer((n + 1) % 256, image[offset..offset + CurrLen(image, offset)])
    ensures SentBlocks(image, n + 1, offset + CurrLen(image, offset))
  {}

  lemma NothingSent(image: seq<byte>)
    ensures SentBlocks(image, 0, 0)
  {}

  lemma CurrLenIs(image: seq<byte>, offset: nat, currLen: nat)
    requires offset <= |image| && currLen == if |image| - offset > BLOCK then BLOCK else |image| - offset
    ensures CurrLen(image, offset) == currLen && offset + currLen <= |image|
    ensures offset < |image| ==> currLen > 0
  {}

  lemma RequestAt(image: seq<byte>, crc: bv32, n: nat)
    requires n < BlockCount(image) && n * BLOCK < |image|
    ensures Installed(image, crc)[n + 2].request == BlockAt(image, n)
  {
    hide Installed;
    InstalledParts(image, crc);
  }

  lemma NextCounter(n: nat, sn: byte)
    requires sn == (n + 1) % 256
    ensures (if sn == 0xFF then 0x00 else sn + 1) == (n + 2) % 256
  {}

  /** The 0x36 loop. */
  method TransferAll(begun: Trace, image: seq<byte>, answers: nat -> Answer, ghost crc: bv32) returns (trace: Trace, nrc: int)
    requires begun == Installed(image, crc)[..2] && Answered(begun, answers)
    ensures Answered(trace, answers)
    ensures nrc == 0 ==> trace == Installed(image, crc)[..BlockCount(image) + 2]
    ensures nrc != 0 ==> StoppedInstalling(trace, nrc, image, crc)
  {
    hide *;
    var sn: byte := 1;
    var offset := 0;
    ghost var n := 0;
    NothingSent(image);
    trace, nrc := begun, 0;
    while offset < |image|
      invariant 0 <= offset <= |image| && n <= BlockCount(image) && SentBlocks(image, n, offset)
      invariant sn == (n + 1) % 256
      invariant trace == Installed(image, crc)[..n + 2] && Answered(trace, answers)
    {
      var currLen := if |image| - offset > BLOCK then BLOCK else |image| - offset;
      NextBlock(image, n, offset);
      CurrLenIs(image, offset, currLen);
      RequestAt(image, crc, n);
      trace, nrc := AskNext(trace, Transfer(sn, image[offset..offset + currLen]), answers, image, crc);
      if nrc == 0 {
        NextCounter(n, sn);
        n := n + 1;
        offset := offset + currLen;
        sn := if sn == 0xFF then 0x00 else sn + 1;
      } else {
        return;
      }
    }
    AllBlocks(image, n);
    nrc := 0;
  }

  lemma AllBlocks(image: seq<byte>, n: nat)
    requires SentBlocks(image, n, |image|)
    ensures n == BlockCount(image)
  {}

  /** The loop that waits for the safe state. */
  method AwaitSafeState(installed: Trace, image: seq<byte>, answers: nat -> Answer, crc: bv32)
    returns (trace: Trace, failure: int, safe: bool, retryCounter: nat)
    requires installed == Installed(image, crc) && Answered(installed, answers)
    ensures Answered(trace, answers)
    ensures failure != 0 ==> StoppedWaiting(trace, failure, image, crc)
    ensures failure == 0 && safe ==> retryCounter < MAX_RETRIES && trace == ReadyToSwap(image, crc, retryCounter)
    ensures failure == 0 && !safe ==> TimedOut(trace, CONDITIONS_NOT_CORRECT, image, crc)
  {
    hide Installed, Answered;
    trace, failure, safe, retryCounter := installed, 0, false, 0;
    while !safe && retryCounter < MAX_RETRIES
      invariant retryCounter <= MAX_RETRIES
      invariant failure == 0 && Answered(trace, answers)
      invariant !safe ==> trace == Installed(image, crc) + Refused(retryCounter)
      invariant safe ==> retryCounter < MAX_RETRIES && trace == ReadyToSwap(image, crc, retryCounter)
      decreases if safe then 0 else 1, MAX_RETRIES - retryCounter
    {
      var nrc;
      trace, nrc := Ask(trace, Session(2), answers);
      if nrc == 0 {
        safe := true;
      } else if nrc == CONDITIONS_NOT_CORRECT {
        RefusedGrows(Installed(image, crc), retryCounter);
        retryCounter := retryCounter + 1;
      } else {
        failure := nrc;
        return;
      }
    }
  }

  lemma RefusedGrows(t: Trace, n: nat)
    ensures t + Refused(n) + [Exchange(Session(2), CONDITIONS_NOT_CORRECT)] == t + Refused(n + 1)
  {
    assert Refused(n) + [Exchange(Session(2), CONDITIONS_NOT_CORRECT)] == Refused(n + 1);
  }

  /** From the bank swap to the end. */
  method SwapAndAfter(ready: Trace, image: seq<byte>, answers: nat -> Answer, crc: bv32, user: bool, retries: nat)
    returns (trace: Trace, code: int)
    requires retries < MAX_RETRIES && ready == ReadyToSwap(image, crc, retries) && Answered(ready, answers)
    ensures Answered(trace, answers)
    ensures CameToSwap(trace, code, image, crc, user, retries)
  {
    hide ReadyToSwap, Answered;
    var swapResult, ignored;
    trace, swapResult := Ask(ready, Swap, answers);
    if swapResult != 0 {
      if user {
        trace, ignored := Ask(trace, Rollback, answers);
        trace, ignored := Ask(trace, Reset, answers);
      }
      return trace, swapResult;
    }
    trace, ignored := Ask(trace, Reset, answers);
    if user {
      var nrc;
      trace, nrc := Ask(trace, Session(3), answers);
      if nrc != 0 {
        return trace, nrc;
      }
      trace, ignored := Ask(trace, Rollback, answers);
      trace, ignored := Ask(trace, Reset, answers);
    }
    return trace, 0;
  }

  // ---------------------------------------------------------------------------------------------
  // What every run keeps to.

  predicate Unswapped(request: Request) {
    !request.Swap? && !request.Rollback?
  }

  ghost predicate NoSwap(t: Trace) {
    forall i :: 0 <= i < |t| ==> Unswapped(t[i].request)
  }

  lemma NoSwapPrefix(t: Trace, n: nat, request: Request, code: int)
    requires NoSwap(t) && n <= |t| && Unswapped(request)
    ensures NoSwap(t[..n] + [Exchange(request, code)])
  {}

  lemma InstalledNoSwap(image: seq<byte>, crc: bv32)
    ensures NoSwap(Installed(image, crc))
  {}

  lemma WaitingNoSwap(image: seq<byte>, crc: bv32, retries: nat, code: int)
    ensures NoSwap(Installed(image, crc) + Refused(retries))
    ensures NoSwap(Installed(image, crc) + Refused(retries) + [Exchange(Session(2), code)])
  {
    InstalledNoSwap(image, crc);
    hide Installed;
  }

  /** A run without a swap, or one that came to it. */
  lemma SwappedOrNot(trace: Trace, code: int, image: seq<byte>, crc: bv32, user: bool, answers: nat -> Answer)
    requires IsRun(trace, code, image, crc, user, answers)
    ensures NoSwap(trace) || exists retries: nat :: CameToSwap(trace, code, image, crc, user, retries)
  {
    hide Installed, Refused, CameToSwap, Answered, NoSwap;
    InstalledNoSwap(image, crc);
    if StoppedInstalling(trace, code, image, crc) {
      UnswappedAt(image, crc, |trace| - 1);
      NoSwapPrefix(Installed(image, crc), |trace| - 1, Installed(image, crc)[|trace| - 1].request, code);
    } else if StoppedWaiting(trace, code, image, crc) {
      WaitingNoSwap(image, crc, |trace| - 1 - |Installed(image, crc)|, code);
    } else if TimedOut(trace, code, image, crc) {
      WaitingNoSwap(image, crc, MAX_RETRIES, code);
    }
  }

  lemma UnswappedAt(image: seq<byte>, crc: bv32, n: nat)
    requires n < |Installed(image, crc)|
    ensures Unswapped(Installed(image, crc)[n].request)
  {
    InstalledNoSwap(image, crc);
  }

  /** The bank swap is requested at most once, and only after the extended session, the download,
      every block of the image in order, the transfer exit, the verification with the checksum of the
      whole image, and finally the programming session have each been answered positively, the last
      after at most 119 answers that it is too early. A rollback is requested only after the swap. */
  lemma SwapSafety(trace: Trace, code: int, image: seq<byte>, crc: bv32, user: bool, answers: nat -> Answer)
    requires IsRun(trace, code, image, crc, user, answers)
    ensures forall k :: 0 <= k < |trace| && trace[k].request.Swap? ==>
              exists retries: nat :: retries < MAX_RETRIES && trace[..k] == ReadyToSwap(image, crc, retries)
                && WayOpen(answers, image, retries)
    ensures forall j, k :: 0 <= j < |trace| && 0 <= k < |trace| && trace[j].request.Swap? && trace[k].request.Swap? ==> j == k
    ensures forall k :: 0 <= k < |trace| && trace[k].request.Rollback? ==>
              exists j :: 0 <= j < k && trace[j].request.Swap?
  {
    hide ReadyToSwap, Installed, Answered, WayOpen;
    SwappedOrNot(trace, code, image, crc, user, answers);
    if !NoSwap(trace) {
      var retries: nat :| CameToSwap(trace, code, image, crc, user, retries);
      SwapOpensWay(trace, code, image, crc, user, answers, retries);
      ReadyNoSwap(image, crc, retries);
      SwapIsAlone(trace, ReadyToSwap(image, crc, retries), code, user);
    }
  }

  lemma ReadyNoSwap(image: seq<byte>, crc: bv32, retries: nat)
    ensures NoSwap(ReadyToSwap(image, crc, retries))
  {
    hide Installed, Refused;
    WaitingNoSwap(image, crc, retries, 0);
  }

  lemma SwapIsAlone(trace: Trace, ready: Trace, code: int, user: bool)
    requires |trace| > |ready| && trace[..|ready|] == ready && NoSwap(ready) && trace[|ready|].request == Swap
    requires Aftermath(trace[|ready| + 1..], code, trace[|ready|].code, user)
    ensures forall k :: 0 <= k < |trace| && trace[k].request.Swap? ==> k == |ready|
    ensures forall k :: 0 <= k < |trace| && trace[k].request.Rollback? ==> k > |ready|
  {}

  // ---------------------------------------------------------------------------------------------
  // The run in terms of the answers alone.

  /** Every request of the installation is answered positively. */
  ghost predicate InstallGranted(answers: nat -> Answer, image: seq<byte>) {
    forall k: nat :: k < BlockCount(image) + 4 ==> answers(k) == Says(0)
  }

  /** The first `n` requests for the programming session are told that it is too early. */
  ghost predicate TooEarly(answers: nat -> Answer, image: seq<byte>, n: nat) {
    forall k: nat :: BlockCount(image) + 4 <= k < BlockCount(image) + 4 + n ==> answers(k) == Says(CONDITIONS_NOT_CORRECT)
  }

  /** The installation succeeds and the programming session is granted after `retries` refusals. */
  ghost predicate WayOpen(answers: nat -> Answer, image: seq<byte>, retries: nat) {
    && InstallGranted(answers, image) && TooEarly(answers, image, retries)
    && answers(BlockCount(image) + 4 + retries) == Says(0)
  }

  lemma SwapOpensWay(trace: Trace, code: int, image: seq<byte>, crc: bv32, user: bool, answers: nat -> Answer, retries: nat)
    requires Answered(trace, answers) && CameToSwap(trace, code, image, crc, user, retries)
    ensures WayOpen(answers, image, retries)
  {
    hide Installed, Refused, Aftermath;
    var ready, n := ReadyToSwap(image, crc, retries), BlockCount(image) + 4;
    assert |ready| == n + retries + 1;
    forall k: nat | k < |ready|
      ensures answers(k) == Says(ready[k].code)
    {
      assert trace[..|ready|][k] == trace[k];
    }
    ReadyCodes(image, crc, retries);
  }

  lemma ReadyCodes(image: seq<byte>, crc: bv32, retries: nat)
    ensures var ready, n := ReadyToSwap(image, crc, retries), BlockCount(image) + 4;
            && |ready| == n + retries + 1
            && (forall k :: 0 <= k < n ==> ready[k].code == 0)
            && (forall k :: n <= k < n + retries ==> ready[k].code == CONDITIONS_NOT_CORRECT)
            && ready[n + retries].code == 0
  {
    hide Installed, Refused;
  }

  /** A run that stops early does so at an answer that does not lead on: not a yes, and once it waits for
      the safe state not a not-yet either. */
  lemma StopBlocksWay(trace: Trace, code: int, image: seq<byte>, crc: bv32, answers: nat -> Answer)
    requires Answered(trace, answers)
    requires StoppedInstalling(trace, code, image, crc) || StoppedWaiting(trace, code, image, crc)
    ensures 0 < |trace| <= BlockCount(image) + 4 + MAX_RETRIES
    ensures var k := |trace| - 1;
            && answers(k) != Says(0) && (k >= BlockCount(image) + 4 ==> answers(k) != Says(CONDITIONS_NOT_CORRECT))
            && forall j :: BlockCount(image) + 4 <= j < k ==> answers(j) == Says(CONDITIONS_NOT_CORRECT)
  {
    hide Installed;
    var k, n := |trace| - 1, BlockCount(image) + 4;
    assert trace[k].code == code;
    forall j | n <= j < k ensures answers(j) == Says(CONDITIONS_NOT_CORRECT) {
      assert trace[j] == Refused(k - n)[j - n];
    }
  }

  /** The bank swap is requested if and only if the answers open the way to it: every request of the
      installation answered positively, then fewer than 120 refusals as too early, then a yes. */
  lemma SwapIff(trace: Trace, code: int, image: seq<byte>, crc: bv32, user: bool, answers: nat -> Answer)
    requires IsRun(trace, code, image, crc, user, answers)
    ensures (exists k :: 0 <= k < |trace| && trace[k].request.Swap?) <==>
            (exists retries: nat :: retries < MAX_RETRIES && WayOpen(answers, image, retries))
  {
    hide Installed, ReadyToSwap, Aftermath, StoppedInstalling, StoppedWaiting;
    SwappedOrNot(trace, code, image, crc, user, answers);
    if retries: nat :| CameToSwap(trace, code, image, crc, user, retries) {
      SwapOpensWay(trace, code, image, crc, user, answers, retries);
      assert trace[|ReadyToSwap(image, crc, retries)|].request.Swap?;
    } else {
      forall retries: nat | retries < MAX_RETRIES
        ensures !WayOpen(answers, image, retries)
      {
        NoWayOpen(trace, code, image, crc, answers, retries);
      }
    }
  }

  lemma NoWayOpen(trace: Trace, code: int, image: seq<byte>, crc: bv32, answers: nat -> Answer, retries: nat)
    requires Answered(trace, answers) && retries < MAX_RETRIES
    requires StoppedInstalling(trace, code, image, crc) || StoppedWaiting(trace, code, image, crc) || TimedOut(trace, code, image, crc)
    ensures !WayOpen(answers, image, retries)
  {
    hide Installed, StoppedInstalling, StoppedWaiting;
    var at := BlockCount(image) + 4 + retries;
    if TimedOut(trace, code, image, crc) {
      assert trace[at] == Refused(MAX_RETRIES)[retries];
    } else {
      StopBlocksWay(trace, code, image, crc, answers);
      if |trace| - 1 > at {
        assert answers(at) == Says(CONDITIONS_NOT_CORRECT);
      }
    }
  }

  /** The run ends with 0x22 after 120 requests for the programming session, without a bank swap, if
      and only if the installation is granted and the first 120 of these are told it is too early. */
  lemma TimeoutIff(trace: Trace, code: int, image: seq<byte>, crc: bv32, user: bool, answers: nat -> Answer)
    requires IsRun(trace, code, image, crc, user, answers)
    ensures TimedOut(trace, code, image, crc) <==>
            InstallGranted(answers, image) && TooEarly(answers, image, MAX_RETRIES)
    ensures InstallGranted(answers, image) && TooEarly(answers, image, MAX_RETRIES) ==>
              code == CONDITIONS_NOT_CORRECT && Attempts(trace) == MAX_RETRIES && NoSwap(trace)
  {
    hide Installed, ReadyToSwap, Aftermath, StoppedInstalling, StoppedWaiting, Attempts, NoSwap, Refused;
    if TimedOut(trace, code, image, crc) {
      TimeoutAnswers(trace, image, crc, answers);
      InstalledAttempts(image, crc, MAX_RETRIES);
      WaitingNoSwap(image, crc, MAX_RETRIES, 0);
    } else if InstallGranted(answers, image) && TooEarly(answers, image, MAX_RETRIES) {
      if retries: nat :| CameToSwap(trace, code, image, crc, user, retries) {
        SwapOpensWay(trace, code, image, crc, user, answers, retries);
        TooEarlyAt(answers, image, retries);
        assert false;
      } else {
        StopBlocksWay(trace, code, image, crc, answers);
        assert false;
      }
    }
  }

  lemma TooEarlyAt(answers: nat -> Answer, image: seq<byte>, retries: nat)
    requires TooEarly(answers, image, MAX_RETRIES) && retries < MAX_RETRIES
    ensures !WayOpen(answers, image, retries)
  {
    assert answers(BlockCount(image) + 4 + retries) == Says(CONDITIONS_NOT_CORRECT);
  }

  lemma TimeoutAnswers(trace: Trace, image: seq<byte>, crc: bv32, answers: nat -> Answer)
    requires Answered(trace, answers) && trace == Installed(image, crc) + Refused(MAX_RETRIES)
    ensures InstallGranted(answers, image) && TooEarly(answers, image, MAX_RETRIES)
  {
    hide Installed;
    var n := BlockCount(image) + 4;
    assert forall k :: 0 <= k < n ==> trace[k] == Installed(image, crc)[k];
    forall k: nat | n <= k < n + MAX_RETRIES ensures answers(k) == Says(CONDITIONS_NOT_CORRECT) {
      assert trace[k] == Refused(MAX_RETRIES)[k - n];
    }
  }

  /** With nothing but positive answers everything is sent: the whole installation, one programming
      session, the swap, and the reset; and without a wish to roll back the run succeeds there. */
  lemma AllPositive(trace: Trace, code: int, image: seq<byte>, crc: bv32, user: bool, answers: nat -> Answer)
    requires IsRun(trace, code, image, crc, user, answers)
    requires forall k: nat :: answers(k) == Says(0)
    ensures code == 0
    ensures ReadyToSwap(image, crc, 0) + [Exchange(Swap, 0), Exchange(Reset, 0)] <= trace
    ensures !user ==> trace == ReadyToSwap(image, crc, 0) + [Exchange(Swap, 0), Exchange(Reset, 0)]
  {
    hide Installed, StoppedInstalling, StoppedWaiting, ReadyToSwap;
    assert WayOpen(answers, image, 0);
    if retries: nat :| CameToSwap(trace, code, image, crc, user, retries) {
      SwapOpensWay(trace, code, image, crc, user, answers, retries);
      NoRetries(answers, image, retries);
      SwapThenReset(trace, ReadyToSwap(image, crc, 0), code, user);
    } else {
      NoWayOpen(trace, code, image, crc, answers, 0);
      assert false;
    }
  }

  lemma NoRetries(answers: nat -> Answer, image: seq<byte>, retries: nat)
    requires WayOpen(answers, image, retries) && answers(BlockCount(image) + 4) == Says(0)
    ensures retries == 0
  {}

  lemma SwapThenReset(trace: Trace, ready: Trace, code: int, user: bool)
    requires |trace| > |ready| && trace[..|ready|] == ready && trace[|ready|].request == Swap
    requires forall k :: 0 <= k < |trace| ==> trace[k].code == 0
    requires Aftermath(trace[|ready| + 1..], code, trace[|ready|].code, user)
    ensures code == 0 && ready + [Exchange(Swap, 0), Exchange(Reset, 0)] <= trace
    ensures !user ==> trace == ready + [Exchange(Swap, 0), Exchange(Reset, 0)]
  {
    var tail := trace[|ready| + 1..];
    assert trace == ready + [trace[|ready|]] + tail;
    assert tail[0] == Exchange(Reset, 0);
  }

  // ---------------------------------------------------------------------------------------------
  // The answers decide everything.

  /** What the master sends and hopes for before the swap, if it is told to wait to the last. */
  function Script(image: seq<byte>, crc: bv32): Trace {
    Installed(image, crc) + Refused(MAX_RETRIES)
  }

  /** Along the script to its end, or to a request of it whose answer is another than the script's. */
  ghost predicate Scripted(trace: Trace, code: int, script: Trace) {
    && 0 < |trace| <= |script|
    && var n := |trace| - 1;
       && trace[..n] == script[..n] && trace[n].request == script[n].request && code == trace[n].code
       && (trace[n].code == script[n].code ==> |trace| == |script|)
  }

  lemma StoppedIsScripted(trace: Trace, code: int, image: seq<byte>, crc: bv32)
    requires StoppedInstalling(trace, code, image, crc)
    ensures Scripted(trace, code, Script(image, crc))
  {
    hide Installed;
    var n := |trace| - 1;
    assert Script(image, crc)[..n] == Installed(image, crc)[..n];
    assert Script(image, crc)[n] == Installed(image, crc)[n];
    InstalledCodeAt(image, crc, n);
  }

  lemma InstalledCodeAt(image: seq<byte>, crc: bv32, n: nat)
    requires n < |Installed(image, crc)|
    ensures Installed(image, crc)[n].code == 0
  {}

  lemma WaitingIsScripted(trace: Trace, code: int, image: seq<byte>, crc: bv32)
    requires StoppedWaiting(trace, code, image, crc) || TimedOut(trace, code, image, crc)
    ensures Scripted(trace, code, Script(image, crc))
  {
    hide Installed;
    var script, k := Script(image, crc), |Installed(image, crc)|;
    var n := |trace| - 1;
    assert script[n] == Refused(MAX_RETRIES)[n - k];
    if StoppedWaiting(trace, code, image, crc) {
      assert Refused(MAX_RETRIES)[..n - k] == Refused(n - k);
      assert script[..n] == Installed(image, crc) + Refused(MAX_RETRIES)[..n - k];
    }
  }

  lemma SameScripted(t: Trace, c: int, u: Trace, d: int, script: Trace, answers: nat -> Answer)
    requires Answered(t, answers) && Answered(u, answers) && Scripted(t, c, script) && Scripted(u, d, script)
    ensures |u| <= |t|
    ensures |u| == |t| ==> t == u && c == d
  {
    var n := |t| - 1;
    if |t| < |u| {
      assert false;
    } else if |t| == |u| {
      assert t == t[..n] + [t[n]] && u == u[..n] + [u[n]];
    }
  }

  lemma SameSwapped(t: Trace, c: int, u: Trace, d: int, ready: Trace, user: bool, answers: nat -> Answer)
    requires Answered(t, answers) && Answered(u, answers)
    requires |t| > |ready| && t[..|ready|] == ready && t[|ready|].request == Swap
    requires |u| > |ready| && u[..|ready|] == ready && u[|ready|].request == Swap
    requires Aftermath(t[|ready| + 1..], c, t[|ready|].code, user)
    requires Aftermath(u[|ready| + 1..], d, u[|ready|].code, user)
    ensures t == u && c == d
  {
    var n := |ready|;
    var v, w := t[n + 1..], u[n + 1..];
    assert t[n] == u[n];
    forall i | 0 <= i < |v| && i < |w| && v[i].request == w[i].request
      ensures v[i] == w[i]
    {
      assert v[i] == t[n + 1 + i] && w[i] == u[n + 1 + i];
    }
    hide Answered, Aftermath;
    SameTail(v, c, w, d, t[n].code, user);
    assert t == ready + [t[n]] + v && u == ready + [u[n]] + w;
  }

  lemma SameTail(v: Trace, c: int, w: Trace, d: int, swapCode: int, user: bool)
    requires Aftermath(v, c, swapCode, user) && Aftermath(w, d, swapCode, user)
    requires forall i :: 0 <= i < |v| && i < |w| && v[i].request == w[i].request ==> v[i] == w[i]
    ensures v == w && c == d
  {
    if v != [] && w != [] {
      assert v[0] == w[0];
      if |v| > 1 && |w| > 1 {
        assert v[1] == w[1];
      }
    }
  }

  /** The image, the user's wish and the answers determine the run: every request sent and its code, the
      number of requests, and the result. */
  lemma RunIsDetermined(t: Trace, c: int, u: Trace, d: int, image: seq<byte>, crc: bv32, user: bool, answers: nat -> Answer)
    requires IsRun(t, c, image, crc, user, answers) && IsRun(u, d, image, crc, user, answers)
    ensures t == u && c == d
  {
    hide Installed, ReadyToSwap, Aftermath, StoppedInstalling, StoppedWaiting, TimedOut, Answered, WayOpen, Scripted, Script;
    if q: nat :| CameToSwap(t, c, image, crc, user, q) {
      SwapOpensWay(t, c, image, crc, user, answers, q);
      if r: nat :| CameToSwap(u, d, image, crc, user, r) {
        SwapOpensWay(u, d, image, crc, user, answers, r);
        OneWay(answers, image, q, r);
        OneWay(answers, image, r, q);
        SameSwapped(t, c, u, d, ReadyToSwap(image, crc, q), user, answers);
      } else {
        NoWayOpen(u, d, image, crc, answers, q);
        assert false;
      }
    } else {
      ScriptedRun(t, c, image, crc, user, answers);
      if r: nat :| CameToSwap(u, d, image, crc, user, r) {
        SwapOpensWay(u, d, image, crc, user, answers, r);
        NoWayOpen(t, c, image, crc, answers, r);
        assert false;
      } else {
        ScriptedRun(u, d, image, crc, user, answers);
        SameScripted(t, c, u, d, Script(image, crc), answers);
        SameScripted(u, d, t, c, Script(image, crc), answers);
      }
    }
  }

  lemma ScriptedRun(t: Trace, c: int, image: seq<byte>, crc: bv32, user: bool, answers: nat -> Answer)
    requires IsRun(t, c, image, crc, user, answers) && !exists q: nat :: CameToSwap(t, c, image, crc, user, q)
    ensures Scripted(t, c, Script(image, crc))
    ensures Answered(t, answers)
    ensures StoppedInstalling(t, c, image, crc) || StoppedWaiting(t, c, image, crc) || TimedOut(t, c, image, crc)
  {
    hide Installed, StoppedInstalling, StoppedWaiting, TimedOut, CameToSwap, Answered, Scripted, Script;
    if StoppedInstalling(t, c, image, crc) {
      StoppedIsScripted(t, c, image, crc);
    } else {
      WaitingIsScripted(t, c, image, crc);
    }
  }

  lemma OneWay(answers: nat -> Answer, image: seq<byte>, q: nat, r: nat)
    requires WayOpen(answers, image, q) && WayOpen(answers, image, r)
    ensures q <= r
  {
    if r < q {
      assert false;
    }
  }

  // ---------------------------------------------------------------------------------------------
  // Counting.

  /** Requests for the programming session. */
  function Attempts(t: Trace): nat {
    if t == [] then 0 else Attempts(t[..|t| - 1]) + if t[|t| - 1].request == Session(2) then 1 else 0
  }

  lemma {:induction false} AttemptsConcat(s: Trace, t: Trace)
    ensures Attempts(s + t) == Attempts(s) + Attempts(t)
    decreases |t|
  {
    if t == [] {
      assert s + t == s;
    } else {
      assert (s + t)[..|s + t| - 1] == s + t[..|t| - 1];
      AttemptsConcat(s, t[..|t| - 1]);
    }
  }

  lemma {:induction false} NoAttempts(t: Trace)
    requires forall i :: 0 <= i < |t| ==> t[i].request != Session(2)
    ensures Attempts(t) == 0
    decreases |t|
  {
    if t != [] {
      NoAttempts(t[..|t| - 1]);
    }
  }

  lemma {:induction false} RefusedAttempts(n: nat)
    ensures Attempts(Refused(n)) == n
    decreases n
  {
    if n > 0 {
      assert Refused(n)[..n - 1] == Refused(n - 1);
      RefusedAttempts(n - 1);
    }
  }

  ghost predicate Sessionless(t: Trace) {
    forall i :: 0 <= i < |t| ==> t[i].request != Session(2)
  }

  lemma InstalledSessionless(image: seq<byte>, crc: bv32)
    ensures Sessionless(Installed(image, crc))
  {}

  lemma InstalledAttempts(image: seq<byte>, crc: bv32, retries: nat)
    ensures Attempts(Installed(image, crc) + Refused(retries)) == retries
  {
    hide Installed, Refused, Attempts;
    InstalledSessionless(image, crc);
    NoAttempts(Installed(image, crc));
    RefusedAttempts(retries);
    AttemptsConcat(Installed(image, crc), Refused(retries));
  }

  lemma OneAttempt(e: Exchange)
    ensures Attempts([e]) == if e.request == Session(2) then 1 else 0
  {}

  lemma SnocAttempts(t: Trace, e: Exchange)
    ensures Attempts(t + [e]) <= Attempts(t) + 1
    ensures e.request != Session(2) ==> Attempts(t + [e]) == Attempts(t)
  {
    hide Attempts;
    AttemptsConcat(t, [e]);
    OneAttempt(e);
  }

  /** At most 120 requests for the programming session are ever sent. */
  lemma AtMost120Attempts(trace: Trace, code: int, image: seq<byte>, crc: bv32, user: bool, answers: nat -> Answer)
    requires IsRun(trace, code, image, crc, user, answers)
    ensures Attempts(trace) <= MAX_RETRIES
  {
    hide Installed, Refused, Attempts, Aftermath, Answered;
    var n := |Installed(image, crc)|;
    if StoppedInstalling(trace, code, image, crc) {
      InstalledPrefixAttempts(image, crc, |trace| - 1);
      SnocAttempts(Installed(image, crc)[..|trace| - 1], Exchange(Installed(image, crc)[|trace| - 1].request, code));
    } else if StoppedWaiting(trace, code, image, crc) {
      InstalledAttempts(image, crc, |trace| - 1 - n);
      SnocAttempts(Installed(image, crc) + Refused(|trace| - 1 - n), Exchange(Session(2), code));
    } else if TimedOut(trace, code, image, crc) {
      InstalledAttempts(image, crc, MAX_RETRIES);
    } else {
      var retries: nat :| CameToSwap(trace, code, image, crc, user, retries);
      InstalledAttempts(image, crc, retries);
      SnocAttempts(Installed(image, crc) + Refused(retries), Exchange(Session(2), 0));
      AftermathAttempts(trace, ReadyToSwap(image, crc, retries), code, user);
    }
  }

  lemma InstalledPrefixAttempts(image: seq<byte>, crc: bv32, n: nat)
    requires n <= |Installed(image, crc)|
    ensures Attempts(Installed(image, crc)[..n]) == 0
  {
    hide Installed, Attempts;
    InstalledSessionless(image, crc);
    NoAttempts(Installed(image, crc)[..n]);
  }

  lemma AftermathAttempts(trace: Trace, ready: Trace, code: int, user: bool)
    requires |trace| > |ready| && trace[..|ready|] == ready && trace[|ready|].request == Swap
    requires Aftermath(trace[|ready| + 1..], code, trace[|ready|].code, user)
    ensures Attempts(trace) == Attempts(ready)
  {
    hide Attempts;
    var tail := trace[|ready| + 1..];
    assert trace == ready + ([trace[|ready|]] + tail);
    NoAttempts([trace[|ready|]] + tail);
    AttemptsConcat(ready, [trace[|ready|]] + tail);
  }

  function DataOf(t: Trace): seq<byte> {
    if t == [] then []
    else DataOf(t[..|t| - 1]) + if t[|t| - 1].request.Transfer? then t[|t| - 1].request.data else []
  }

  /** The blocks are the image: in order, without gap or overlap. */
  lemma {:induction false} BlocksAreTheImage(image: seq<byte>, n: nat)
    requires n <= BlockCount(image)
    ensures DataOf(Blocks(image, n)) == image[..if n * BLOCK <= |image| then n * BLOCK else |image|]
    ensures n == BlockCount(image) ==> DataOf(Blocks(image, n)) == image
    decreases n
  {
    assert image[..|image|] == image;
    if n > 0 {
      BlocksAreTheImage(image, n - 1);
      LastBlock(image, n);
    }
  }

  lemma LastBlock(image: seq<byte>, n: nat)
    requires 1 <= n <= BlockCount(image)
    ensures Blocks(image, n)[..n - 1] == Blocks(image, n - 1)
    ensures var from, data := (n - 1) * BLOCK, BlockAt(image, n - 1).data;
            && Blocks(image, n)[n - 1].request == BlockAt(image, n - 1)
            && from + |data| == (if n * BLOCK <= |image| then n * BLOCK else |image|)
            && image[..from] + data == image[..from + |data|]
  {}
}
