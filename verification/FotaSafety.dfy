/** What holds of FotaHandler over every run: any order of resets, downloads, chunk writes, polls,
    cyclic writes, verifications, activations and rollbacks, with any answers from the flash. */
module FotaSafety {

  import opened Bytes
  import opened FotaModel
  import Crc32
  import S = SotaModel

  datatype Event =
    | ResetEvent
    | StartEvent(imageLength: nat, bankOk: bool, eraseOk: bool)
    | WriteEvent(op: OpStatus, data: seq<byte>, counter: byte)
    | MainEvent(failing: set<nat>)
    | ExitEvent(crc: bv32, exitFailing: set<nat>)
    | ActivateEvent(swapOk: bool)
    | RollbackEvent(rollbackOk: bool)
    | ProvisionEvent(provisionOk: bool)

  /** What the diagnostic server and the flash core have seen since the context was last reset: the
      bytes of all chunks taken, the bytes of all chunks written, how many were written, how many
      DCM_WRITE_OK answers were given, and the checksum of the successful verification. */
  datatype Log = Log(accepted: seq<byte>, written: seq<byte>, writes: nat, oks: nat, verifiedCrc: Option<bv32>)

  const NO_LOG := Log([], [], 0, 0, None)

  datatype Logged = Logged(fota: Fota, log: Log)

  function Next(f: Fota, log: Log, event: Event): (r: Logged)
    requires FotaValid(f)
    ensures FotaValid(r.fota)
  {
    match event
    case ResetEvent => Logged(RESET, NO_LOG)
    case StartEvent(n, bankOk, eraseOk) =>
      Logged(StartDownload(f, n, bankOk, eraseOk).fota, if n == 0 then log else NO_LOG)
    case WriteEvent(op, data, counter) =>
      var r := ProcessWrite(f, op, data, counter);
      var base := if f.initialized then log else NO_LOG;
      Logged(r.fota, base.(
        accepted := base.accepted + (if !f.chunk.Received? && r.fota.chunk.Received? then data else []),
        oks := base.oks + (if r.ret.WriteOk? then 1 else 0)))
    case MainEvent(failing) =>
      var g := CyclicMain(f, failing);
      Logged(g, if f.chunk.Received? && g.chunk.Done? then
                  log.(written := log.written + f.buffer[..f.length], writes := log.writes + 1)
                else
                  log)
    case ExitEvent(crc, failing) =>
      var r := TransferExit(f, crc, failing);
      Logged(r.fota, if !f.verified && r.fota.verified then log.(verifiedCrc := Some(crc)) else log)
    case ActivateEvent(ok) => Logged(Activate(f, ok).fota, log)
    case RollbackEvent(ok) => Logged(Rollback(f, ok).fota, log)
    case ProvisionEvent(ok) => Logged(Provision(f, ok).fota, if f.initialized then log else NO_LOG)
  }

  /** Bytes taken over and not yet passed to the core. */
  function InHand(f: Fota): seq<byte>
    requires FotaValid(f)
  {
    if f.chunk.Received? then f.buffer[..f.length] else []
  }

  /** The image in the inactive bank is complete and its checksum is `crc`. */
  predicate HoldsImage(c: S.Core, crc: bv32) {
    && |c.received| == c.imageLength && c.flash == S.PagePadded(c.received)
    && Crc32.Checksum(S.Octets(c.received)) == Crc32.BitsOfWord(crc)
  }

  ghost predicate Consistent(f: Fota, log: Log)
    requires FotaValid(f)
  {
    && !f.chunk.Processing?
    && (!f.initialized ==> !f.downloadStarted)
    && (!f.downloadStarted ==> f.chunk.ChunkIdle? && log == NO_LOG && !f.verified && f.total == 0)
    && (f.chunk.ChunkError? ==> log.written <= log.accepted)
    && (!f.chunk.ChunkError? ==> log.accepted == log.written + InHand(f))
    && f.total == |log.written| % 0x1_0000_0000
    && log.oks + (if f.chunk.Done? then 1 else 0) <= log.writes
    && (!f.chunk.ChunkError? ==> log.oks + (if f.chunk.Done? then 1 else 0) == log.writes)
    && (f.downloadStarted ==>
          && f.core.imageLength == f.expectedLength
          && log.written <= f.core.received <= log.accepted
          && (!f.chunk.ChunkError? ==> f.core.received == log.written))
    && (f.verified <==> log.verifiedCrc.Some?)
    && (f.verified ==> f.downloadStarted && !f.core.state.Receiving? && HoldsImage(f.core, log.verifiedCrc.value))
    && (f.activationArmed ==> f.verified)
  }

  lemma ResetConsistent()
    ensures FotaValid(RESET) && Consistent(RESET, NO_LOG)
    ensures FotaValid(POWER_UP) && Consistent(POWER_UP, NO_LOG)
  {}

  lemma StartKeeps(f: Fota, log: Log, n: nat, bankOk: bool, eraseOk: bool)
    requires FotaValid(f) && Consistent(f, log)
    ensures var r := Next(f, log, StartEvent(n, bankOk, eraseOk)); Consistent(r.fota, r.log)
  {
    hide HoldsImage, Crc32.Checksum, Crc32.BitsOfWord, S.PagePadded, S.WholePages;
  }

  lemma WriteKeeps(f: Fota, log: Log, op: OpStatus, data: seq<byte>, counter: byte)
    requires FotaValid(f) && Consistent(f, log)
    ensures var r := Next(f, log, WriteEvent(op, data, counter)); Consistent(r.fota, r.log)
  {
    hide HoldsImage, Overwrite;
    var r := Next(f, log, WriteEvent(op, data, counter));
    if f.downloadStarted && op.Initial? && 0 < |data| <= MAX_CHUNK && f.chunk.ChunkIdle? {
      OverwriteStart(f.buffer, data, |data|);
      assert InHand(r.fota) == data;
      assert log.written + [] == log.written;
    }
  }

  lemma MainKeeps(f: Fota, log: Log, failing: set<nat>)
    requires FotaValid(f) && Consistent(f, log)
    ensures var r := Next(f, log, MainEvent(failing)); Consistent(r.fota, r.log)
  {
    hide HoldsImage, S.WriteChunk;
    if f.chunk.Received? {
      var data := f.buffer[..f.length];
      var r := Next(f, log, MainEvent(failing));
      WriteOutcome(f.core, data, failing);
      if f.verified {
        SameImage(f.core, r.fota.core, log.verifiedCrc.value);
      }
      if r.fota.chunk.Done? {
        assert |log.written + data| == |log.written| + f.length;
      }
    }
  }

  lemma SameImage(c: S.Core, d: S.Core, crc: bv32)
    requires c.imageLength == d.imageLength && c.received == d.received && c.flash == d.flash
    ensures HoldsImage(c, crc) <==> HoldsImage(d, crc)
  {}

  /** What a write does to the core, as far as the bytes are concerned. */
  lemma WriteOutcome(c: S.Core, data: seq<byte>, failing: set<nat>)
    requires S.CoreValid(c) && |data| > 0
    ensures var o := S.WriteChunk(c, data, failing);
            && o.core.imageLength == c.imageLength
            && (o.result == S.Ok ==> c.state.Receiving? && o.core.received == c.received + data)
            && (o.result != S.Ok ==> !o.core.state.Receiving? && c.received <= o.core.received <= c.received + data)
            && (!c.state.Receiving? ==> o.result != S.Ok && o.core.received == c.received && o.core.flash == c.flash)
  {}

  lemma ExitKeeps(f: Fota, log: Log, crc: bv32, failing: set<nat>)
    requires FotaValid(f) && Consistent(f, log)
    ensures var r := Next(f, log, ExitEvent(crc, failing)); Consistent(r.fota, r.log)
  {
    hide Crc32.Checksum, Crc32.BitsOfWord, S.PagePadded, S.Octets, S.Finalize, S.CoreValid;
    S.FinalizeOkIff(f.core, crc, failing);
    FinalizeBytes(f.core, crc, failing);
  }

  lemma FinalizeBytes(c: S.Core, crc: bv32, failing: set<nat>)
    requires S.CoreValid(c)
    ensures var o := S.Finalize(c, crc, failing);
            && o.core.imageLength == c.imageLength && o.core.received == c.received
            && !o.core.state.Receiving?
            && (o.result == S.Ok ==> o.core.flash == S.PagePadded(c.received))
  {}

  lemma NextKeepsConsistent(f: Fota, log: Log, event: Event)
    requires FotaValid(f) && Consistent(f, log)
    ensures var r := Next(f, log, event); Consistent(r.fota, r.log)
  {
    match event
    case StartEvent(n, bankOk, eraseOk) => StartKeeps(f, log, n, bankOk, eraseOk);
    case WriteEvent(op, data, counter) => WriteKeeps(f, log, op, data, counter);
    case MainEvent(failing) => MainKeeps(f, log, failing);
    case ExitEvent(crc, failing) => ExitKeeps(f, log, crc, failing);
    case _ =>
      hide HoldsImage;
  }

  function Run(f: Fota, log: Log, events: seq<Event>): (r: Logged)
    requires FotaValid(f)
    ensures FotaValid(r.fota)
    decreases |events|
  {
    if events == [] then
      Logged(f, log)
    else
      var r := Next(f, log, events[0]);
      Run(r.fota, r.log, events[1..])
  }

  lemma {:induction false} RunKeepsConsistent(f: Fota, log: Log, events: seq<Event>)
    requires FotaValid(f) && Consistent(f, log)
    ensures var r := Run(f, log, events); Consistent(r.fota, r.log)
    decreases |events|
  {
    hide Next, Consistent, FotaValid;
    if events != [] {
      NextKeepsConsistent(f, log, events[0]);
      var r := Next(f, log, events[0]);
      RunKeepsConsistent(r.fota, r.log, events[1..]);
    }
  }

  // ---------------------------------------------------------------------------------------------
  // From power-up, after any run.

  /** Exactly once: what has been written, followed by the chunk still in hand, is exactly what has
      been accepted (a prefix of it after an error); the running total is its length modulo 2^32;
      every written chunk has been answered with one DCM_WRITE_OK, but for one not polled yet; and
      the state PROCESSING is never seen between two calls. */
  lemma ExactlyOnce(events: seq<Event>)
    ensures var r := Run(POWER_UP, NO_LOG, events);
            && !r.fota.chunk.Processing?
            && (!r.fota.chunk.ChunkError? ==> r.log.accepted == r.log.written + InHand(r.fota))
            && (r.fota.chunk.ChunkError? ==> r.log.written <= r.log.accepted)
            && (|r.log.written| < 0x1_0000_0000 ==> r.fota.total == |r.log.written|)
            && (!r.fota.chunk.ChunkError? ==> r.log.oks + (if r.fota.chunk.Done? then 1 else 0) == r.log.writes)
            && (r.fota.downloadStarted && !r.fota.chunk.ChunkError? ==> r.fota.core.received == r.log.written)
  {
    hide Run;
    ResetConsistent();
    RunKeepsConsistent(POWER_UP, NO_LOG, events);
  }

  /** Activation safety: whenever an activation is armed, a download was started and verified since
      the last reset of the context, and the inactive bank still holds an image of the announced
      length, made of the first bytes accepted, whose checksum is the one that verification named. */
  lemma ActivationSafety(events: seq<Event>)
    ensures var r := Run(POWER_UP, NO_LOG, events);
            r.fota.activationArmed ==>
              && r.fota.verified && r.fota.downloadStarted && r.log.verifiedCrc.Some?
              && r.fota.core.imageLength == r.fota.expectedLength
              && r.fota.core.received <= r.log.accepted
              && HoldsImage(r.fota.core, r.log.verifiedCrc.value)
  {
    hide Run, HoldsImage;
    ResetConsistent();
    RunKeepsConsistent(POWER_UP, NO_LOG, events);
  }

  predicate ClearsContext(event: Event) {
    event.ResetEvent? || (event.StartEvent? && event.imageLength > 0)
  }

  lemma ErrorStep(f: Fota, log: Log, event: Event)
    requires FotaValid(f) && Consistent(f, log) && f.chunk.ChunkError? && !ClearsContext(event)
    ensures var r := Next(f, log, event);
            r.fota.chunk.ChunkError? && r.fota.core.received == f.core.received && r.log.written == log.written
  {
    hide HoldsImage, S.CoreValid;
    if event.ExitEvent? {
      FinalizeBytes(f.core, event.crc, event.exitFailing);
    }
  }

  /** A chunk error lasts until the context is reset or a new download of non-zero length begins, and
      until then nothing more is written and every chunk or poll is answered DCM_WRITE_FAILED. */
  lemma {:induction false} ErrorPersists(f: Fota, log: Log, events: seq<Event>)
    requires FotaValid(f) && Consistent(f, log) && f.chunk.ChunkError?
    requires forall i :: 0 <= i < |events| ==> !ClearsContext(events[i])
    ensures var r := Run(f, log, events);
            && r.fota.chunk.ChunkError? && r.fota.core.received == f.core.received && r.log.written == log.written
            && forall op, data, counter :: ProcessWrite(r.fota, op, data, counter).ret == WriteFailed
    decreases |events|
  {
    hide Next, Consistent, FotaValid, HoldsImage;
    if events == [] {
      ErrorAnswers(f, log);
    } else {
      ErrorStep(f, log, events[0]);
      NextKeepsConsistent(f, log, events[0]);
      var r := Next(f, log, events[0]);
      ErrorPersists(r.fota, r.log, events[1..]);
    }
  }

  lemma ErrorAnswers(f: Fota, log: Log)
    requires FotaValid(f) && Consistent(f, log) && f.chunk.ChunkError?
    ensures forall op, data, counter :: ProcessWrite(f, op, data, counter).ret == WriteFailed
  {}
}
