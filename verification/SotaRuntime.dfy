/** The flash update core as it runs: a 32-byte page buffer that chunks of any size are collected
    in, page by page programming, and the checksum read back from flash. */
module SotaRuntime {

  import opened Bytes
  import opened SotaModel
  import Crc32

  class SotaUpdate {
    var state: CoreState
    var imageLength: nat
    var receivedBytes: nat
    var programmedBytes: nat
    const pageBuffer: array<byte>
    var currentPageFill: nat

    // The inactive bank: the bytes programmed at its start, and the page offsets that will fail.
    var flash: seq<byte>
    var failing: set<nat>

    ghost var received: seq<byte>
    ghost const Repr: set<object>

    ghost predicate Shape()
      reads this, Repr
    {
      && Repr == {this, pageBuffer} && pageBuffer.Length == PAGE
      && |received| == receivedBytes && |flash| == programmedBytes
    }

    /** The page buffer holds what has been received and not yet programmed. */
    ghost predicate Filling()
      requires Shape()
      reads this, Repr
    {
      && 1 <= imageLength <= BANK_SIZE && receivedBytes <= imageLength
      && programmedBytes % PAGE == 0 && receivedBytes == programmedBytes + currentPageFill
      && currentPageFill <= PAGE
      && flash == received[..programmedBytes]
      && pageBuffer[..currentPageFill] == received[programmedBytes..]
    }

    ghost predicate Valid()
      reads this, Repr
    {
      && Shape()
      && (state.Receiving? ==> Filling() && currentPageFill < PAGE)
      && (state.Verified? ==> receivedBytes == imageLength && flash == PagePadded(received))
      && !state.Programming? && !state.Erasing? && !state.Verifying?
    }

    ghost function Abs(): (c: Core)
      requires Valid()
      reads this, Repr
      ensures CoreValid(c)
    {
      FillIsRemainder();
      Core(state, imageLength, received, flash)
    }

    lemma FillIsRemainder()
      ensures Valid() && state.Receiving? ==>
                programmedBytes == WholePages(receivedBytes) && currentPageFill == receivedBytes % PAGE
    {}

    constructor ()
      ensures Valid() && fresh(Repr) && Abs() == CORE_RESET && failing == {}
    {
      state, imageLength, receivedBytes, programmedBytes, currentPageFill := Idle, 0, 0, 0, 0;
      flash, failing, received := [], {}, [];
      pageBuffer := new byte[PAGE](_ => 0xFF);
      Repr := {this, pageBuffer};
    }

    /** SotaUpdate_Reset. */
    method Reset()
      requires Valid()
      modifies Repr
      ensures failing == old(failing)
      ensures Valid() && Abs() == CORE_RESET && currentPageFill == 0
    {
      imageLength, receivedBytes, programmedBytes, currentPageFill := 0, 0, 0, 0;
      Fill(pageBuffer, 0xFF);
      state := Idle;
      flash, received := [], [];
    }

    method SetError(result: CoreResult) returns (r: CoreResult)
      requires Shape()
      modifies this`state
      ensures Valid() && state == Failed && r == result
    {
      state := Failed;
      return result;
    }

    /** SotaUpdate_Begin. */
    method Begin(length: nat, bankOk: bool, eraseOk: bool) returns (result: CoreResult)
      requires Valid()
      modifies Repr
      ensures failing == old(failing)
      ensures Valid()
      ensures var o := SotaModel.Begin(length, bankOk, eraseOk); Abs() == o.core && result == o.result
    {
      Reset();
      imageLength := length;
      if length == 0 || length > BANK_SIZE {
        result := SetError(InvalidLength);
        return;
      }
      if !bankOk {
        result := SetError(InvalidBank);
        return;
      }
      if !eraseOk {
        result := SetError(EraseFailed);
        return;
      }
      state := Receiving;
      return Ok;
    }

    /** SotaUpdate_ProgramCurrentPage; the guard against writing past the padded image is dead. */
    method ProgramCurrentPage() returns (result: CoreResult)
      requires Shape() && 1 <= imageLength <= BANK_SIZE && currentPageFill == PAGE
      requires programmedBytes % PAGE == 0 && programmedBytes < imageLength
      modifies this`state, this`programmedBytes, this`currentPageFill, this`flash, pageBuffer
      ensures Shape()
      ensures result == if programmedBytes == old(programmedBytes) then ProgramFailed else Ok
      ensures result == Ok <==> old(programmedBytes) !in failing
      ensures result == Ok ==> state == Receiving && flash == old(flash + pageBuffer[..]) && currentPageFill == 0
      ensures result != Ok ==> state == Failed && flash == old(flash) && currentPageFill == PAGE
    {
      var padded := (imageLength + PAGE - 1) / PAGE * PAGE;
      if programmedBytes > padded - PAGE {
        assert false;
      }
      state := Programming;
      if programmedBytes in failing {
        state := Failed;
        return ProgramFailed;
      }
      flash := flash + pageBuffer[..];
      programmedBytes := programmedBytes + PAGE;
      currentPageFill := 0;
      Fill(pageBuffer, 0xFF);
      state := Receiving;
      return Ok;
    }

    /** SotaUpdate_WriteChunk. */
    method WriteChunk(data: seq<byte>) returns (result: CoreResult)
      requires Valid()
      modifies Repr
      ensures failing == old(failing)
      ensures Valid()
      ensures var o := SotaModel.WriteChunk(old(Abs()), data, old(failing)); Abs() == o.core && result == o.result
    {
      if state != Receiving && state != Programming {
        result := SetError(StateError);
        return;
      }
      if |data| == 0 {
        return Ok;
      }
      if receivedBytes > imageLength || |data| > imageLength - receivedBytes {
        result := SetError(InvalidLength);
        return;
      }
      result := Absorb(data);
      FillIsRemainder();
    }

    /** The loop of SotaUpdate_WriteChunk. */
    method Absorb(data: seq<byte>) returns (result: CoreResult)
      requires Valid() && state.Receiving? && receivedBytes + |data| <= imageLength
      modifies this`state, this`receivedBytes, this`programmedBytes, this`currentPageFill, this`flash, this`received, pageBuffer
      ensures Valid()
      ensures var all, bad := old(received) + data, FirstBad(old(programmedBytes), |old(received) + data|, failing);
              && (bad.None? ==> result == Ok && state.Receiving? && received == all)
              && (bad.Some? ==>
                    && result == ProgramFailed && state.Failed?
                    && flash == all[..bad.value] && received == all[..bad.value + PAGE])
    {
      hide FirstBad, PagePadded, Filling;
      ghost var start := programmedBytes;
      ghost var all := received + data;
      var copied := 0;
      while copied < |data|
        invariant copied <= |data| && Shape() && state == Receiving && Filling() && currentPageFill < PAGE
        invariant received == old(received) + data[..copied]
        invariant FirstBad(start, |all|, failing) == FirstBad(programmedBytes, |all|, failing)
      {
        var available := PAGE - currentPageFill;
        var n := |data| - copied;
        if n > available {
          n := available;
        }
        Split(old(received), data, copied, n);
        result := TakePart(data[copied..copied + n], all);
        if result != Ok {
          return;
        }
        copied := copied + n;
      }
      assert data[..copied] == data;
      NothingLeft(|all|);
      return Ok;
    }

    static lemma Split(before: seq<byte>, data: seq<byte>, copied: nat, n: nat)
      requires copied + n <= |data|
      ensures data[..copied + n] == data[..copied] + data[copied..copied + n]
      ensures before + data[..copied] + data[copied..copied + n] == before + data[..copied + n] <= before + data
    {}

    lemma NothingLeft(to: nat)
      requires Shape() && Filling() && currentPageFill < PAGE && to == receivedBytes
      ensures FirstBad(programmedBytes, to, failing) == None
    {}

    /** One turn of the loop: collect a part, and program the page if that fills it. */
    method TakePart(part: seq<byte>, ghost all: seq<byte>) returns (result: CoreResult)
      requires Shape() && Filling() && state == Receiving && currentPageFill + |part| <= PAGE
      requires receivedBytes + |part| <= imageLength && received + part <= all
      modifies this`state, this`receivedBytes, this`programmedBytes, this`currentPageFill, this`flash, this`received, pageBuffer
      ensures Shape()
      ensures result == Ok ==>
                && state == Receiving && Filling() && currentPageFill < PAGE && received == old(received) + part
                && FirstBad(old(programmedBytes), |all|, failing) == FirstBad(programmedBytes, |all|, failing)
      ensures result != Ok ==>
                && Valid() && state == Failed && result == ProgramFailed
                && FirstBad(old(programmedBytes), |all|, failing) == Some(old(programmedBytes))
                && flash == all[..old(programmedBytes)] && received == all[..old(programmedBytes) + PAGE]
    {
      hide FirstBad, PagePadded, Filling;
      CopyToPage(part);
      if currentPageFill == PAGE {
        result := ProgramPageOf(all);
        return;
      }
      assert currentPageFill < PAGE;
      return Ok;
    }

    /** The memcpy into the page buffer and the counters that go with it. */
    method CopyToPage(part: seq<byte>)
      requires Shape() && Filling() && currentPageFill + |part| <= PAGE && receivedBytes + |part| <= imageLength
      modifies this`receivedBytes, this`currentPageFill, this`received, pageBuffer
      ensures Shape() && Filling()
      ensures received == old(received) + part && currentPageFill == old(currentPageFill) + |part|
    {
      ghost var before := pageBuffer[..currentPageFill];
      Copy(pageBuffer, currentPageFill, part);
      assert pageBuffer[..currentPageFill + |part|] == before + part;
      currentPageFill := currentPageFill + |part|;
      receivedBytes := receivedBytes + |part|;
      received := received + part;
    }

    /** A full page in the middle of a chunk whose end will complete the bytes `all`. */
    method ProgramPageOf(ghost all: seq<byte>) returns (result: CoreResult)
      requires Shape() && Filling() && currentPageFill == PAGE && received <= all
      modifies this`state, this`programmedBytes, this`currentPageFill, this`flash, pageBuffer
      ensures Shape()
      ensures result == Ok ==>
                && state == Receiving && Filling() && currentPageFill == 0
                && FirstBad(old(programmedBytes), |all|, failing) == FirstBad(programmedBytes, |all|, failing)
      ensures result != Ok ==>
                && Valid() && state == Failed && result == ProgramFailed
                && FirstBad(old(programmedBytes), |all|, failing) == Some(old(programmedBytes))
                && flash == all[..old(programmedBytes)] && received == all[..old(programmedBytes) + PAGE]
    {
      assert pageBuffer[..] == pageBuffer[..currentPageFill];
      result := ProgramCurrentPage();
    }

    /** SotaUpdate_FinalizeAndVerify: pads and programs the last page, then reads the image back. */
    method FinalizeAndVerify(expectedCrc: bv32) returns (result: CoreResult)
      requires Valid()
      modifies Repr
      ensures failing == old(failing)
      ensures Valid()
      ensures var o := Finalize(old(Abs()), expectedCrc, old(failing)); Abs() == o.core && result == o.result
    {
      hide Crc32.Checksum, Crc32.BitsOfWord, Crc32.Fold, Crc32.Plus, Crc32.BitsOf, Octets;
      if state != Receiving && state != Programming {
        result := SetError(StateError);
        return;
      }
      if receivedBytes != imageLength {
        result := SetError(InvalidLength);
        return;
      }
      FillIsRemainder();
      if currentPageFill > 0 {
        PadPage();
        result := ProgramCurrentPage();
        if result != Ok {
          return;
        }
      }
      assert flash == PagePadded(received);
      var actual := Crc32.TableCrc32(0, Octets(flash[..imageLength]));
      if actual != expectedCrc {
        CrcWordsDiffer(actual, expectedCrc);
        result := SetError(CrcFailed);
        return;
      }
      state := Verified;
      return Ok;
    }

    static lemma CrcWordsDiffer(v: bv32, w: bv32)
      requires v != w
      ensures Crc32.BitsOfWord(v) != Crc32.BitsOfWord(w)
    {
      if Crc32.BitsOfWord(v) == Crc32.BitsOfWord(w) {
        Crc32.WordFromBits(v, w);
      }
    }

    /** Fills the rest of the last page with erased bytes. */
    method PadPage()
      requires Shape() && Filling() && 0 < currentPageFill < PAGE
      modifies this`currentPageFill, pageBuffer
      ensures Shape() && currentPageFill == PAGE
      ensures flash + pageBuffer[..] == PagePadded(received)
    {
      ghost var fill := currentPageFill;
      ghost var kept := pageBuffer[..fill];
      while currentPageFill < PAGE
        invariant fill <= currentPageFill <= PAGE && Shape()
        invariant pageBuffer[..fill] == kept
        invariant forall k :: fill <= k < currentPageFill ==> pageBuffer[k] == 0xFF
      {
        pageBuffer[currentPageFill] := 0xFF;
        currentPageFill := currentPageFill + 1;
      }
      assert fill == |received| % PAGE;
      assert pageBuffer[..] == kept + Repeat(0xFF, PAGE - fill);
      assert received == flash + kept;
    }
  }
}
