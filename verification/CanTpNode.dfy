/** CanTp of one node: the channel tables, the lookups over them, and the entry points that CanIf
    and PduR call. Each entry point does to the channel it finds what CanTpModel says and leaves
    every other channel as it was. */
module CanTpNode {

  import opened Bytes
  import opened CanTpRuntime
  import M = CanTpModel

  class CanTp {
    const txConfig: seq<M.TxConfig>
    const rxConfig: seq<M.RxConfig>
    const tx: seq<TxRuntime>
    const rx: seq<RxRuntime>
    const can: CanDriver

    // The calls of PduR_CanTpTxConfirmation and PduR_CanTpRxIndication, in order.
    var confirmations: seq<M.Confirmation>
    var indications: seq<M.Delivery>

    ghost function TxFootprint(): set<object> {
      set i: nat, o: object | i < |tx| && o in tx[i].Repr :: o
    }

    ghost function RxFootprint(): set<object> {
      set i: nat, o: object | i < |rx| && o in rx[i].Repr :: o
    }

    ghost predicate Separate() {
      && |txConfig| == |tx| && |rxConfig| == |rx|
      && (forall i, j :: 0 <= i < j < |tx| ==> tx[i].Repr !! tx[j].Repr)
      && (forall i, j :: 0 <= i < j < |rx| ==> rx[i].Repr !! rx[j].Repr)
      && (forall i, j :: 0 <= i < |tx| && 0 <= j < |rx| ==> tx[i].Repr !! rx[j].Repr)
      && (forall i :: 0 <= i < |tx| ==> tx[i] in tx[i].Repr)
      && (forall i :: 0 <= i < |rx| ==> rx[i] in rx[i].Repr)
      && (forall i :: 0 <= i < |tx| ==> can !in tx[i].Repr && this !in tx[i].Repr)
      && (forall i :: 0 <= i < |rx| ==> can !in rx[i].Repr && this !in rx[i].Repr)
    }

    /** A busy channel holds its own row of the table. */
    static predicate HoldsConfig(t: M.Tx, config: M.TxConfig) {
      t.state.TxIdle? || t.config == config
    }

    ghost predicate Valid()
      reads *
    {
      && Separate() && can.Consistent()
      && (forall i :: 0 <= i < |tx| ==> tx[i].Valid() && HoldsConfig(tx[i].Abs(), txConfig[i]))
      && (forall i :: 0 <= i < |rx| ==> rx[i].Valid(rxConfig[i]))
    }

    /** The transmit channels as values. */
    ghost function TxStates(): (s: seq<M.Tx>)
      requires Valid()
      reads *
      ensures |s| == |tx| == |txConfig| && forall i :: 0 <= i < |tx| ==> s[i] == tx[i].Abs()
      ensures forall i :: 0 <= i < |s| ==> M.TxValid(s[i])
    {
      seq(|tx|, i requires 0 <= i < |tx| && tx[i].Valid()
            reads if 0 <= i < |tx| then {tx[i]} + tx[i].Repr else {} => tx[i].Abs())
    }

    /** The receive channels as values. */
    ghost function RxStates(): (s: seq<M.Rx>)
      requires Valid()
      reads *
      ensures |s| == |rx| && forall i :: 0 <= i < |rx| ==> s[i] == rx[i].Abs(rxConfig[i])
      ensures |s| == |rxConfig| && forall i :: 0 <= i < |s| ==> M.RxConfigValid(rxConfig[i]) && M.RxValid(s[i], rxConfig[i])
    {
      seq(|rx|, i requires 0 <= i < |rx| && rx[i].Valid(rxConfig[i])
            reads if 0 <= i < |rx| then {rx[i]} + rx[i].Repr else {} => rx[i].Abs(rxConfig[i]))
    }

    lemma Apart()
      requires Valid()
      ensures can !in TxFootprint() && can !in RxFootprint() && this !in TxFootprint() && this !in RxFootprint()
    {}

    lemma BusyUnderOwnRow(i: nat)
      requires Valid() && i < |tx|
      ensures HoldsConfig(TxStates()[i], txConfig[i])
    {}

    static predicate Waits(t: M.Tx, expected: nat) {
      t.state == M.WaitFc && t.config.expectedRxNsduId == expected
    }

    constructor (txConfig: seq<M.TxConfig>, rxConfig: seq<M.RxConfig>, tx: seq<TxRuntime>, rx: seq<RxRuntime>, can: CanDriver)
      ensures this.txConfig == txConfig && this.rxConfig == rxConfig && this.tx == tx && this.rx == rx && this.can == can
      ensures confirmations == [] && indications == []
    {
      this.txConfig, this.rxConfig, this.tx, this.rx, this.can := txConfig, rxConfig, tx, rx, can;
      confirmations, indications := [], [];
    }

    /** The tables of CanTp_Cfg.c pair transmit and receive channels: the flow control that a transmit
        channel waits for is the one its own peer sends. */
    ghost predicate Paired() {
      && |txConfig| == |rxConfig|
      && forall i, j :: 0 <= i < |txConfig| && 0 <= j < |rxConfig| ==>
           (txConfig[i].expectedRxNsduId == rxConfig[j].canTpRxNsduId <==> i == j)
    }

    /** CanTp_FindTxNsduConfig and CanTp_GetTxRuntimeByTxNsduId: the first channel with this handle. */
    method FindTxByNsduId(id: nat) returns (found: Option<nat>)
      requires Separate()
      ensures found.Some? ==> found.value < |tx| && txConfig[found.value].canTpTxNsduId == id
                              && forall j :: 0 <= j < found.value ==> txConfig[j].canTpTxNsduId != id
      ensures found.None? ==> forall j :: 0 <= j < |tx| ==> txConfig[j].canTpTxNsduId != id
    {
      for i := 0 to |txConfig|
        invariant forall j :: 0 <= j < i ==> txConfig[j].canTpTxNsduId != id
      {
        if txConfig[i].canTpTxNsduId == id {
          return Some(i);
        }
      }
      return None;
    }

    /** CanTp_GetTxRuntimeByTxNpduId. */
    method FindTxByNpduId(id: nat) returns (found: Option<nat>)
      requires Separate()
      ensures found.Some? ==> found.value < |tx| && txConfig[found.value].canIfTxNpduId == id
                              && forall j :: 0 <= j < found.value ==> txConfig[j].canIfTxNpduId != id
      ensures found.None? ==> forall j :: 0 <= j < |tx| ==> txConfig[j].canIfTxNpduId != id
    {
      for i := 0 to |txConfig|
        invariant forall j :: 0 <= j < i ==> txConfig[j].canIfTxNpduId != id
      {
        if txConfig[i].canIfTxNpduId == id {
          return Some(i);
        }
      }
      return None;
    }

    /** CanTp_FindRxNsduConfigByNpduId. */
    method FindRxByNpduId(id: nat) returns (found: Option<nat>)
      requires Separate()
      ensures found.Some? ==> found.value < |rx| && rxConfig[found.value].canIfRxNpduId == id
                              && forall j :: 0 <= j < found.value ==> rxConfig[j].canIfRxNpduId != id
      ensures found.None? ==> forall j :: 0 <= j < |rx| ==> rxConfig[j].canIfRxNpduId != id
    {
      for i := 0 to |rxConfig|
        invariant forall j :: 0 <= j < i ==> rxConfig[j].canIfRxNpduId != id
      {
        if rxConfig[i].canIfRxNpduId == id {
          return Some(i);
        }
      }
      return None;
    }

    /** CanTp_FindTxRuntimeWaitingFc. */
    method FindTxWaitingFc(expected: nat) returns (found: Option<nat>)
      requires Valid()
      ensures Valid() && TxStates() == old(TxStates())
      ensures found.Some? ==> found.value < |tx| && Waits(TxStates()[found.value], expected)
                              && forall j :: 0 <= j < found.value ==> !Waits(TxStates()[j], expected)
      ensures found.None? ==> forall j :: 0 <= j < |tx| ==> !Waits(TxStates()[j], expected)
    {
      for i := 0 to |tx|
        invariant forall j :: 0 <= j < i ==> !Waits(TxStates()[j], expected)
      {
        if tx[i].state == M.WaitFc && tx[i].config.expectedRxNsduId == expected {
          return Some(i);
        }
      }
      return None;
    }

    /** CanTp_Transmit: the channel named by the handle does what the model says; with an unknown
        handle the request is refused; every other channel is untouched. */
    method Transmit(id: nat, sdu: seq<byte>) returns (ok: bool, ghost channel: Option<nat>)
      requires Valid()
      modifies TxFootprint(), can`isPending, can`swPduHandle, can`bus
      ensures Valid()
      ensures channel.None? ==>
                && !ok && TxStates() == old(TxStates())
                && can.bus == old(can.bus) && can.isPending == old(can.isPending)
                && forall j :: 0 <= j < |tx| ==> txConfig[j].canTpTxNsduId != id
      ensures channel.Some? ==>
                && channel.value < |tx| && txConfig[channel.value].canTpTxNsduId == id
                && var r := M.Transmit(old(TxStates())[channel.value], txConfig[channel.value], sdu, old(can.Accepts()));
                   && TxStates() == old(TxStates())[channel.value := r.tx] && ok == r.ok
                   && can.bus == old(can.bus) + Queued(r.request, old(can.Accepts()))
                   && (can.isPending <==> old(can.isPending) || (r.request.Some? && old(can.Accepts())))
      ensures RxStates() == old(RxStates())
    {
      hide M.Transmit, M.TxValid, M.RxValid, TxRuntime.Abs, TxRuntime.Valid, RxRuntime.Abs, RxRuntime.Valid;
      var found := FindTxByNsduId(id);
      channel := found;
      if found.None? {
        return false, channel;
      }
      var i := found.value;
      ok := tx[i].Transmit(txConfig[i], sdu, can);
    }

    method ConfirmChannel(i: nat, ok: bool) returns (confirmed: Option<M.Confirmation>)
      requires Valid() && i < |tx|
      modifies TxFootprint()
      ensures Valid() && RxStates() == old(RxStates()) && confirmations == old(confirmations)
      ensures var r := M.Confirm(old(TxStates())[i], ok);
              TxStates() == old(TxStates())[i := r.tx] && confirmed == r.confirmed
    {
      hide M.Confirm, M.TxValid, M.RxValid, M.RxConfigValid, TxRuntime.Abs, TxRuntime.Valid, RxRuntime.Abs, RxRuntime.Valid;
      confirmed := tx[i].TxConfirmation(ok);
    }

    method ReleaseChannel(i: nat, data: M.Frame, length: nat) returns (confirmed: Option<M.Confirmation>)
      requires Valid() && i < |tx|
      modifies TxFootprint()
      ensures Valid() && RxStates() == old(RxStates()) && confirmations == old(confirmations)
      ensures var r := M.FlowControl(old(TxStates())[i], data, length);
              TxStates() == old(TxStates())[i := r.tx] && confirmed == r.confirmed
    {
      hide M.FlowControl, M.TxValid, M.RxValid, M.RxConfigValid, TxRuntime.Abs, TxRuntime.Valid, RxRuntime.Abs, RxRuntime.Valid;
      confirmed := tx[i].HandleFlowControl(data, length);
    }

    /** PduR_CanTpTxConfirmation, if there is something to confirm. */
    method Report(confirmed: Option<M.Confirmation>)
      requires Valid()
      modifies this`confirmations
      ensures Valid() && TxStates() == old(TxStates()) && RxStates() == old(RxStates())
      ensures confirmations == old(confirmations) + if confirmed.Some? then [confirmed.value] else []
    {
      hide M.TxValid, M.RxValid, M.RxConfigValid, TxRuntime.Abs, TxRuntime.Valid, RxRuntime.Abs, RxRuntime.Valid;
      if confirmed.Some? {
        confirmations := confirmations + [confirmed.value];
      }
    }

    /** CanTp_HandleFlowControl: only the channel found to wait for this receive handle moves. */
    method HandleFlowControl(rxNsduId: nat, data: M.Frame, length: nat) returns (ghost channel: Option<nat>)
      requires Valid()
      modifies this`confirmations, TxFootprint()
      ensures Valid()
      ensures channel.None? ==>
                && confirmations == old(confirmations) && TxStates() == old(TxStates())
                && forall j :: 0 <= j < |tx| ==> !Waits(old(TxStates())[j], rxNsduId)
      ensures channel.Some? ==>
                && channel.value < |tx| && Waits(old(TxStates())[channel.value], rxNsduId)
                && (forall j :: 0 <= j < channel.value ==> !Waits(old(TxStates())[j], rxNsduId))
                && var r := M.FlowControl(old(TxStates())[channel.value], data, length);
                   && TxStates() == old(TxStates())[channel.value := r.tx]
                   && confirmations == old(confirmations) + if r.confirmed.Some? then [r.confirmed.value] else []
      ensures RxStates() == old(RxStates())
    {
      hide M.FlowControl, M.TxValid, M.RxValid, M.RxConfigValid, TxRuntime.Abs, TxRuntime.Valid, RxRuntime.Abs, RxRuntime.Valid, TxStates, RxStates, Waits;
      var waiting := FindTxWaitingFc(rxNsduId);
      channel := waiting;
      if waiting.Some? {
        var confirmed := ReleaseChannel(waiting.value, data, length);
        Report(confirmed);
      }
    }

    /** Every frame type but flow control, on one receive channel. */
    method HandleData(i: nat, data: M.Frame, length: nat)
      requires Valid() && i < |rx| && length > 0
      modifies this`indications, rx[i].Repr, can`isPending, can`swPduHandle, can`bus
      ensures Valid()
      ensures var r := M.Receive(old(RxStates())[i], rxConfig[i], data, length);
              && RxStates() == old(RxStates())[i := r.rx]
              && indications == old(indications) + (if r.delivered.Some? then [r.delivered.value] else [])
              && can.bus == old(can.bus) + Queued(rx[i].FcRequest(rxConfig[i], r.reply), old(can.Accepts()))
              && (can.isPending <==> old(can.isPending) || (r.reply.Some? && old(can.Accepts())))
      ensures TxStates() == old(TxStates())
    {
      hide M.Receive, M.TxValid, M.RxValid, TxRuntime.Abs, TxRuntime.Valid, RxRuntime.Abs, RxRuntime.Valid;
      var delivered := rx[i].Receive(rxConfig[i], data, length, can);
      if delivered.Some? {
        indications := indications + [delivered.value];
      }
    }

    /** CanTp_RxIndication. A frame with an unknown handle does nothing. A flow control frame moves at
        most one channel, one whose sender waits for this very handle, and no receive channel. Any
        other frame moves only the receive channel it is addressed to. */
    method RxIndication(npduId: nat, data: M.Frame, length: nat)
      returns (ghost channel: Option<nat>, ghost released: Option<nat>)
      requires Valid()
      modifies this, TxFootprint(), RxFootprint(), can`isPending, can`swPduHandle, can`bus
      ensures Valid()
      ensures channel.Some? ==> channel.value < |rx| && rxConfig[channel.value].canIfRxNpduId == npduId && length > 0
      ensures channel.None? ==>
                && released.None? && indications == old(indications) && RxStates() == old(RxStates())
                && confirmations == old(confirmations) && can.bus == old(can.bus) && can.isPending == old(can.isPending)
                && (length == 0 || forall j :: 0 <= j < |rx| ==> rxConfig[j].canIfRxNpduId != npduId)
      ensures channel.Some? && M.PciType(data) == M.PCI_FC ==>
                && RxStates() == old(RxStates()) && indications == old(indications)
                && can.bus == old(can.bus) && can.isPending == old(can.isPending)
      ensures channel.Some? && M.PciType(data) == M.PCI_FC && released.None? ==>
                && confirmations == old(confirmations)
                && forall j :: 0 <= j < |tx| ==> !Waits(old(TxStates())[j], rxConfig[channel.value].canTpRxNsduId)
      ensures released.Some? ==>
                && channel.Some? && M.PciType(data) == M.PCI_FC
                && released.value < |tx| && Waits(old(TxStates())[released.value], rxConfig[channel.value].canTpRxNsduId)
                && (forall j :: 0 <= j < released.value ==> !Waits(old(TxStates())[j], rxConfig[channel.value].canTpRxNsduId))
                && var r := M.FlowControl(old(TxStates())[released.value], data, length);
                   && TxStates() == old(TxStates())[released.value := r.tx]
                   && confirmations == old(confirmations) + if r.confirmed.Some? then [r.confirmed.value] else []
      ensures Paired() && released.Some? ==> released == channel
      ensures channel.Some? && M.PciType(data) != M.PCI_FC ==>
                var i := channel.value;
                var r := M.Receive(old(RxStates())[i], rxConfig[i], data, length);
                && RxStates() == old(RxStates())[i := r.rx] && confirmations == old(confirmations)
                && indications == old(indications) + (if r.delivered.Some? then [r.delivered.value] else [])
                && can.bus == old(can.bus) + Queued(rx[i].FcRequest(rxConfig[i], r.reply), old(can.Accepts()))
                && (can.isPending <==> old(can.isPending) || (r.reply.Some? && old(can.Accepts())))
      ensures released.None? ==> TxStates() == old(TxStates())
    {
      hide M.Receive, M.FlowControl, M.TxValid, M.RxValid, TxRuntime.Abs, TxRuntime.Valid, RxRuntime.Abs, RxRuntime.Valid;
      channel, released := None, None;
      if length == 0 {
        return;
      }
      var found := FindRxByNpduId(npduId);
      if found.None? {
        return;
      }
      channel := found;
      if M.PciType(data) == M.PCI_FC {
        ghost var id := rxConfig[found.value].canTpRxNsduId;
        assert forall j :: 0 <= j < |tx| ==> Waits(TxStates()[j], id) == Waits(old(TxStates())[j], id);
        released := HandleFlowControl(rxConfig[found.value].canTpRxNsduId, data, length);
      } else {
        HandleData(found.value, data, length);
      }
    }

    /** CanTp_TxConfirmation. */
    method TxConfirmation(npduId: nat, ok: bool) returns (ghost channel: Option<nat>)
      requires Valid()
      modifies this`confirmations, TxFootprint()
      ensures Valid()
      ensures channel.None? ==>
                && confirmations == old(confirmations) && TxStates() == old(TxStates())
                && forall j :: 0 <= j < |tx| ==> txConfig[j].canIfTxNpduId != npduId
      ensures channel.Some? ==>
                && channel.value < |tx| && txConfig[channel.value].canIfTxNpduId == npduId
                && var r := M.Confirm(old(TxStates())[channel.value], ok);
                   && TxStates() == old(TxStates())[channel.value := r.tx]
                   && confirmations == old(confirmations) + if r.confirmed.Some? then [r.confirmed.value] else []
      ensures RxStates() == old(RxStates())
    {
      hide M.Confirm, M.TxValid, M.RxValid, M.RxConfigValid, TxRuntime.Abs, TxRuntime.Valid, RxRuntime.Abs, RxRuntime.Valid, TxStates, RxStates;
      var found := FindTxByNpduId(npduId);
      channel := found;
      if found.Some? {
        var confirmed := ConfirmChannel(found.value, ok);
        Report(confirmed);
      }
    }

    /** A channel whose turn it is, with a frame to send: the one that gets its frame out. */
    static ghost predicate Sends(txs: seq<M.Tx>, i: int, free: bool)
      requires forall j :: 0 <= j < |txs| ==> M.TxValid(txs[j])
    {
      0 <= i < |txs| && M.TurnOf(txs, i, free) && M.Poll(txs[i], true).request.Some?
    }

    /** CanTp_MainFunction: every sending channel is polled once, in table order; since the driver
        holds one frame, the first that has one to send gets it out, and no other does. */
    method MainFunction()
      requires Valid()
      modifies TxFootprint(), can`isPending, can`swPduHandle, can`bus
      ensures Valid()
      ensures forall i :: 0 <= i < |tx| ==>
                TxStates()[i] == M.Poll(old(TxStates())[i], M.TurnOf(old(TxStates()), i, old(can.Accepts()))).tx
      ensures forall i :: Sends(old(TxStates()), i, old(can.Accepts())) ==>
                can.isPending && can.bus == old(can.bus) + Queued(M.Poll(old(TxStates())[i], true).request, true)
      ensures (forall i :: !Sends(old(TxStates()), i, old(can.Accepts()))) ==>
                can.isPending == old(can.isPending) && can.bus == old(can.bus)
      ensures RxStates() == old(RxStates())
    {
      hide M.Poll, M.TurnOf, M.TxValid, M.RxValid, M.RxConfigValid, Valid, TxFootprint, TxStates, RxStates, TxRuntime.Abs, RxRuntime.Abs;
      ghost var before, free, received := TxStates(), can.Accepts(), RxStates();
      M.TurnStart(before, free);
      for k := 0 to |tx|
        invariant Valid()
        invariant forall i :: 0 <= i < k ==> TxStates()[i] == M.Poll(before[i], M.TurnOf(before, i, free)).tx
        invariant forall i :: k <= i < |tx| ==> TxStates()[i] == before[i]
        invariant can.Accepts() == M.TurnOf(before, k, free)
        invariant forall i :: i < k && Sends(before, i, free) ==>
                    can.isPending && can.bus == old(can.bus) + Queued(M.Poll(before[i], true).request, true)
        invariant (forall i :: i < k ==> !Sends(before, i, free)) ==>
                    can.isPending == old(can.isPending) && can.bus == old(can.bus)
        invariant RxStates() == received
      {
        M.TurnPasses(before, k, free);
        assert Sends(before, k, free) <==> can.Accepts() && M.Poll(before[k], true).request.Some?;
        PollOne(k);
      }
    }

    method PollOne(k: nat)
      requires Valid() && k < |tx|
      modifies TxFootprint(), can`isPending, can`swPduHandle, can`bus
      ensures Valid()
      ensures var r := M.Poll(old(TxStates())[k], old(can.Accepts()));
              && TxStates() == old(TxStates())[k := r.tx]
              && can.bus == old(can.bus) + Queued(r.request, old(can.Accepts()))
              && (r.request.None? <==> M.Poll(old(TxStates())[k], true).request.None?)
              && can.Accepts() == (old(can.Accepts()) && r.request.None?)
              && (can.isPending <==> old(can.isPending) || (r.request.Some? && old(can.Accepts())))
              && RxStates() == old(RxStates())
    {
      hide M.SendNext, M.TxValid, M.RxValid, RxRuntime.Abs, RxRuntime.Valid;
      ghost var before := TxStates();
      M.SameRequest(before[k], can.Accepts());
      if tx[k].state == M.SendCf {
        var _, _ := tx[k].SendNextConsecutiveFrame(can);
      }
      assert forall i :: 0 <= i < |tx| && i != k ==> tx[i].Abs() == before[i];
    }
  }
}
