/** The PDU router of the gateway: its table of routing paths and the search over it. */
module Pdur {

  import opened Bytes

  datatype Module = Dcm | CanTp | DoipTp
  datatype Event = RxIndication | TxConfirmation | TxRequest

  datatype Path = Path(source: Module, sourcePduId: nat, dest: Module, destPduId: nat, event: Event)

  /** PduR_RoutingPathConfig: requests from DoIP to the two CanTp channels, responses back. */
  const PATHS: seq<Path> := [
    Path(DoipTp, 0, CanTp, 0, RxIndication),
    Path(DoipTp, 1, CanTp, 1, RxIndication),
    Path(CanTp, 0, DoipTp, 0, RxIndication),
    Path(CanTp, 1, DoipTp, 1, RxIndication)]

  predicate Matches(p: Path, source: Module, pduId: nat, event: Event) {
    p.source == source && p.sourcePduId == pduId && p.event == event
  }

  function FirstPath(paths: seq<Path>, source: Module, pduId: nat, event: Event): Option<Path> {
    if paths == [] then None
    else if Matches(paths[0], source, pduId, event) then Some(paths[0])
    else FirstPath(paths[1..], source, pduId, event)
  }

  /** PduR_FindRoutingPath: the first path of the table that matches. */
  method FindRoutingPath(paths: seq<Path>, source: Module, pduId: nat, event: Event) returns (found: Option<Path>)
    ensures found == FirstPath(paths, source, pduId, event)
  {
    for i := 0 to |paths|
      invariant FirstPath(paths, source, pduId, event) == FirstPath(paths[i..], source, pduId, event)
    {
      assert paths[i..][1..] == paths[i + 1..];
      if paths[i].source == source && paths[i].sourcePduId == pduId && paths[i].event == event {
        return Some(paths[i]);
      }
    }
    return None;
  }

  /** The path an indication takes does not depend on the order of the table: no two of the four
      configured paths have the same source, so any path that matches is the one found. */
  lemma AnyMatchIsTheOne(i: nat, source: Module, pduId: nat, event: Event)
    requires i < |PATHS| && Matches(PATHS[i], source, pduId, event)
    ensures FirstPath(PATHS, source, pduId, event) == Some(PATHS[i])
  {}

  /** A PDU passed on to another module. */
  datatype Routed = Routed(dest: Module, pduId: nat, data: seq<byte>)

  /** PduR_DoIPTpRxIndication and PduR_CanTpRxIndication: once initialized, forward the PDU unchanged
      on the path found, and do nothing without one. */
  method RouteRxIndication(initialized: bool, source: Module, pduId: nat, data: seq<byte>) returns (routed: Option<Routed>)
    ensures routed.Some? <==> initialized && FirstPath(PATHS, source, pduId, RxIndication).Some?
    ensures routed.Some? ==>
              var path := FirstPath(PATHS, source, pduId, RxIndication).value;
              routed.value == Routed(path.dest, path.destPduId, data)
  {
    if !initialized {
      return None;
    }
    var path := FindRoutingPath(PATHS, source, pduId, RxIndication);
    if path.None? {
      return None;
    }
    return Some(Routed(path.value.dest, path.value.destPduId, data));
  }
}
