# Verification of the firmware update path

A Dafny model of how a firmware image travels from the Raspberry Pi master through the gateway to the
Motion and Lighting ECUs, and proofs of what this path keeps. `dafny verify dfyconfig.toml` checks
everything.

The code that works in place is modelled in place, as classes with the source's fields and byte
buffers. Each of their methods is proved to do exactly what a transition function on values does, and
the properties that span many calls, several layers or whole runs are proved about those functions.

| files | what they model |
|---|---|
| `Bytes` | octets, big-endian words, block copies |
| `CanTpModel`, `CanTpRuntime`, `CanTpNode`, `TransportRefinement`, `TransportRun` | CanTp: transition functions of one channel, the channel objects with their buffers and the driver's one pending frame, the tables and entry points of a node, that nodes refine the network model, and whole runs of the three nodes |
| `CanInterface` | CanIf and the receive path of the CAN driver: handles, identifiers, length codes, padding |
| `Segmentation`, `Reassembly`, `SenderRuns` | segmentation and reassembly as inverses, reassembly of arbitrary frames, runs of one sender or one receiver |
| `TransportLink`, `TransportSystem`, `TransportSafety`, `TransportProgress`, `TransportCompletion`, `TransportExchange` | the network of three nodes and four channel ends: the two-party invariant, the shared transmit slot, confirmations, exactly when a transfer stalls, that every fair schedule finishes it otherwise, and leaves the network at rest |
| `DoipModel`, `DoipCuts`, `DoipRuntime` | DoIP framing of a TCP stream, how much its cut into indications matters, routing activation, diagnostic messages, responses |
| `Pdur` | the routing table and its search |
| `MasterPackets`, `EndToEnd` | the master's request packing and response check; requests and responses all the way |
| `Crc32`, `Crc32Table` | the checksum as a shift register, the master's and the target's programs for it, and the target's table |
| `SotaModel`, `SotaRuntime` | the flash update core with its page buffer |
| `FotaModel`, `FotaRuntime`, `FotaSafety` | FotaHandler: the hand-shake between server and cyclic writer, over every run |
| `ImageTransfer`, `ImageDelivery` | the master's blocks against the target's server, writer and core, under every schedule; and the same blocks through everything in between |
| `DcmModel`, `DcmRuntime`, `DcmTrace` | the gateway's diagnostic server and the order of events it allows |
| `OtaMaster` | the master's whole command sequence against any answers |

What the environment decides is a parameter, or a field that only the environment sets: whether the CAN hardware takes a
frame, which flash pages fail to program, whether the bank lookup, the erase and the swap entry
succeed, what the sockets deliver, when each cyclic function runs, and what the user answers. In
`ImageDelivery` the network comes to rest before the target works on what it was sent, and before the
master sends the next block.

Where the code departs from what one would expect, the model follows the code and a lemma says what
comes of it:

* a single frame refused by the driver leaves its channel waiting, until a confirmation of a flow control
  frame is reported as its success (`ParkedUntilOwnFlowControl`, `RefusedSingleFrameIsConfirmed`; the exact
  bookkeeping is `ConfirmationBalance`);
* a clear-to-send refused by the driver, or read before the block it follows is confirmed, stalls the
  transfer for good, and nothing else does (`StallsIffCtsLost`, `StalledForEver`, `StallIsReachable`,
  `MissIsReachable`); the deployed block size is 0, for which only the first can happen;
* a single frame received during a reception is written over the beginning of its buffer
  (`CorruptedIffOverlaid`, `SingleFrameCorrupts`);
* the length of a consecutive frame is not checked (`PaddingIgnoredIff`, `ShortConsecutiveFramePadded`);
* after a header error DoIP drops whatever else is in its buffer, so that how TCP cuts the stream can decide
  what is handled (`CutNeverMattersIff`, `CutMattersAfterError`, `CutMattersForWrap`);
* a declared DoIP length of 0xFFFFFFF8 or more makes the message length wrap below the header length: the
  code handles a message of almost 2^32 bytes and goes on inside its header, for 0xFFFFFFF8 for ever
  (`WrappedLength`, `ProcessScans`);
* the master takes a negative response with response code 0 for a positive one (`ForwardedResponse`);
* the master writes the DoIP length as 16 bits, so the packing is the encoding of the request exactly when
  addresses, service identifier and payload together are shorter than 2^16 bytes (`PacketIsEncoded`);
* a second diagnostic request before the main function runs replaces the first in the gateway and is
  ignored in the target (`DcmServer.RxIndication`, `FirstArrivalWins`).

docs/README.md calls the stack a simplified implementation; the frame layout is that of sections 9.6.2
to 9.6.5 of ISO 15765-2:2016 with the project's own 12-bit length in single and first frames.

## Model

| member | source | states |
|---|---|---|
| TransportSafety.DeliveredIsPrefixOfAccepted | Ecu_Gateway_TC375_LK/Basics/ComStack/CanTp/CanTp.c:179-879 | after every run of the network from the start, under every interleaving and every refusal by the driver, what an end delivers is a prefix of what its peer accepted, and all of it once nothing is on the way or left to send |
| TransportSystem.StepKeepsLinked | Ecu_Gateway_TC375_LK/Basics/ComStack/CanTp/CanTp.c:249-1001 | every step (request, main function, driver confirmation, frame read) keeps the two-party invariant on all four directions at once: the frames on the way and still to be sent complete the receiver to exactly the accepted SDUs |
| TransportSystem.InitialLinked | Ecu_Gateway_TC375_LK/Basics/ComStack/CanTp/CanTp.c:165-177 | the invariant holds after initialisation |
| TransportLink.SendKeepsLink | Ecu_Gateway_TC375_LK/Basics/ComStack/CanTp/CanTp.c:179-278 | a request, accepted or refused, keeps the invariant of its direction |
| TransportLink.PollKeepsLink | Ecu_Gateway_TC375_LK/Basics/ComStack/CanTp/CanTp.c:546-630 | sending or failing to send the next consecutive frame keeps it |
| TransportLink.ConfirmKeepsLink | Ecu_Gateway_TC375_LK/Basics/ComStack/CanTp/CanTp.c:355-424 | a driver confirmation keeps it |
| TransportLink.ReadKeepsOutgoing | Ecu_Gateway_TC375_LK/Basics/ComStack/CanTp/CanTp.c:280-353 | reading any frame keeps the reader's own outgoing direction, also when a flow control frame slips between its data frames |
| TransportLink.ReadKeepsIncoming | Ecu_Gateway_TC375_LK/Basics/ComStack/CanTp/CanTp.c:632-879 | reading the next frame keeps the incoming direction, and asks for nothing but a clear-to-send |
| TransportSafety.WaitingChannelOwnsSlot | Ecu_Gateway_TC375_LK/Basics/ComStack/Can/Can.c:277-326 | in every reachable state a channel waiting for a consecutive frame's confirmation owns its node's one slot with its own last frame in it, and no other channel of the node waits |
| TransportSafety.StepKeepsSlots | Ecu_Gateway_TC375_LK/Basics/ComStack/Can/Can.c:383-418 | every step keeps the ownership of the slots |
| TransportSafety.ConfirmationBalance | Ecu_Gateway_TC375_LK/Basics/ComStack/CanTp/CanTp.c:371-423 | in every reachable state positive confirmations, plus one for a busy channel, equal accepted SDUs plus refused single frames; no negative ones |
| TransportProgress.StallsIffCtsLost | Ecu_Gateway_TC375_LK/Basics/ComStack/CanTp/CanTp.c:735-762 | for every granted block size every step keeps a transfer on its course, and a step stalls its sender if and only if it loses the clear-to-send: refused by the driver of the end that gives it, or read by the sender before the last frame of its block is confirmed |
| TransportProgress.AwaitingSenderPhase | Ecu_Gateway_TC375_LK/Basics/ComStack/CanTp/CanTp.c:923-1001 | in every reachable state a sender that needs a clear-to-send has exactly one frame on the way that will be answered by it, or has it on the way, or is stalled |
| TransportProgress.StalledForEver | Ecu_Gateway_TC375_LK/Basics/ComStack/CanTp/CanTp.c:213-216 | a stalled transfer is left by no step, whatever the block size: its sender refuses every request and nothing more is confirmed or delivered |
| TransportProgress.StallIsReachable | Ecu_Gateway_TC375_LK/Basics/ComStack/Can/Can.c:277-280 | such a stall is reachable: an ECU still sending a single frame of its own reads a first frame |
| TransportProgress.MissIsReachable | Ecu_Gateway_TC375_LK/Basics/ComStack/CanTp/CanTp.c:868-878 | with blocks of one frame a clear-to-send is lost although every driver takes every frame: it is read before the frame that earned it is confirmed |
| TransportProgress.ParkedUntilOwnFlowControl | Ecu_Gateway_TC375_LK/Basics/ComStack/CanTp/CanTp.c:474-491 | a channel that waits for a single frame the driver refused accepts nothing, and is freed by nothing but the confirmation of a flow control frame it sent itself, which is reported as success |
| TransportProgress.RefusedSingleFrameParks | Ecu_Gateway_TC375_LK/Basics/ComStack/CanTp/CanTp.c:474-491 | a refused single frame leaves its channel in that state |
| TransportCompletion.FairScheduleFinishes | Ecu_Gateway_TC375_LK/Basics/ComStack/CanTp/CanTp.c:355-437 | under every fair schedule, from every reachable state and for every block size, nothing is left to do after more fair rounds than there was load, and everything accepted is delivered unless the transfer is stalled, which it is if and only if it was before or its clear-to-send was lost in the run |
| TransportCompletion.StalledIffCtsLostInRun | Ecu_Gateway_TC375_LK/Basics/ComStack/CanTp/CanTp.c:735-762 | over any run a transfer ends stalled if and only if it began stalled or some step lost its clear-to-send |
| TransportCompletion.EveryStepLightens | Ecu_Gateway_TC375_LK/Basics/ComStack/CanTp/CanTp.c:179-1001 | apart from new requests every step either changes nothing or strictly lowers what is left to send, read and confirm in the network |
| TransportCompletion.CanAlwaysComplete | Ecu_Gateway_TC375_LK/Basics/ComStack/CanTp/CanTp.c:355-437 | from every reachable state that is not stalled, whatever block size is granted, the network can go on so that everything accepted is delivered |
| TransportCompletion.NextStep | Ecu_Gateway_TC375_LK/Basics/ComStack/CanTp/CanTp.c:355-630 | while a transfer is neither stalled nor delivered, some step has work to do and loses no clear-to-send |
| TransportExchange.CrossesOnce | Ecu_Gateway_TC375_LK/Basics/ComStack/CanTp/CanTp.c:179-879 | from a connection at rest, under every fair schedule that loses no clear-to-send: an SDU of any size is delivered once, nothing else is delivered at either end, and both channels and drivers are idle again |
| TransportExchange.Settles | Ecu_Gateway_TC375_LK/Basics/ComStack/CanTp/CanTp.c:355-437 | a channel none of whose confirmations is lost ends idle under every such schedule, with all it had accepted delivered |
| TransportExchange.QuietIsIdle | Ecu_Gateway_TC375_LK/Basics/ComStack/CanTp/CanTp.c:355-437 | when nothing moves any more, a channel that is not stalled and waits for no lost confirmation is idle |
| TransportExchange.StepUnasked | Ecu_Gateway_TC375_LK/Basics/ComStack/CanTp/CanTp.c:280-437 | without a request for a channel no step makes it accept more, turns its single frame into anything else, or loses its confirmation |
| TransportExchange.PlainRoundLosesNothing | Ecu_Gateway_TC375_LK/Basics/ComStack/CanTp/CanTp.c:426-437 | a round of all confirmations, then all main functions, then one read per end loses no clear-to-send for a channel of the gateway whose ECU sends only single frames, whatever block size it grants |
| TransportExchange.PlainRoundsCarry | Ecu_Gateway_TC375_LK/Basics/ComStack/CanTp/CanTp.c:426-437 | such rounds carry every SDU from the gateway to an ECU at rest, and every single frame back |
| TransportProgress.RefusedSingleFrameIsConfirmed | Ecu_Gateway_TC375_LK/Basics/ComStack/CanTp/CanTp.c:474-491 | a run in which a refused single frame, never on the bus, is confirmed as sent |
| Segmentation.SegmentationRoundTrip | Ecu_Gateway_TC375_LK/Basics/ComStack/CanTp/CanTp.c:443-879 | an idle receiver turns the frames of any SDU of 1 byte up to its buffer size into one delivery of exactly these bytes and is idle again |
| Segmentation.TailReassembles | Ecu_Gateway_TC375_LK/Basics/ComStack/CanTp/CanTp.c:799-859 | from any point of a transfer the remaining consecutive frames complete the SDU, across every wrap of the 4-bit sequence number |
| Segmentation.CfExtends | Ecu_Gateway_TC375_LK/Basics/ComStack/CanTp/CanTp.c:807-868 | one expected consecutive frame extends what is held by exactly its share, or completes and delivers |
| Segmentation.SfRoundTrip | Ecu_Gateway_TC375_LK/Basics/ComStack/CanTp/CanTp.c:456-468 | a single frame's type, length and data are read back |
| Segmentation.FfRoundTrip | Ecu_Gateway_TC375_LK/Basics/ComStack/CanTp/CanTp.c:511-524 | a first frame's type, 12-bit length and data are read back |
| Segmentation.CfRoundTrip | Ecu_Gateway_TC375_LK/Basics/ComStack/CanTp/CanTp.c:590-599 | a consecutive frame's type, sequence number modulo 16 and data are read back |
| Segmentation.FcRoundTrip | Ecu_Gateway_TC375_LK/Basics/ComStack/CanTp/CanTp.c:894-902 | a flow control frame's status, block size and separation time are read back |
| Segmentation.CfCount | Ecu_Gateway_TC375_LK/Basics/ComStack/CanTp/CanTp.c:576-588 | the consecutive frames of n remaining bytes number ceil(n / 63) |
| CanTpModel.LengthGuardsAreDead | Ecu_Gateway_TC375_LK/Basics/ComStack/CanTp/CanTp.c:819-829 | both length guards of the consecutive-frame handler are dead in every valid state, and the copy stays in the buffer |
| SenderRuns.CompletesAfterCts | Ecu_Gateway_TC375_LK/Basics/ComStack/CanTp/CanTp.c:355-437 | after a clear-to-send with block size 0 and under every schedule, exactly ceil((L-62)/63) frames are sent, the channel is idle with one positive confirmation exactly when two effective steps per frame were made, and has confirmed nothing before |
| SenderRuns.GrantedRun | Ecu_Gateway_TC375_LK/Basics/ComStack/CanTp/CanTp.c:546-630 | from any granted state: what is sent and what remains make up what remained before, and each effective step takes one off the steps left |
| SenderRuns.SenderKeepsToBlocks | Ecu_Gateway_TC375_LK/Basics/ComStack/CanTp/CanTp.c:570-575 | for every granted block size and every run at most that many frames go out between two clear-to-sends, and the sender stops only after exactly that many |
| SenderRuns.ReceiverRequestsEachBlock | Ecu_Gateway_TC375_LK/Basics/ComStack/CanTp/CanTp.c:868-878 | a receiver asks for the next block after exactly each b in-order frames until completion, and sends no other flow control |
| SenderRuns.WaitFramesTolerated | Ecu_Gateway_TC375_LK/Basics/ComStack/CanTp/CanTp.c:974-992 | three consecutive wait frames leave the sender waiting, the fourth ends the transfer with one negative confirmation |
| SenderRuns.OversizedSduAborted | Ecu_Gateway_TC375_LK/Basics/ComStack/CanTp/CanTp.c:722-731 | an SDU beyond the receiver's buffer is answered with an overflow and ends at the sender with a negative confirmation |
| SenderRuns.BusyReceiverDefers | Ecu_Gateway_TC375_LK/Basics/ComStack/CanTp/CanTp.c:703-711 | a first frame that meets a running reception is answered with a wait and changes nothing |
| Reassembly.DeliveredIsComplete | Ecu_Gateway_TC375_LK/Basics/ComStack/CanTp/CanTp.c:690-879 | for every history of frames of any length and content: an SDU delivered on a consecutive frame consists of one first frame and the consecutive frames since, numbered 1, 2, ... modulo 16, cut to the announced length, with the single frames since written over its beginning |
| Reassembly.ReceivingSince | Ecu_Gateway_TC375_LK/Basics/ComStack/CanTp/CanTp.c:736-762 | whenever the channel is receiving it holds exactly the bytes gathered since one first frame of its history |
| Reassembly.UndisturbedSegments | Ecu_Gateway_TC375_LK/Basics/ComStack/CanTp/CanTp.c:831-861 | without single frames in between the SDU is the first frame's data followed by the consecutive frames' data |
| Reassembly.CorruptedIffOverlaid | Ecu_Gateway_TC375_LK/Basics/ComStack/CanTp/CanTp.c:665-669 | the SDU is what its segments say if and only if the single frames in between rewrote the same bytes |
| Reassembly.SingleFrameCorrupts | Ecu_Gateway_TC375_LK/Basics/ComStack/CanTp/CanTp.c:665-669 | and a single frame in between can change it |
| Reassembly.ConsecutiveFrame | Ecu_Gateway_TC375_LK/Basics/ComStack/CanTp/CanTp.c:765-879 | a consecutive frame extends, completes or resets what is being gathered |
| Reassembly.OtherFrameKeeps | Ecu_Gateway_TC375_LK/Basics/ComStack/CanTp/CanTp.c:316-352 | any other frame leaves it, but for the overlay of a single frame |
| Reassembly.ChannelIndependence | Ecu_Gateway_TC375_LK/Basics/ComStack/CanTp/CanTp.c:1089-1108 | for every interleaving a channel's reassembly depends only on its own frames |
| CanTpRuntime.CanDriver.Write | Ecu_Gateway_TC375_LK/Basics/ComStack/Can/Can.c:235-335 | a frame is taken if and only if the controller is started, the slot is free and the hardware takes it, and then occupies the slot under the caller's handle |
| CanTpRuntime.CanDriver.MainFunctionWrite | Ecu_Gateway_TC375_LK/Basics/ComStack/Can/Can.c:383-418 | with the controller started, an occupied slot whose request the hardware no longer holds is freed and its handle confirmed, and no other |
| CanTpRuntime.TxRuntime.Transmit | Ecu_Gateway_TC375_LK/Basics/ComStack/CanTp/CanTp.c:179-278 | fields, buffers, return value and bus of a channel after a request are those of the transition function |
| CanTpRuntime.TxRuntime.SendSingleFrame | Ecu_Gateway_TC375_LK/Basics/ComStack/CanTp/CanTp.c:443-492 | the frame buffer holds the single frame, which is on the bus if and only if accepted; the channel waits either way |
| CanTpRuntime.TxRuntime.SendFirstFrame | Ecu_Gateway_TC375_LK/Basics/ComStack/CanTp/CanTp.c:494-544 | the frame buffer holds the first frame of the buffered SDU |
| CanTpRuntime.TxRuntime.SendNextConsecutiveFrame | Ecu_Gateway_TC375_LK/Basics/ComStack/CanTp/CanTp.c:546-630 | as the transition function; the completed-transfer branch is proved unreachable |
| CanTpRuntime.TxRuntime.TxConfirmation | Ecu_Gateway_TC375_LK/Basics/ComStack/CanTp/CanTp.c:373-423 | as the transition function |
| CanTpRuntime.TxRuntime.HandleFlowControl | Ecu_Gateway_TC375_LK/Basics/ComStack/CanTp/CanTp.c:941-1000 | as the transition function |
| CanTpRuntime.TxRuntime.Reset | Ecu_Gateway_TC375_LK/Basics/ComStack/CanTp/CanTp.c:1110-1121 | the whole structure is cleared |
| CanTpRuntime.RxRuntime.HandleSingleFrame | Ecu_Gateway_TC375_LK/Basics/ComStack/CanTp/CanTp.c:632-688 | as the transition function, written into the shared buffer |
| CanTpRuntime.RxRuntime.HandleFirstFrame | Ecu_Gateway_TC375_LK/Basics/ComStack/CanTp/CanTp.c:690-763 | as the transition function, with its flow control frame on the bus if accepted |
| CanTpRuntime.RxRuntime.HandleConsecutiveFrame | Ecu_Gateway_TC375_LK/Basics/ComStack/CanTp/CanTp.c:765-879 | as the transition function; both length guards are proved unreachable |
| CanTpRuntime.RxRuntime.SendFlowControl | Ecu_Gateway_TC375_LK/Basics/ComStack/CanTp/CanTp.c:881-921 | the flow control frame carries the configured block size and separation time |
| CanTpRuntime.RxRuntime.Receive | Ecu_Gateway_TC375_LK/Basics/ComStack/CanTp/CanTp.c:324-352 | dispatch by frame type |
| CanTpNode.CanTp.RxIndication | Ecu_Gateway_TC375_LK/Basics/ComStack/CanTp/CanTp.c:280-353 | a flow control frame moves exactly the first channel waiting for this receive handle, which with the configured tables is the channel of the sending ECU, and if none waits nothing; any other frame moves only the receive channel it is addressed to; confirmations, indications and bus on each path |
| CanTpNode.CanTp.Transmit | Ecu_Gateway_TC375_LK/Basics/ComStack/CanTp/CanTp.c:199-216 | only the channel with this handle is touched; an unknown handle is refused |
| CanTpNode.CanTp.TxConfirmation | Ecu_Gateway_TC375_LK/Basics/ComStack/CanTp/CanTp.c:355-369 | only the channel with this handle is touched |
| CanTpNode.CanTp.MainFunction | Ecu_Gateway_TC375_LK/Basics/ComStack/CanTp/CanTp.c:426-437 | every sending channel is polled once in table order; the first with a frame to send gets exactly that frame out, and no other does |
| CanTpNode.CanTp.HandleFlowControl | Ecu_Gateway_TC375_LK/Basics/ComStack/CanTp/CanTp.c:923-951 | the first channel waiting for this receive handle, and only that one |
| CanTpNode.CanTp.FindTxByNsduId | Ecu_Gateway_TC375_LK/Basics/ComStack/CanTp/CanTp.c:1003-1018 | the first row with this handle, or none has it |
| CanTpNode.CanTp.FindTxByNpduId | Ecu_Gateway_TC375_LK/Basics/ComStack/CanTp/CanTp.c:1054-1073 | the first row with this handle, or none has it |
| CanTpNode.CanTp.FindRxByNpduId | Ecu_Gateway_TC375_LK/Basics/ComStack/CanTp/CanTp.c:1020-1035 | the first row with this handle, or none has it |
| CanTpNode.CanTp.FindTxWaitingFc | Ecu_Gateway_TC375_LK/Basics/ComStack/CanTp/CanTp.c:1075-1091 | the first waiting channel that expects this handle, or none does |
| TransportRefinement.TransmitRefines | Ecu_Gateway_TC375_LK/Basics/ComStack/CanTp/CanTp.c:179-278 | called on a node that stands for its part of a network state, a request leaves it standing for its part of the state the network model steps to, and is accepted exactly if it is there |
| TransportRefinement.ConfirmRefines | Ecu_Gateway_TC375_LK/Basics/ComStack/Can/Can.c:383-418 | so does the driver's main function with the confirmation it leads to, and what PduR is told is what the model records |
| TransportRefinement.ReadRefines | Ecu_Gateway_TC375_LK/Basics/ComStack/CanTp/CanTp.c:280-353 | so does the indication of the next frame on the way; what PduR is given, and what it is told, is what the model records as delivered and confirmed |
| TransportRefinement.MainFunctionRefines | Ecu_Gateway_TC375_LK/Basics/ComStack/CanTp/CanTp.c:426-437 | so does the main function, as the model's visits of all channels in table order |
| TransportRefinement.OtherNodeKeeps | Ecu_Gateway_TC375_LK/Basics/ComStack/CanTp/CanTp.c:179-437 | what happens on one node leaves every other node standing for its part |
| TransportRefinement.InitTarget | Ecu_Gateway_TC375_LK/Basics/ComStack/CanTp/CanTp.c:165-177 | an initialised ECU stands for its part of the initial state |
| TransportRefinement.InitGateway | Ecu_Gateway_TC375_LK/Basics/ComStack/CanTp/CanTp.c:165-177 | so does the initialised gateway with its two channels |
| TransportRun.Run | Ecu_Gateway_TC375_LK/Basics/ComStack/CanTp/CanTp.c:165-437 | from the initialisation of the three nodes, for every sequence of calls (requests, main functions, driver confirmations, frames read, with hardware that takes a frame or not): the nodes stand where the model's run of the same events stands; by the nodes' own records what a channel's peer gave to PduR is a prefix of what CanTp_Transmit accepted, and all of it once the channel is idle and nothing is on the way |
| TransportRun.CallAt | Ecu_Gateway_TC375_LK/Basics/ComStack/CanTp/CanTp.c:179-437 | a single call on a node moves the node, the frames on the bus and all records as the model moves |
| TransportRun.Perform | Ecu_Gateway_TC375_LK/Basics/ComStack/CanTp/CanTp.c:165-437 | and leaves the other two nodes standing for their parts |
| TransportRun.StepSeen | Ecu_Gateway_TC375_LK/Basics/ComStack/Can/Can.c:277-326 | a step puts on the bus exactly the frame that is new in its node's slot, and touches no other end's accepted or delivered SDUs |
| CanInterface.Wiring | Ecu_Gateway_TC375_LK/Basics/ComStack/CanIf/CanIf_Cfg.c:11-45 | what an end sends reaches its peer's channel and no other channel of any node, and is confirmed under the sending channel's handle |
| CanInterface.FindTxPduConfig | Ecu_Gateway_TC375_LK/Basics/ComStack/CanIf/CanIf.c:190-205 | the first row with this handle |
| CanInterface.FindRxPduConfig | Ecu_Gateway_TC375_LK/Basics/ComStack/CanIf/CanIf.c:207-224 | the first row with this hardware object and identifier |
| CanInterface.SmallestDlc | Ecu_Gateway_TC375_LK/Basics/ComStack/Can/Can.c:441-497 | the length code chosen is the smallest that carries the length; the round trip is exact for exactly the CAN FD lengths |
| CanInterface.OverTheBus | Ecu_Gateway_TC375_LK/Basics/ComStack/Can/Can.c:284-291 | the receiver's 64-byte buffer holds the payload, then padding, under the rounded-up length |
| CanInterface.FullFramesCross | Ecu_Gateway_TC375_LK/Basics/ComStack/Can/Can.c:565-635 | a 64-byte frame crosses the bus unchanged |
| CanInterface.PaddingIgnoredIff | Ecu_Gateway_TC375_LK/Basics/ComStack/CanTp/CanTp.c:632-861 | the bytes beyond the length of a received frame do not matter if and only if it is not the consecutive frame being waited for, or is longer than the share that frame contributes |
| CanInterface.PaddingIgnored | Ecu_Gateway_TC375_LK/Basics/ComStack/CanTp/CanTp.c:646-662 | in particular for every frame the handler of consecutive frames does not take |
| CanInterface.ShortConsecutiveFramePadded | Ecu_Gateway_TC375_LK/Basics/ComStack/CanTp/CanTp.c:791-839 | the length of a consecutive frame is not checked, so a short one puts the driver's padding into the buffer, or into the SDU it completes, at every position behind its payload |
| DoipModel.ChunkingInvariance | Ecu_Gateway_TC375_LK/Basics/ComStack/DoIP/DoIP.c:143-188 | however a stream is cut into indications that fit the buffer, messages and first error are those of one recursive framing of the whole stream, and so is the leftover where no length wraps |
| DoipModel.SameStreamSameMessages | Ecu_Gateway_TC375_LK/Basics/ComStack/DoIP/DoIP.c:168-187 | any two such cuts agree |
| DoipCuts.CutNeverMattersIff | Ecu_Gateway_TC375_LK/Basics/ComStack/DoIP/DoIP.c:143-188 | for a stream that fits the buffer, headers with wrapping lengths included: all cuts lead to the same calls of DoIP_HandleMessage, by type and length, and by content for messages that lie in the stream, if and only if behind the first refused header nothing starts that would be handled; with the negative acknowledgements counted as well, if and only if no header at all follows it |
| DoipCuts.NoHeaderIff | Ecu_Gateway_TC375_LK/Basics/ComStack/DoIP/DoIP.c:287-301 | no header at all follows means: fewer than eight bytes, or exactly a sound header that waits for its message |
| DoipCuts.ProcessScans | Ecu_Gateway_TC375_LK/Basics/ComStack/DoIP/DoIP.c:275-356 | from any position of the buffer the loop makes the calls, gives the refusals and leaves the rest that a scan of the bytes alone says, until a call with a wrapped length reads beyond the buffer |
| DoipCuts.ScanConcat | Ecu_Gateway_TC375_LK/Basics/ComStack/DoIP/DoIP.c:168-187 | scanning a longer stream, wrapped headers included, is scanning its first part and then what it left with the rest |
| DoipCuts.CutMattersAfterError | Ecu_Gateway_TC375_LK/Basics/ComStack/DoIP/DoIP.c:292-301 | for one, a refused header followed by a message: received in one piece nothing is handled, received in two the message is |
| DoipCuts.CutMattersForWrap | Ecu_Gateway_TC375_LK/Basics/ComStack/DoIP/DoIP.c:311-339 | so too a refused header followed by one whose length wraps: in one piece it is lost, in two it is handled as a message of almost 2^32 bytes |
| DoipModel.FrameConcat | Ecu_Gateway_TC375_LK/Basics/ComStack/DoIP/DoIP.c:287-339 | framing a longer stream is framing its first part and then the leftover with the rest |
| DoipModel.FrameUndoesEncode | Ecu_Gateway_TC375_LK/Basics/ComStack/DoIP/DoIP.c:287-339 | encoded messages followed by the beginning of one more are framed as exactly those messages with that leftover |
| DoipModel.FrameConserves | Ecu_Gateway_TC375_LK/Basics/ComStack/DoIP/DoIP.c:341-355 | while framing waits for more, the stream is the encodings of its messages followed by the leftover |
| DoipModel.LeftoverIsIncomplete | Ecu_Gateway_TC375_LK/Basics/ComStack/DoIP/DoIP.c:287-330 | what is left is shorter than a header, or has a sound header and is shorter than its message, which fits the buffer |
| DoipModel.WrappedLength | Ecu_Gateway_TC375_LK/Basics/ComStack/DoIP/DoIP.c:311-339 | a message whose declared length wraps is exactly one whose 32-bit sum with the header length comes out below the header length, so that the loop goes on inside the same header; at the very same place, for ever, exactly for the length bytes FF FF FF F8 |
| DoipModel.ProcessFrames | Ecu_Gateway_TC375_LK/Basics/ComStack/DoIP/DoIP.c:275-356 | while no length wraps, the loop does what handling the framed messages one by one does, with a negative acknowledgement for the first refused header |
| DoipModel.ProcessBeforeActivation | Ecu_Gateway_TC375_LK/Basics/ComStack/DoIP/DoIP.c:468-471 | whatever stands in the buffer, wrapped lengths included, nothing reaches PduR before a call that activates routing |
| DoipModel.NothingRoutedBeforeActivation | Ecu_Gateway_TC375_LK/Basics/ComStack/DoIP/DoIP.c:468-471 | whatever arrives, nothing reaches PduR before a routing activation |
| DoipModel.RoutedIff | Ecu_Gateway_TC375_LK/Basics/ComStack/DoIP/DoIP.c:433-541 | after it, exactly the diagnostic messages with a known target and data reach PduR, with that data |
| DoipRuntime.Doip.ProcessRxBuffer | Ecu_Gateway_TC375_LK/Basics/ComStack/DoIP/DoIP.c:275-356 | for every content of the buffer the loop handles what the model handles, in turn, wrapped lengths included: session, outputs and how it ends are the model's; where it ends, the rest is at the front |
| DoipRuntime.Doip.TpRxIndication | Ecu_Gateway_TC375_LK/Basics/ComStack/DoIP/DoIP.c:143-188 | an indication from another socket is ignored, one that does not fit is refused and the buffer dropped, any other is appended and processed; while no length wraps, as the framing of the bytes says |
| DoipRuntime.Doip.MoveToFront | Ecu_Gateway_TC375_LK/Basics/ComStack/DoIP/DoIP.c:343-352 | the overlapping move keeps the bytes |
| DoipRuntime.Doip.HandleMessage | Ecu_Gateway_TC375_LK/Basics/ComStack/DoIP/DoIP.c:358-407 | session, responses and indications after a message are those of the model, also for a declared length beyond the buffer |
| DoipRuntime.Doip.HandleRoutingActivation | Ecu_Gateway_TC375_LK/Basics/ComStack/DoIP/DoIP.c:409-431 | likewise for a routing activation request |
| DoipRuntime.Doip.HandleDiagnosticMessage | Ecu_Gateway_TC375_LK/Basics/ComStack/DoIP/DoIP.c:433-541 | likewise for a diagnostic message |
| DoipRuntime.Doip.TpTransmit | Ecu_Gateway_TC375_LK/Basics/ComStack/DoIP/DoIP.c:190-269 | a response assembled in place goes out as the encoded message, or is refused; E_OK exactly if SoAd took it |
| DoipRuntime.Doip.SendMessage | Ecu_Gateway_TC375_LK/Basics/ComStack/DoIP/DoIP.c:547-603 | the bytes given to SoAd are the encoded message; a message that does not fit is refused; E_OK exactly if SoAd took it |
| DoipRuntime.Doip.FindTarget | Ecu_Gateway_TC375_LK/Basics/ComStack/DoIP/DoIP.c:732-747 | the first row with this logical address |
| DoipRuntime.Doip.FindSource | Ecu_Gateway_TC375_LK/Basics/ComStack/DoIP/DoIP.c:749-764 | the first row with this handle |
| Bytes.Be16RoundTrip | Ecu_Gateway_TC375_LK/Basics/ComStack/DoIP/DoIP.c:770-795 | parsing what was written as 16 bits |
| Bytes.Be32RoundTrip | Ecu_Gateway_TC375_LK/Basics/ComStack/DoIP/DoIP.c:778-806 | parsing what was written as 32 bits |
| Pdur.FindRoutingPath | Ecu_Gateway_TC375_LK/Basics/ComStack/PduR/PduR.c:218-237 | the first matching path of the table |
| Pdur.AnyMatchIsTheOne | Ecu_Gateway_TC375_LK/Basics/ComStack/PduR/PduR_Cfg.c:14-94 | the four configured paths have different sources, so any path that matches is the one found |
| Pdur.RouteRxIndication | Ecu_Gateway_TC375_LK/Basics/ComStack/PduR/PduR.c:88-183 | an indication is forwarded unchanged on the path found, if there is one and the router is initialised |
| MasterPackets.SendUdsPacket | FOTA_Master_RPI4/ota_uds_engine.cpp:59-85 | the bytes sent are the DoIP encoding of the request if it is shorter than 65531 bytes after its service identifier; for any request they carry the right version, type and payload under its length modulo 2^16 |
| MasterPackets.PacketIsEncoded | FOTA_Master_RPI4/ota_uds_engine.cpp:60-70 | below 2^32 bytes they are that encoding if and only if payload and addresses together are shorter than 2^16 bytes |
| MasterPackets.RequestFramed | Ecu_Gateway_TC375_LK/Basics/ComStack/DoIP/DoIP.c:287-330 | the gateway takes a request as one message if and only if it has at most 2036 bytes, and otherwise answers that it is too large |
| MasterPackets.RequestHandled | Ecu_Gateway_TC375_LK/Basics/ComStack/DoIP/DoIP.c:473-540 | with an active session and a known target, service identifier and payload reach PduR under the target's handle |
| MasterPackets.RoutingActivationWorks | FOTA_Master_RPI4/ota_uds_engine.cpp:133-143 | the master's activation packet activates routing, and its test accepts that answer and no negative acknowledgement |
| MasterPackets.CheckUdsResponse | FOTA_Master_RPI4/ota_uds_engine.cpp:87-131 | the verdict is that on the first header found, with the code of a negative response, and -100 if there is none |
| MasterPackets.ForwardedResponse | FOTA_Master_RPI4/ota_uds_engine.cpp:96-130 | for a response of the gateway the master sees exactly the ECU's answer |
| EndToEnd.RequestRouted | Ecu_Gateway_TC375_LK/Basics/ComStack/DoIP/DoIP.c:143-541 | however TCP cuts a request of up to 2036 bytes, DoIP hands PduR exactly identifier and payload for the addressed ECU, and nothing else |
| EndToEnd.RequestDelivered | Ecu_Gateway_TC375_LK/Basics/ComStack/CanTp/CanTp.c:179-879 | accepted on an idle channel with a free slot, the request is delivered by its ECU at exactly its place among the accepted ones, whatever else happens, once nothing is on the way |
| EndToEnd.RequestEndToEnd | Ecu_Gateway_TC375_LK/Basics/ComStack/DoIP/DoIP.c:143-541 | from the socket to the ECU in one statement: the packet, cut as TCP likes, leads through DoIP and the routing path to the channel whose peer, once the request is accepted and nothing is on the way, has delivered exactly its identifier and payload at their place |
| EndToEnd.RequestArrives | Ecu_Gateway_TC375_LK/Basics/ComStack/CanTp/CanTp.c:179-879 | under every fair schedule that loses no clear-to-send for it the request is delivered at its place, whatever block size the ECU grants |
| EndToEnd.RequestCanArrive | Ecu_Gateway_TC375_LK/Basics/ComStack/CanTp/CanTp.c:179-879 | and from the moment it is accepted the network can always go on to that point |
| EndToEnd.AddressLeadsToChannel | Ecu_Gateway_TC375_LK/Basics/ComStack/DoIP/DoIP_Cfg.c:33-43 | a known logical address leads through both tables to the CanTp channel of its ECU |
| EndToEnd.ReplyCarriesOwnAddress | Ecu_Gateway_TC375_LK/Basics/ComStack/DoIP/DoIP_Cfg.c:56-66 | what a channel delivers is sent with the source address that leads requests to the same ECU |
| EndToEnd.ResponseEncapsulated | Ecu_Gateway_TC375_LK/Basics/ComStack/DoIP/DoIP.c:190-269 | a response is sent if and only if it has at most 2036 bytes, as one message with the ECU's and the tester's address that frames back into the same bytes |
| Crc32.BurstDetected | FOTA_Master_RPI4/ota_uds_engine.cpp:27-39 | two different images of equal length whose bits differ only within 32 consecutive ones have different checksums |
| Crc32.GeneratorBurstMissed | FOTA_Master_RPI4/ota_uds_engine.cpp:34 | 32 cannot be raised: images that differ by the 33-bit generator anywhere share their checksum |
| Crc32.BurstOf33Collides | FOTA_Master_RPI4/ota_uds_engine.cpp:34 | every image of at least five bytes has, at every position, another with the same checksum that differs from it only within 33 consecutive bits |
| Crc32.ChecksumOfChunks | FOTA_Master_RPI4/ota_uds_engine.cpp:28-37 | the register folds over any split of the image |
| Crc32.ChecksumOfThree | FOTA_Master_RPI4/ota_uds_engine.cpp:28-38 | the checksum of the sum of three images is the sum of their checksums |
| Crc32.FoldLinear | FOTA_Master_RPI4/ota_uds_engine.cpp:31-36 | the register is linear in state and data |
| Crc32.FoldIsSteps | FOTA_Master_RPI4/ota_uds_engine.cpp:30-36 | up to 32 bits fed in are that many steps on the state plus those bits |
| Crc32.StepInjective | FOTA_Master_RPI4/ota_uds_engine.cpp:32-35 | one bit step loses nothing |
| Crc32.CalculateChunkCrc32 | FOTA_Master_RPI4/ota_uds_engine.cpp:27-39 | the two nested loops compute the reference checksum |
| Crc32.TableCrc32 | Ecu_Motion_TC375_LK/Basics/Reprogram/Crc/crc32.c:44-58 | so does the table-driven program of the target, also continued from a previous value |
| Crc32.TableIsSteps | Ecu_Motion_TC375_LK/Basics/Reprogram/Crc/crc32.c:3-42 | each of the 256 table entries is eight bit steps of its index |
| Crc32.TableStep | Ecu_Motion_TC375_LK/Basics/Reprogram/Crc/crc32.c:52-55 | one look-up feeds the register the eight bits of a byte |
| Crc32.ProgramsAgree | Ecu_Motion_TC375_LK/Basics/Reprogram/Crc/crc32.c:44-58 | run on the same image, the master's program and the target's return the same word, the reference checksum |
| SotaModel.FinalizeOkIff | Ecu_Motion_TC375_LK/Basics/Reprogram/Update/Sota_UpdateCore.c:259-308 | an image is accepted if and only if everything announced has arrived, the last page programs and the checksum is the expected one |
| SotaModel.WritesConcatenate | Ecu_Motion_TC375_LK/Basics/Reprogram/Update/Sota_UpdateCore.c:202-257 | while pages program, any cut of the data into chunks leaves the same received bytes and the same flash |
| SotaRuntime.SotaUpdate.WriteChunk | Ecu_Motion_TC375_LK/Basics/Reprogram/Update/Sota_UpdateCore.c:202-257 | the page-filling loop does what the model says, up to the first page that does not program |
| SotaRuntime.SotaUpdate.ProgramCurrentPage | Ecu_Motion_TC375_LK/Basics/Reprogram/Update/Sota_UpdateCore.c:82-110 | one more page in flash, or an error; the guard against the padded length is proved dead |
| SotaRuntime.SotaUpdate.FinalizeAndVerify | Ecu_Motion_TC375_LK/Basics/Reprogram/Update/Sota_UpdateCore.c:259-308 | pads, programs and reads back as the model says |
| SotaRuntime.SotaUpdate.Begin | Ecu_Motion_TC375_LK/Basics/Reprogram/Update/Sota_UpdateCore.c:124-200 | accepts 1 byte up to the bank size when bank and erase are in order |
| SotaRuntime.SotaUpdate.Reset | Ecu_Motion_TC375_LK/Basics/Reprogram/Update/Sota_UpdateCore.c:112-122 | back to the initial context |
| FotaSafety.ExactlyOnce | Ecu_Motion_TC375_LK/Basics/Reprogram/FotaHandler.c:294-489 | after every run from power-up: written bytes plus the chunk in hand are the accepted bytes, a prefix of them after an error; the total is the written length below 2^32; each written chunk is answered with one OK; PROCESSING is never visible |
| FotaSafety.ActivationSafety | Ecu_Motion_TC375_LK/Basics/Reprogram/FotaHandler.c:491-599 | after every run an armed activation implies a started, verified download, and a complete image in flash whose checksum is the one verified |
| FotaSafety.ErrorPersists | Ecu_Motion_TC375_LK/Basics/Reprogram/FotaHandler.c:185-292 | a chunk error lasts until a reset or a new download of non-zero length, and until then nothing is written and every chunk or poll fails |
| FotaSafety.NextKeepsConsistent | Ecu_Motion_TC375_LK/Basics/Reprogram/FotaHandler.c:185-644 | every operation keeps the invariant behind these |
| FotaRuntime.FotaHandler.ProcessTransferDataWrite | Ecu_Motion_TC375_LK/Basics/Reprogram/FotaHandler.c:294-444 | context and return value after a chunk or poll are those of the model |
| FotaRuntime.FotaHandler.CyclicMain | Ecu_Motion_TC375_LK/Basics/Reprogram/FotaHandler.c:446-489 | the buffered chunk goes to the core once, and the context follows the outcome |
| FotaRuntime.FotaHandler.StartDownload | Ecu_Motion_TC375_LK/Basics/Reprogram/FotaHandler.c:232-292 | as the model: refuses length 0 without a reset, otherwise resets and begins |
| FotaRuntime.FotaHandler.RequestTransferExit | Ecu_Motion_TC375_LK/Basics/Reprogram/FotaHandler.c:491-545 | as the model: not while a chunk is active, and only once |
| FotaRuntime.FotaHandler.ActivateImage | Ecu_Motion_TC375_LK/Basics/Reprogram/FotaHandler.c:552-599 | as the model: only a verified image |
| FotaRuntime.FotaHandler.RollbackImage | Ecu_Motion_TC375_LK/Basics/Reprogram/FotaHandler.c:601-644 | as the model |
| FotaRuntime.FotaHandler.ProvisionInitialOnce | Ecu_Motion_TC375_LK/Basics/Reprogram/FotaHandler.c:199-225 | as the model |
| FotaRuntime.FotaHandler.ResetContext | Ecu_Motion_TC375_LK/Basics/Reprogram/FotaHandler.c:185-197 | context and core back to their initial values |
| ImageTransfer.ImageReconstruction | FOTA_Master_RPI4/ota_uds_engine.cpp:278-306 | for every image and every schedule that lets each exchange finish, every block is accepted and answered once across every counter wrap, and the core has received exactly the image |
| ImageDelivery.ImageDelivered | FOTA_Master_RPI4/ota_uds_engine.cpp:278-306 | the whole way in one statement, for every image: however TCP cuts the blocks' packets, under every fair schedule of the network that loses no clear-to-send for a block and every schedule of the target that finishes its exchanges, each block the master sends is answered by one message it reads as success, across every counter wrap, and the target's flash core has received the image so far, in the end exactly the image |
| ImageDelivery.BlockDelivered | FOTA_Master_RPI4/ota_uds_engine.cpp:281-305 | one block through DoIP, PduR, network and server, and its acknowledgement back: written once, one message for the master, read as success, everything ready for the next block |
| ImageDelivery.ImageCanBeDelivered | FOTA_Master_RPI4/ota_uds_engine.cpp:278-306 | schedules that meet these conditions exist for every image and every granted block size: packets in one piece, plain rounds, server, writer, server |
| ImageDelivery.BlockWorkedOff | Ecu_Motion_TC375_LK/Basics/ComStack/Dcm/Dcm.c:721-831 | the target writes a delivered block once and answers it once |
| ImageDelivery.ReadyToBegin | Ecu_Motion_TC375_LK/Basics/ComStack/Dcm/Dcm.c:690-705 | after routing activation and an accepted download on an initialised network the transfer can begin |
| ImageTransfer.BlockUnderEverySchedule | Ecu_Motion_TC375_LK/Basics/ComStack/Dcm/Dcm.c:721-831 | under every interleaving of server and writer one exchange is exactly as far as its schedule takes it, with one positive answer at its end and the block written once |
| ImageTransfer.FairScheduleCompletes | Ecu_Motion_TC375_LK/Basics/ComStack/Dcm/Dcm.c:285-295 | server, writer, server in this order, with anything in between, completes an exchange |
| ImageTransfer.AcknowledgementRead | FOTA_Master_RPI4/ota_uds_engine.cpp:297-301 | a block's acknowledgement comes back through the gateway as the master's code for success |
| ImageTransfer.VerificationSucceeds | Ecu_Motion_TC375_LK/Basics/Reprogram/FotaHandler.c:491-599 | then the master's checksum verifies, flash holds the image padded to pages, and activation is possible |
| ImageTransfer.VerificationRefuses | Ecu_Motion_TC375_LK/Basics/Reprogram/FotaHandler.c:527-538 | any other checksum is refused and the image cannot be activated |
| ImageTransfer.DownloadMakesReady | Ecu_Motion_TC375_LK/Basics/ComStack/Dcm/Dcm.c:690-705 | a download is accepted exactly for 1 byte up to a whole bank with bank and erase in order, and makes the server ready for the first block |
| ImageTransfer.FirstArrivalWins | Ecu_Motion_TC375_LK/Basics/ComStack/Dcm/Dcm.c:189-232 | of any requests that arrive between two main functions an idle server latches the first that fits its buffer and none of the later ones; a busy one latches none |
| DcmTrace.ActivatedOnlyOneWay | Ecu_Gateway_TC375_LK/Basics/ComStack/Dcm/Dcm.c:358-808 | in every history since initialisation that led to ACTIVATED the positive answers are, in order and up to repetitions without effect: extended session, one download, n >= 1 blocks numbered 1, 2, ... modulo 256, exit, verify, programming session, activate, reset; no failed transmission or rollback in between |
| DcmTrace.EveryUpdateCanActivate | Ecu_Gateway_TC375_LK/Basics/ComStack/Dcm/Dcm.c:358-808 | and for every n >= 1 this way leads to ACTIVATED |
| DcmTrace.FailedOrRolledBackForEver | Ecu_Gateway_TC375_LK/Basics/ComStack/Dcm/Dcm.c:191-221 | FAILED and ROLLBACK_DONE are left for no other state |
| DcmTrace.OneDownload | Ecu_Gateway_TC375_LK/Basics/ComStack/Dcm/Dcm.c:531-602 | at most one download is accepted per initialisation, and none before an extended session |
| DcmTrace.RequestMoves | Ecu_Gateway_TC375_LK/Basics/ComStack/Dcm/Dcm.c:264-352 | which states a request can lead from and to, by what a bystander sees of it |
| DcmTrace.AnswersAreHonest | Ecu_Gateway_TC375_LK/Basics/ComStack/Dcm/Dcm.c:814-859 | every request is answered once and in its own name; a negative answer changes nothing but for a wrong block counter |
| DcmTrace.ProgrammingRefusedUntilVerified | Ecu_Gateway_TC375_LK/Basics/ComStack/Dcm/Dcm.c:396-416 | the programming session is refused with 0x22 exactly in the states other than VERIFIED and PROGRAMMING_SESSION, and granted in those two |
| DcmRuntime.DcmServer.RxIndication | Ecu_Gateway_TC375_LK/Basics/ComStack/Dcm/Dcm.c:144-189 | a request that fits replaces the one latched before it; a longer one is ignored |
| DcmRuntime.DcmServer.MainFunction | Ecu_Gateway_TC375_LK/Basics/ComStack/Dcm/Dcm.c:223-262 | the latched request is dispatched once and answered once |
| DcmRuntime.DcmServer.ProcessRequest | Ecu_Gateway_TC375_LK/Basics/ComStack/Dcm/Dcm.c:264-352 | runtime and response are those of the model, for every service |
| DcmRuntime.DcmServer.HandleSessionControl | Ecu_Gateway_TC375_LK/Basics/ComStack/Dcm/Dcm.c:358-445 | likewise for session control |
| DcmRuntime.DcmServer.HandleEcuReset | Ecu_Gateway_TC375_LK/Basics/ComStack/Dcm/Dcm.c:447-492 | likewise for ECU reset |
| DcmRuntime.DcmServer.HandleTesterPresent | Ecu_Gateway_TC375_LK/Basics/ComStack/Dcm/Dcm.c:494-529 | likewise for tester present |
| DcmRuntime.DcmServer.HandleRequestDownload | Ecu_Gateway_TC375_LK/Basics/ComStack/Dcm/Dcm.c:531-602 | likewise for request download |
| DcmRuntime.DcmServer.HandleTransferData | Ecu_Gateway_TC375_LK/Basics/ComStack/Dcm/Dcm.c:604-667 | likewise for transfer data |
| DcmRuntime.DcmServer.HandleTransferExit | Ecu_Gateway_TC375_LK/Basics/ComStack/Dcm/Dcm.c:669-701 | likewise for transfer exit |
| DcmRuntime.DcmServer.HandleRoutineControl | Ecu_Gateway_TC375_LK/Basics/ComStack/Dcm/Dcm.c:703-808 | likewise for routine control |
| DcmRuntime.DcmServer.Confirm | Ecu_Gateway_TC375_LK/Basics/ComStack/Dcm/Dcm.c:191-221 | a failed transmission fails an update under way |
| DcmRuntime.DcmServer.SendPositive | Ecu_Gateway_TC375_LK/Basics/ComStack/Dcm/Dcm.c:814-844 | the response buffer holds identifier plus 0x40 and payload |
| DcmRuntime.DcmServer.SendNegative | Ecu_Gateway_TC375_LK/Basics/ComStack/Dcm/Dcm.c:846-859 | the response buffer holds 0x7F, identifier and code |
| OtaMaster.SwapSafety | FOTA_Master_RPI4/ota_uds_engine.cpp:266-450 | for every sequence of answers the bank swap is requested at most once, and only after extended session, download, every block in order, exit, verification with the checksum of the whole image and programming session were all answered positively, the last after fewer than 120 answers of 0x22; a rollback is requested only after it |
| OtaMaster.AtMost120Attempts | FOTA_Master_RPI4/ota_uds_engine.cpp:318-348 | at most 120 requests for the programming session |
| OtaMaster.SwapIff | FOTA_Master_RPI4/ota_uds_engine.cpp:266-356 | the swap is requested if and only if the answers open the way: all of the installation positive, then fewer than 120 times 0x22, then a yes |
| OtaMaster.TimeoutIff | FOTA_Master_RPI4/ota_uds_engine.cpp:344-348 | the run times out if and only if the installation is granted and the next 120 answers are 0x22; it then ends with 0x22 after 120 attempts and without a swap |
| OtaMaster.AllPositive | FOTA_Master_RPI4/ota_uds_engine.cpp:266-450 | with nothing but positive answers everything is sent: session, download, every block, exit, verification, programming session, swap and reset, with result 0 |
| OtaMaster.RunIsDetermined | FOTA_Master_RPI4/ota_uds_engine.cpp:266-450 | image, answers and the user's wish determine the run: two runs that meet the contract are the same, request by request, with the same result |
| OtaMaster.BlocksAreTheImage | FOTA_Master_RPI4/ota_uds_engine.cpp:281-284 | the blocks sent are the image, without gap or overlap |
| OtaMaster.StartOtaTransfer | FOTA_Master_RPI4/ota_uds_engine.cpp:266-450 | every code of the run is the one its answer gave, and the run is one of: stopped at the first answer of the installation that is not positive, with its code; stopped while waiting by an answer that is neither yes nor 0x22; timed out; or gone through the swap with the prescribed aftermath |
| OtaMaster.TransferAll | FOTA_Master_RPI4/ota_uds_engine.cpp:278-306 | the loop sends the blocks in order with wrapping counters, or stops at the first whose answer is not positive |
| OtaMaster.AwaitSafeState | FOTA_Master_RPI4/ota_uds_engine.cpp:318-348 | the loop ends with the programming session open, at an answer that is neither yes nor 0x22, or after 120 answers of 0x22 |
| OtaMaster.SwapAndAfter | FOTA_Master_RPI4/ota_uds_engine.cpp:350-449 | what follows the swap request, for either answer and either decision of the user |

## Left out

- Hardware and vendor code: message RAM, filters beyond their identifiers, interrupts, watchdogs, boot
  headers, serial output. Of the CAN driver only the pending slot, the length codes and the padding remain.
- SoAd, lwIP, sockets, MQTT, HTTP, the user interface: sources and sinks of bytes.
- Lost, reordered or corrupted CAN frames and receive FIFO overflow: the network model is lossless and in
  order per channel. Arbitrary frames, including such sequences, are covered on the receive side by `Reassembly`.
- Timing: CanTp enforces neither separation time nor timeouts, so none are modelled; the stored separation
  time is.
- CanTpRuntime.CanDriver.Write: the lookup of the hardware object and the length check are left out: there is
  one transmit object, and every frame of CanTp has 64 bytes.
- DoipRuntime.Doip.ProcessRxBuffer: the loop that never ends and a read beyond the receive buffer, both after
  a wrapped length, are outcomes at which the method stops; what the code would find or do there is not
  modelled, nor the content of a PDU longer than the buffer.
- DoipRuntime.Doip.TpRxIndication: likewise.
- MasterPackets.CheckUdsResponse: a read beyond the receive buffer is an outcome of its own; what the code
  would find there is not modelled.
- OtaMaster.StartOtaTransfer: opening the file, connecting and routing activation come before it; images of
  2^32 bytes and more, for which the 32-bit offset wraps, are excluded. The shared state variables that other
  threads write are not modelled: waiting for the user is one given answer.
- ImageDelivery.ImageDelivered: the target answers once the network is at rest; its server at work while frames
  of the request are still on the way is not in this statement.
- SotaRuntime.SotaUpdate.Begin: the bank lookup, the address checks and the sector-by-sector erase are two
  given outcomes; the debug record is not modelled, and flash is the bytes programmed from the bank's start.
- FotaRuntime.FotaHandler.ActivateImage: what SotaProvision_ProgramNextSwapEntry writes is a given outcome,
  and the last swap entry and mode word are not recorded.
- FotaRuntime.FotaHandler.RollbackImage: likewise.
- FotaRuntime.FotaHandler.ProvisionInitialOnce: whether provisioning succeeds is a given outcome.
- Of the target's Dcm only the request latch, its polling and transfer
  data are modelled, and the verification's four checksum bytes are passed as one word.
- The checks for null pointers, which no caller of these functions can fail, and debug output.
- Version comparison, motor and lamp control, and the range checks of the flash configuration: easy members.
