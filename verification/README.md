# A verified model of a USB 3 device controller driver and its composite gadget layer

The repository drives a DWC3 USB device controller and puts a composite gadget on it. This
project models the parts of it that hold state across calls, and proves what they keep over
every run. `dafny verify dfyconfig.toml` checks the whole project.

| component | files | what is at its centre |
|---|---|---|
| The TRB ring of an endpoint | `TrbRing`, `EndpointModel`, `EndpointRing`, `EndpointRuns`, `EndpointStart`, `EndpointRemoval`, `EndpointFree`, `EndpointFailures`, `EndpointOpened`, `EndpointCallbacks`, `EndpointCommands`, `EndpointPromises`, `EndpointBytes`, `EndpointReports`, `EndpointCleanup`, `EndpointMarks`, `Endpoint` | 1023 slots and a link TRB, two request lists feeding them, commands and completion events |
| The event ring | `EventRing` | controller, interrupt top half and bottom half as one FIFO |
| Control transfers | `Ep0Model`, `Ep0Proofs`, `Ep0Details`, `Ep0Starts`, `Ep0Status`, `Ep0Memory`, `Ep0`, `Bounce`, `InDataStage` | SETUP, DATA and STATUS stages, delayed status, stalls, the bounce buffer, zero-length packets |
| The composite layer | `Composite`, `CompositeDevice`, `Enumeration`, `Descriptors`, `StringTables`, `Pullup` | switching configurations, enumeration, descriptors as bytes, string ids, the data line pullup |
| Underneath | `LinkedLists`, `TxFifo`, `Division`, `Octets`, `Wrappers` | the intrusive list on the heap, the transmit FIFO layout |

## How it is built

Code that updates state in place is a class or a method with loops (`Endpoint`, `Ep0`,
`EventRing.EventBuffer`, `CompositeDevice`, `Pullup.UsbGadget`, `StringTables.StringRegistry`,
`LinkedLists.ListHead`, and the buffer-filling methods of `Descriptors`, `Bounce` and `TxFifo`).
Each such method is proved to compute a function of the state before it; the theorems are then
about that function: about one step, and by induction about every run of steps in any order.
The steps of a run belong to the driver, to the gadget driver above it and to the controller
below it. The controller may retire any TRB it owns and store events at any time; it reports a
completion only for what was started and never more than 256 bytes of events.

Completion callbacks are step boundaries wherever the driver calls one: between the givebacks of
clean-up and of a disable, and on endpoint zero between giving a request back and going on with
its data stage, status stage or restart. While a disable or a clean-up is under way everything
else may happen, another disable included. On endpoint zero the next event waits until the
callback has returned, but the gadget driver may halt the endpoint from it.

## What the code does that one might not expect

Each of these is a theorem here, with the exact condition or a run that gets there.

- The driver tells a full ring from an empty one by the ownership bit of the last TRB. If the
  controller has cleared that bit before the driver has taken the requests off, the full ring
  counts as empty and a batch overwrites live TRBs (`EndpointRing.PrepareKeepsInvariant`; a run
  that gets there is `EndpointFailures.FullRingIsOverrun`).
- Cancelling a queued request advances dequeue by its width whatever its position, so
  cancelling any but the first exposes the TRBs of the first, and the next batch can overwrite
  them (`CancelExposesHead`, `CancelOverwritesHead`; a run is `CancelOverwritesByRun`).
- A disable gives back what is on the ring, then what is pending, and does not look at the ring
  again. A request queued from a callback of the second loop can end up there: the disable ends
  with it on the ring and a transfer started, and the next enable breaks the ring invariant
  (`EndpointRemoval.CallbackLeavesExactly`, `DisableLeavesRequest`). It can also be given back
  before a request accepted earlier (`DisableReorders`).
- Whatever empties the ring, if the controller still owns the TRB before enqueue then, the ring
  looks full for good: nothing is started until the endpoint is enabled anew or that TRB is
  retired after all (`StuckForGood`, `StuckExactly`). Cancelling the only request gets there, and
  so does a short packet in the first of several TRBs (`ShortPacketLeavesRingStuck`).
- A request with exactly one buffer in its chain is never seen to be the last of the list, as it
  is still on the list when the driver looks, so it ends its batch without LST
  (`PrepareFromShape`).
- The byte count of a request has the length of the whole request added for each TRB, whatever
  the lengths of its buffers; and a TRB takes the low 24 bits of a length only
  (`EndpointBytes.ByteCountExact`, `TwoBuffersCount`, `LongRequestCount`).
- A request that came up short on an IN endpoint is given back with status 0: the error is put
  into a parameter that nobody reads (`EndpointReports.CleanReports`).
- A disable ends the transfer only if something is on the ring when it begins. With everything
  worked off the endpoint is disabled with its transfer neither completed nor ended
  (`EndpointCommands.StepOutstandingExactly`, `DisableKeepsTransfer`), and a request that a
  callback of the first loop puts on the ring is given back while its transfer runs
  (`DisableGivesBackRunning`).
- A wedge that is refused marks the endpoint wedged all the same (`WedgeMarksAnyway`).
- Queueing returns a variable it never assigned on one path, which the second of two queueing
  calls on a bulk endpoint takes (`EndpointFailures.UnassignedExactly`, `SecondQueueUnassigned`).
- Disabling, enabling and queueing inside a completion callback makes two START TRANSFER
  commands follow one another (`EndpointStart.ReEnableOverlaps`).
- The stall of the control endpoint is asked for while the request is still listed, and is
  refused then, so an IN data stage that comes up short is restarted without a STALL handshake
  (`Ep0Details.ShortInIsNotStalled`); `Ep0Proofs.StallsOfEveryTransfer` says of every transfer
  which was stalled.
- A restart of endpoint zero forgets that an endpoint is busy without ending its transfer: on OUT
  the SETUP stage is started over it, on IN it stays with the controller
  (`Ep0Starts.StartsExactly`, `RestartLeaves`).
- A setup callback that halts endpoint zero and then asks for a delay leaves the delay to the next
  transfer, whose data stage is not started (`Ep0Status.StepForgetsExactly`, `QueueStartsData`).
- A halt from the callback of an IN data stage behind which a zero-length packet is due makes both
  physical endpoints busy (`Ep0Proofs.HaltBreaksExactly`).
- Cutting a chained OUT data stage short leaves the TRB index at 1 (`CutChainMisplaces`).
- The clean-up slot formula skips one link TRB only; that suffices because no request is
  wider than the ring (`TrbRing.CleanupSlotLimit`).
- If the pullup operation fails when the last function is activated, the gadget counts as
  connected and active with its line off (`Pullup.StepExact`); a connect that succeeds, or
  deactivating and activating again, restores it.

## Model

| member | source | states |
|---|---|---|
| `TrbRing.WalksAgree` | usb_device_driver/udc/dwc3/gadget.c:2222-2228 | The slot formula of clean-up, i increments of the ring index and the controller following 1024 physical TRBs through the link TRB all reach the same slot, never the link, for every start slot and every TRB of a request that fits the ring |
| `TrbRing.IncByIsRingSlot` | usb_device_driver/udc/dwc3/gadget.c:151-166 | n increments of an index land n slots further round a ring of 1023 |
| `TrbRing.HwWalkIsRingSlot` | usb_device_driver/udc/dwc3/gadget.c:600-608 | The controller, starting anywhere on a pool whose only link TRB is the last, walks the ring of 1023 |
| `TrbRing.CleanupSlotLimit` | usb_device_driver/udc/dwc3/gadget.c:2222-2226 | The slot formula is right if and only if start plus offset stays below two laps; right at two laps it gives the link TRB |
| `TrbRing.TrbsLeftExact` | usb_device_driver/udc/dwc3/gadget.c:891-919 | The free-slot computation (32-bit wrap, mask of 1024, correction for the link) is 1023 minus the used slots if and only if the ring is neither empty nor full or the ownership bit before enqueue tells which |
| `TrbRing.RingSlotInjective` | usb_device_driver/udc/dwc3/gadget.c:151-166 | Offsets below one lap reach different slots |
| `EndpointRing.PrepareKeepsInvariant` | usb_device_driver/udc/dwc3/gadget.c:891-1051 | A batch keeps the ring invariant (distance of the indices is the width of the queued requests modulo 1023, total at most 1023) if and only if a full ring shows its ownership bit, or there is nothing that fits an empty ring |
| `EndpointRing.PrepareKeeps` | usb_device_driver/udc/dwc3/gadget.c:928-1051 | On a ring on which a full ring is seen as full, a batch leaves the link TRB and every TRB in use as they were, keeps queued requests in consecutive slots in list order if they were, and has the batch shape |
| `EndpointRing.PrepareFromShape` | usb_device_driver/udc/dwc3/gadget.c:851-867 | In every batch, whatever the state of the ring, CHN is on all but the last TRB of each request and LST on the last TRB of the batch at most, exactly when the batch used up the free slots or emptied the list with a request of other than one buffer, never on isochronous endpoints |
| `EndpointRing.BatchAlwaysShaped` | usb_device_driver/udc/dwc3/gadget.c:928-1051 | Preparing has that shape and moves requests in order on any ring, also after cancelling in any order and when a full ring is taken for an empty one |
| `EndpointRing.PrepareFromWrites` | usb_device_driver/udc/dwc3/gadget.c:800-874 | Whatever the state of the ring, a batch writes only as many slots from enqueue on as it was told are free |
| `EndpointRing.PrepareFromMoves` | usb_device_driver/udc/dwc3/gadget.c:940-954 | A batch, on any ring, moves requests from the head of the pending list to the tail of the queued list, in order, changing only start slot and queued mark |
| `EndpointRing.PrepareProgress` | usb_device_driver/udc/dwc3/gadget.c:936-954 | The head of the pending list gets its TRBs if and only if it fits the free slots and an empty ring shows no stale ownership bit |
| `EndpointRing.FreeSlotsExact` | usb_device_driver/udc/dwc3/gadget.c:891-919 | On a ring that keeps the invariant the driver counts the free slots right if and only if full and empty look as they are; otherwise it counts a full ring as empty |
| `EndpointRing.PrepareFromExhausts` | usb_device_driver/udc/dwc3/gadget.c:936-1049 | A batch goes on until nothing is pending or the head of the pending list does not fit what the requests moved have left of the slots counted as free |
| `EndpointRing.SetUpKeepsPool` | usb_device_driver/udc/dwc3/gadget.c:800-874 | Setting up a request writes exactly its own slots, one TRB per buffer |
| `EndpointRing.SlotsDisjoint` | usb_device_driver/udc/dwc3/gadget.c:814-819 | Slots of different queued requests, and of different buffers of one, are different |
| `EndpointRing.TakeOffKeeps` | usb_device_driver/udc/dwc3/gadget.c:254-275 | Giving back any queued request keeps the ring invariant and frees exactly its width |
| `EndpointRing.TakeOffKeepsSlots` | usb_device_driver/udc/dwc3/gadget.c:1344-1357 | Giving back the k-th queued request keeps requests in consecutive slots from dequeue on if and only if k is 0 |
| `EndpointRing.CancelExposesHead` | usb_device_driver/udc/dwc3/gadget.c:1344-1357 | After cancelling a request behind the head, the first TRB of the head lies among the slots counted as free |
| `EndpointRing.CancelOverwritesHead` | usb_device_driver/udc/dwc3/gadget.c:1344-1357 | Then the next pending request that fits those slots and reaches that TRB is written over it, the head still being queued |
| `EndpointFailures.StuckForGood` | usb_device_driver/udc/dwc3/gadget.c:881-919 | Once the ring is empty and the TRB before enqueue still the controller's, then over every run, until the endpoint is enabled anew or just that TRB is retired, nothing is put on the ring and no START or UPDATE TRANSFER is issued |
| `EndpointFailures.StepStuck` | usb_device_driver/udc/dwc3/gadget.c:881-919 | Every other step keeps that state |
| `EndpointFailures.StuckExactly` | usb_device_driver/udc/dwc3/gadget.c:891-919 | An empty ring prepares nothing, whatever is pending, if and only if it is in that state |
| `EndpointFailures.QueueStartsExactly` | usb_device_driver/udc/dwc3/gadget.c:1206-1211 | On an idle bulk endpoint with nothing listed, a request that fits starts a transfer if and only if the ring is not in that state |
| `EndpointFailures.CancelLeavesRingStuck` | usb_device_driver/udc/dwc3/gadget.c:1344-1357 | Cancelling the only queued request leads there if and only if the controller still owns its last TRB |
| `EndpointFailures.CleanLeavesRingStuck` | usb_device_driver/udc/dwc3/gadget.c:2215-2241 | So does clean-up when it gives back the only queued request |
| `EndpointFailures.DisableLeavesRingStuck` | usb_device_driver/udc/dwc3/gadget.c:632-645 | And so does a disable when it gives back the only queued request |
| `EndpointFailures.ShortPacketLeavesRingStuck` | usb_device_driver/udc/dwc3/gadget.c:2207-2241 | A run from the start gets there with a short packet in the first of the several TRBs of a request |
| `EndpointFailures.FullRingIsOverrun` | usb_device_driver/udc/dwc3/gadget.c:891-919 | A run from the start in which a request of 1023 buffers is still queued when the TRBs of the next are written over its own |
| `EndpointFailures.UpdateOverruns` | usb_device_driver/udc/dwc3/gadget.c:1082-1088 | Adding TRBs to a running transfer on a full ring whose last TRB was retired overwrites the first TRB of the head and breaks the ring invariant |
| `EndpointFailures.CancelOverwritesByRun` | usb_device_driver/udc/dwc3/gadget.c:1344-1357 | A run from the start in which the second of two requests on the ring is cancelled, and the last TRB of a third is written over the first |
| `EndpointFailures.UnassignedExactly` | usb_device_driver/udc/dwc3/gadget.c:1166-1276 | Queueing returns the variable it never assigned if and only if the request is accepted, the endpoint is not an idle bulk one, nothing is marked pending, it is not a busy isochronous one without a missed interval, and it is not stream capable |
| `EndpointFailures.QueueReturns` | usb_device_driver/udc/dwc3/gadget.c:1278-1316 | A request is accepted if and only if the endpoint has its descriptor, the request is its own and the pullup is on; then the caller is told 0, or the value never assigned, and never that the endpoint is busy; else nothing changes and the caller is told why |
| `EndpointFailures.SecondQueueUnassigned` | usb_device_driver/udc/dwc3/gadget.c:1166-1276 | A run from the start after which the next queueing call returns it: one request is running on a bulk endpoint |
| `EndpointFree.RunPreparesWhatFits` | usb_device_driver/udc/dwc3/gadget.c:891-954 | Over every run from the start that gives back only requests whose TRBs were all retired, cancels only the head and sees a full ring as full: while the endpoint is not being disabled, free slots are counted right, and the head of the pending list gets its TRBs if and only if it fits |
| `EndpointFree.RunKeepsFree` | usb_device_driver/udc/dwc3/gadget.c:928-1051 | Over every such run, while the endpoint is not being disabled, the controller owns TRBs of queued requests only |
| `EndpointFree.StepKeepsFree` | usb_device_driver/udc/dwc3/gadget.c:254-275 | Every such step keeps that |
| `EndpointRuns.StepKeepsRing` | usb_device_driver/udc/dwc3/gadget.c:254-275 | Every step (queue, prepare, kick, retire, clean-up, each giveback of a disable, cancel, enable) that sees a full ring as full, and enables only with nothing on the ring, keeps the ring invariant, and all but cancelling behind the head keep requests in consecutive slots |
| `EndpointRuns.EnableKeepsInvariant` | usb_device_driver/udc/dwc3/gadget.c:592-594 | Enabling keeps the ring invariant if and only if nothing is on the ring, or as much as fills it |
| `EndpointRuns.RunKeepsRing` | usb_device_driver/udc/dwc3/gadget.c:928-1051 | Over every run from the start in which a full ring is seen as full and the endpoint enabled only with nothing on the ring, the ring invariant and the link TRB stay |
| `EndpointRuns.RunKeepsSlots` | usb_device_driver/udc/dwc3/gadget.c:928-1051 | Over every such run that cancels only head requests, queued requests occupy consecutive slots in list order starting at dequeue |
| `EndpointRuns.CleanStepTakesOff` | usb_device_driver/udc/dwc3/gadget.c:2207-2241 | A turn of clean-up gives back exactly the first queued request and advances dequeue by its whole width, however few of its TRBs were read back |
| `EndpointRuns.RunGivesBackInOrder` | usb_device_driver/udc/dwc3/gadget.c:632-652 | Over every run from the start without cancellation, in which a disable gives back a pending request only while the ring is empty, accepted requests are given back once each and in order: given back ++ queued ++ pending is the sequence accepted |
| `EndpointRuns.RemoveInOrderExactly` | usb_device_driver/udc/dwc3/gadget.c:632-652 | A giveback of a disable keeps that order if and only if it is not of a pending request while another is on the ring |
| `EndpointRuns.RunConserves` | usb_device_driver/udc/dwc3/gadget.c:1318-1357 | Over every run from the start, cancellation included, the multiset accepted is the multiset given back plus what is still listed |
| `EndpointRuns.StepSameOrder` | usb_device_driver/udc/dwc3/gadget.c:2207-2241 | No step but queueing, cancelling and a giveback out of turn changes the order of what is given back and listed |
| `EndpointStart.RunStartsOneAtATime` | usb_device_driver/udc/dwc3/gadget.c:1053-1130 | Over every run from the start with completions only for started transfers and no re-enabling inside a completion callback, between two START TRANSFER commands there is a completion, an END TRANSFER or a disable |
| `EndpointStart.StepOne` | usb_device_driver/udc/dwc3/gadget.c:1206-1266 | Under the same assumptions no path (queue, pending, not-ready, completion) starts a transfer over an outstanding one |
| `EndpointStart.OneMore` | usb_device_driver/udc/dwc3/gadget.c:1068-1130 | A command keeps one transfer at a time if and only if it does not start over an outstanding one |
| `EndpointStart.FinishOverlaps` | usb_device_driver/udc/dwc3/gadget.c:2283-2327 | The end of a completion event starts over an outstanding transfer if and only if a callback has started one and there is something to start |
| `EndpointStart.ReEnableOverlaps` | usb_device_driver/udc/dwc3/gadget.c:2283-2327 | A callback that disables, enables and queues any request that fits the ring makes two starts follow one another |
| `EndpointStart.DisableEmpties` | usb_device_driver/udc/dwc3/gadget.c:662-689 | A disable whose completion callbacks do nothing leaves nothing listed and the busy and pending flags clear |
| `EndpointRemoval.LoadsExactly` | usb_device_driver/udc/dwc3/gadget.c:1206-1266 | With nothing on the ring, a step puts something there if and only if it goes on to prepare, the request next in line fits, and the ring is not stuck |
| `EndpointRemoval.CallbackLeavesExactly` | usb_device_driver/udc/dwc3/gadget.c:632-652 | A request queued from a callback of the second loop of a disable is left listed, it or one pending before it, when the disable has ended, if and only if that puts something on the ring |
| `EndpointRemoval.EndLeaves` | usb_device_driver/udc/dwc3/gadget.c:640-652 | When a disable ends nothing is pending, and something can be on the ring only if it was in its second loop |
| `EndpointRemoval.RunEndsDisables` | usb_device_driver/udc/dwc3/gadget.c:632-689 | Over every run from the start in which nothing is put on the ring while a disable is in its second loop: every disable that ended left nothing listed, and the ring invariant survives every enable |
| `EndpointRemoval.StepKeepsRemoval` | usb_device_driver/udc/dwc3/gadget.c:632-652 | Every such step keeps that |
| `EndpointRemoval.DisableLeavesRequest` | usb_device_driver/udc/dwc3/gadget.c:632-689 | A run from the start in which the callback of the last giveback queues a request: the disable ends with it on the ring and its transfer started, and after enabling the ring invariant is lost |
| `EndpointRemoval.DisableReorders` | usb_device_driver/udc/dwc3/gadget.c:632-652 | A run from the start in which a request queued from such a callback is given back before one accepted earlier |
| `EndpointStart.FirstQueueStarts` | usb_device_driver/udc/dwc3/gadget.c:1206-1211 | Queueing a request that fits the ring on a freshly enabled bulk endpoint starts a transfer at once |
| `EndpointCommands.RunStartsAtDequeue` | usb_device_driver/udc/dwc3/gadget.c:1079-1112 | Over every run of the kind RunKeepsSlots is about, every step: a START TRANSFER it logs names the dequeue index, the oldest TRB not given back, with a request there, and from that slot the controller comes to every TRB of every queued request in order |
| `EndpointCommands.StepStartsAtOldest` | usb_device_driver/udc/dwc3/gadget.c:1079-1112 | On any ring, requests cancelled in any order included, a step starts a transfer only at the first slot of the request that has been on the ring longest |
| `EndpointCommands.RunKnowsHeld` | usb_device_driver/udc/dwc3/gadget.c:1126-1130 | Over every run from the start, on every kind of endpoint, in which started transfers get an index other than 0: the driver holds a resource index if and only if a started transfer has neither completed nor been ended by END TRANSFER |
| `EndpointCommands.StepKnows` | usb_device_driver/udc/dwc3/gadget.c:2474-2515 | Every such step keeps that |
| `EndpointCommands.StepOutstandingExactly` | usb_device_driver/udc/dwc3/gadget.c:632-689 | What is outstanding (disabling counting as an end) and what the driver holds agree after a step if and only if it does not end a disable while a resource is held |
| `EndpointCommands.RunOutstanding` | usb_device_driver/udc/dwc3/gadget.c:1053-1130 | Over every such run in which no disable ends so, a transfer is outstanding if and only if the driver holds its resource |
| `EndpointCommands.RunStopsBeforeTaking` | usb_device_driver/udc/dwc3/gadget.c:1344-1357 | Over every run of RunKnowsHeld: when a cancellation, or the first giveback of a disable, has given back a request of the ring, no transfer is held or outstanding |
| `EndpointCommands.DisableKeepsTransfer` | usb_device_driver/udc/dwc3/gadget.c:632-645 | A run from the start in which a disable begins with nothing on the ring: the endpoint ends disabled with its transfer neither completed nor ended |
| `EndpointCommands.DisableGivesBackRunning` | usb_device_driver/udc/dwc3/gadget.c:637-643 | A run from the start in which a request queued from a callback of the first loop of a disable is given back while its transfer runs |
| `EndpointCommands.RunStalls` | usb_device_driver/udc/dwc3/gadget.c:1365-1405 | Over every run from the start: the stall flag is set if and only if the controller was told to stall and not to end it, and a halt is granted if and only if the endpoint is not isochronous and, for a stall, nothing is listed and an IN endpoint is idle; then it does what was asked, else nothing |
| `EndpointCommands.WedgeMarksAnyway` | usb_device_driver/udc/dwc3/gadget.c:1423-1441 | A wedge is granted as a stall is, but the endpoint is marked wedged even when it is refused, until a stall is ended |
| `EndpointPromises.NotReadyThenQueue` | usb_device_driver/udc/dwc3/gadget.c:1212-1244 | A not-ready event that finds nothing listed, then a request: its transfer is started at enqueue, on bulk and on interrupt endpoints |
| `EndpointPromises.InterruptStartsExactly` | usb_device_driver/udc/dwc3/gadget.c:1212-1244 | On an idle interrupt endpoint queueing starts the request if and only if such an event came first, and that is then forgotten |
| `EndpointPromises.DryIsMarked` | usb_device_driver/udc/dwc3/gadget.c:2252-2262 | An isochronous stream that ran dry with nothing pending is marked, by the event that emptied the ring and by a not-ready event |
| `EndpointPromises.DryQueueEnds` | usb_device_driver/udc/dwc3/gadget.c:1224-1237 | The next request then ends what runs, no transfer being held, and waits for the next not-ready event |
| `EndpointPromises.UnderrunEnds` | usb_device_driver/udc/dwc3/gadget.c:2263-2266 | With more pending, the event that emptied the ring does so at once |
| `EndpointPromises.WaitingStarts` | usb_device_driver/udc/dwc3/gadget.c:2369-2371 | And the not-ready event starts the stream with the request that waits |
| `EndpointPromises.CompletionBegins` | usb_device_driver/udc/dwc3/gadget.c:2355-2365 | XferComplete releases the resource, no transfer being held any more, and begins clean-up if and only if the endpoint is not isochronous |
| `EndpointPromises.StepAnnounces` | usb_device_driver/udc/dwc3/gadget.c:1099-1124 | No step puts a request on the ring without a START or UPDATE TRANSFER as its last command |
| `EndpointPromises.StepKnowsEnding` | usb_device_driver/udc/dwc3/gadget.c:2512-2514 | On bulk and interrupt endpoints the command-busy flag is set by a step if and only if it logged END TRANSFER, and stays until the command completes or the endpoint is enabled anew |
| `EndpointBytes.WalkCounts` | usb_device_driver/udc/dwc3/gadget.c:2194 | What reading back n TRBs accumulates: n times the request length minus what was left of each, modulo 2^32 |
| `EndpointBytes.BytesAreProgrammed` | usb_device_driver/udc/dwc3/gadget.c:823 | The bytes a request is for are what the driver puts into its TRBs: the low 24 bits of each length |
| `EndpointBytes.ByteCountExact` | usb_device_driver/udc/dwc3/gadget.c:2194 | The byte count of a request read back whole is the number of bytes moved, those its TRBs were for less what is left, if and only if that fits 32 bits and the length of the request once per TRB exceeds the bytes of its TRBs by a multiple of 2^32 |
| `EndpointBytes.OneTrbCount` | usb_device_driver/udc/dwc3/gadget.c:2194 | A request of one TRB reports exactly the bytes moved if and only if its length is what that TRB is for; without a buffer chain, if and only if it is below 2^24 |
| `EndpointBytes.LongRequestCount` | usb_device_driver/udc/dwc3/gadget.c:2194 | A request of 2^24 bytes without a buffer chain programs a TRB for none and reports all of them |
| `EndpointBytes.TwoBuffersCount` | usb_device_driver/udc/dwc3/gadget.c:2194 | A request of two buffers of 100 bytes, all moved, reports twice the length it gives: wrong for 200, wrong for 0 |
| `EndpointReports.RunReports` | usb_device_driver/udc/dwc3/gadget.c:254-291 | Over every run from the start, everything listed is in progress with no bytes counted, and every step adds to the requests given back exactly: ECONNRESET and 0 bytes for a request cancelled, ESHUTDOWN and 0 bytes for the one a disable gives back next, the status of the event and the count of its own TRBs for one cleaned up, and nothing else |
| `EndpointReports.StepReports` | usb_device_driver/udc/dwc3/gadget.c:254-291 | Every step from such a state |
| `EndpointReports.GivenCountExact` | usb_device_driver/udc/dwc3/gadget.c:2194 | The new last entry of what was given back carries the number of bytes moved if and only if that fits 32 bits and the length of the request once per TRB exceeds the bytes of its TRBs by a multiple of 2^32 |
| `EndpointReports.GivenOneTrb` | usb_device_driver/udc/dwc3/gadget.c:2194 | For a request of one TRB, if and only if its length is what that TRB is for; without a buffer chain, if and only if it is below 2^24 |
| `EndpointReports.CleanReports` | usb_device_driver/udc/dwc3/gadget.c:2207-2241 | A turn of clean-up reports ECONNRESET on a bus error and else 0, also when an IN transfer came up short, and the number of TRBs read back times the length minus what was left of them, modulo 2^32 |
| `EndpointReports.CancelReports` | usb_device_driver/udc/dwc3/gadget.c:1318-1362 | A cancellation gives back the request named with ECONNRESET and 0 bytes if and only if it is listed, and else changes nothing and returns an error |
| `EndpointReports.RemoveReports` | usb_device_driver/udc/dwc3/gadget.c:632-652 | A disable gives back its next request with ESHUTDOWN and 0 bytes |
| `EndpointCleanup.DrainedExactly` | usb_device_driver/udc/dwc3/gadget.c:2207-2241 | Clean-up run to its end gives back exactly the requests up to the first with a TRB that ends the event, in order, or all if there is none, and advances dequeue by their width |
| `EndpointCleanup.MissedExactly` | usb_device_driver/udc/dwc3/gadget.c:2145-2182 | On IN endpoints an interval counts as missed after clean-up if and only if a TRB read back says so, or it did before, and bytes were left of every TRB from there on |
| `EndpointMarks.RunKeepsTrbs` | usb_device_driver/udc/dwc3/gadget.c:800-874 | Over every run of the kind RunKeepsSlots is about, every TRB of every queued request is for that request's own buffer, chained and marked for interrupt as prepared, until the request is given back |
| `EndpointMarks.StepDescribes` | usb_device_driver/udc/dwc3/gadget.c:800-874 | Every such step keeps that |
| `EndpointMarks.RunGivesBackThrough` | usb_device_driver/udc/dwc3/gadget.c:2196-2204 | Over every such run, an event a TRB asked for (no word of the end of the transfer, nor on OUT of a short packet) gives back exactly the requests up to the first on the ring that asks for an interrupt |
| `Endpoint.Endpoint.constructor` | usb_device_driver/udc/dwc3/gadget.c:2014-2075 | The start state of the runs: disabled, nothing listed, both indices 0 |
| `Endpoint.Endpoint.CalcTrbsLeft` | usb_device_driver/udc/dwc3/gadget.c:891-919 | Computes FreeSlots of the ring |
| `Endpoint.Endpoint.PrepareOneTrb` | usb_device_driver/udc/dwc3/gadget.c:800-874 | Writes one TRB at enqueue, every field of it, and moves the request to the queued list with its first TRB |
| `Endpoint.Endpoint.PrepareBuffers` | usb_device_driver/udc/dwc3/gadget.c:957-1031 | The loop over the buffers of one request computes SetUp and tells if the batch ends |
| `Endpoint.Endpoint.PreparePlain` | usb_device_driver/udc/dwc3/gadget.c:1032-1049 | The branch of a request with no buffer chain computes SetUp and tells if the batch ends |
| `Endpoint.Endpoint.PrepareTrbs` | usb_device_driver/udc/dwc3/gadget.c:928-1051 | The nested loops over the pending list compute Prepare |
| `Endpoint.Endpoint.Giveback` | usb_device_driver/udc/dwc3/gadget.c:254-291 | Advances dequeue once per TRB of the request, takes it off its list and records it as given back |
| `Endpoint.Endpoint.StopActiveTransfer` | usb_device_driver/udc/dwc3/gadget.c:2474-2515 | END TRANSFER and the flags, if a transfer resource is held |
| `Endpoint.Endpoint.RemoveAllRequests` | usb_device_driver/udc/dwc3/gadget.c:632-652 | Both loops, each giveback followed by whatever calls its completion callback makes: computes Removed up to its end |
| `Endpoint.Endpoint.KickTransfer` | usb_device_driver/udc/dwc3/gadget.c:1053-1130 | Prepares, and issues START or UPDATE TRANSFER, or marks the endpoint pending: computes Kick with all its results |
| `Endpoint.Endpoint.Queue` | usb_device_driver/udc/dwc3/gadget.c:1166-1316 | Computes EpQueue: every refusal and every branch, and the one that returns a variable never assigned |
| `Endpoint.Endpoint.Dequeue` | usb_device_driver/udc/dwc3/gadget.c:1318-1362 | Computes EpDequeue: pending first, then queued after END TRANSFER, else an error |
| `Endpoint.Endpoint.SetHalt` | usb_device_driver/udc/dwc3/gadget.c:1365-1405 | Stalls or ends a stall: refused on isochronous endpoints, and, for other than protocol stalls, while anything is listed or an IN endpoint is busy |
| `Endpoint.Endpoint.SetWedge` | usb_device_driver/udc/dwc3/gadget.c:1423-1441 | Marks the endpoint wedged and stalls it |
| `Endpoint.Endpoint.Disable` | usb_device_driver/udc/dwc3/gadget.c:662-689 | Computes EpDisable, callbacks included: everything given back, a stall ended, all flags but one cleared |
| `Endpoint.Endpoint.ReleaseEndpoint` | usb_device_driver/udc/dwc3/gadget.c:671-683 | What follows the loops: computes EndDisable |
| `Endpoint.Endpoint.Enable` | usb_device_driver/udc/dwc3/gadget.c:575-609 | Computes EpEnable: indices reset, pool cleared, link TRB in its last slot |
| `Endpoint.Endpoint.CleanupDoneTrb` | usb_device_driver/udc/dwc3/gadget.c:2129-2205 | Reads back one TRB: byte count, missed isochronous interval, whether the event ends here |
| `Endpoint.Endpoint.ReadSlot` | usb_device_driver/udc/dwc3/gadget.c:2222-2232 | The i-th TRB of a request, and the rest of the walk |
| `Endpoint.Endpoint.ReadBack` | usb_device_driver/udc/dwc3/gadget.c:2221-2234 | The inner clean-up loop computes WalkTrbs |
| `Endpoint.Endpoint.CleanupRequest` | usb_device_driver/udc/dwc3/gadget.c:2215-2241 | One turn of the outer clean-up loop computes CleanStep |
| `Endpoint.Endpoint.CleanupAndCall` | usb_device_driver/udc/dwc3/gadget.c:2215-2241 | One turn of the clean-up loop and what its completion callback calls |
| `Endpoint.Endpoint.CleanupDoneReqs` | usb_device_driver/udc/dwc3/gadget.c:2207-2241 | The clean-up loop, callbacks included, computes Drained |
| `EndpointCallbacks.DisableIsRun` | usb_device_driver/udc/dwc3/gadget.c:632-689 | A disable as the class computes it, with any calls from its callbacks, is a run of steps, so the theorems about runs hold for it |
| `EndpointCallbacks.DrainedIsRun` | usb_device_driver/udc/dwc3/gadget.c:2207-2241 | So is clean-up |
| `Endpoint.Endpoint.SettleFlags` | usb_device_driver/udc/dwc3/gadget.c:2243-2288 | The isochronous underrun case and the busy flag: computes Settle |
| `Endpoint.Endpoint.TransferComplete` | usb_device_driver/udc/dwc3/gadget.c:2271-2328 | Clean-up with its callbacks, flags and the next kick |
| `Endpoint.Endpoint.XferNotReadyEvent` | usb_device_driver/udc/dwc3/gadget.c:2369-2390 | Computes NotReady |
| `Endpoint.Endpoint.XferCompleteEvent` | usb_device_driver/udc/dwc3/gadget.c:2355-2365 | Releases the transfer resource and, unless isochronous, completes the transfer |
| `EventRing.RefinesFifo` | usb_device_driver/udc/dwc3/gadget.c:2993-3113 | From the empty state, over every interleaving of controller, top half and bottom half, events handled are the first ones produced, in order, none lost and none twice; what is missing is exactly what is in the two buffers |
| `EventRing.StepKeeps` | usb_device_driver/udc/dwc3/gadget.c:2993-3113 | Every step keeps handled ++ cache window ++ unread ring equal to the bytes of all events produced, and the position aligned and below 256 |
| `EventRing.InterruptKeeps` | usb_device_driver/udc/dwc3/gadget.c:3066-3113 | The top half moves the whole unread window to the cache without changing that stream, across the end of the buffer |
| `EventRing.HandleKeeps` | usb_device_driver/udc/dwc3/gadget.c:2993-3036 | Handling one event moves it from the cache window to the handled ones |
| `EventRing.DrainedMeansHandled` | usb_device_driver/udc/dwc3/gadget.c:2993-3113 | When only the controller can move, everything produced has been handled |
| `EventRing.BottomHalfKeeps` | usb_device_driver/udc/dwc3/gadget.c:2993-3036 | A bottom half run to its end handles exactly the window it was given, whatever the controller stores meanwhile |
| `EventRing.EventBuffer.CopyWindow` | usb_device_driver/udc/dwc3/gadget.c:3102-3106 | The two copies of a wrapping window give the cache of the model |
| `EventRing.EventBuffer.CheckEventBuf` | usb_device_driver/udc/dwc3/gadget.c:3066-3113 | Computes TopHalf in place, asks for the bottom half exactly when there is something, masks and acknowledges |
| `EventRing.EventBuffer.HandleEvent` | usb_device_driver/udc/dwc3/gadget.c:3009-3023 | Handles the event at lpos and advances lpos by 4 modulo 256 |
| `EventRing.EventBuffer.Turn` | usb_device_driver/udc/dwc3/gadget.c:3006-3024 | One turn of the loop while the controller stores events |
| `EventRing.EventBuffer.ProcessEventBuf` | usb_device_driver/udc/dwc3/gadget.c:2993-3036 | The bottom half in place computes BottomHalf, clears the pending mark and unmasks |
| `Ep0Proofs.StagesOfEveryTransfer` | usb_device_driver/udc/dwc3/ep0.c:756-1129 | Over every run from the start in which what completes is what was started last, and the gadget driver does not halt the endpoint from the callback of an IN data stage behind which a zero-length packet is due: each transfer has started SETUP STATUS2, or SETUP DATA, at most one zero-length DATA, STATUS3, or a part of that if it was cut; at most one endpoint is busy and at most one request listed (section 8.5.3 of USB 2.0) |
| `Ep0Proofs.HaltBreaksExactly` | usb_device_driver/udc/dwc3/ep0.c:879-892 | A halt from the callback of a data stage loses that, both endpoints being busy after the return, if and only if it is the halt left out there |
| `Ep0Proofs.HaltBreaksByRun` | usb_device_driver/udc/dwc3/ep0.c:879-892 | A run from the start that gets there |
| `Ep0Starts.StagesWithoutLeftovers` | usb_device_driver/udc/dwc3/ep0.c:756-1129 | The same, without any assumption about what completes, over runs that never restart while the controller holds a transfer |
| `Ep0Proofs.StallsOfEveryTransfer` | usb_device_driver/udc/dwc3/ep0.c:260-283 | Over every run of the kind StagesOfEveryTransfer is about, which transfers were answered with a STALL: one cut before its second stage exactly if no request had been queued for it; a three-stage one cut around its first data stage exactly if its request had been given back, cut later always; a two-stage one cut in its status stage exactly if no request waits; a completed one never |
| `Ep0Proofs.CutIsProper` | usb_device_driver/udc/dwc3/ep0.c:260-276 | At a restart the stall is asked for first, and goes out exactly if no request is waiting |
| `Ep0Proofs.StepKeeps` | usb_device_driver/udc/dwc3/ep0.c:935-1129 | Every step of that kind keeps the stage invariant, which also covers the time a completion callback runs |
| `Ep0Proofs.QueueKeeps` | usb_device_driver/udc/dwc3/ep0.c:112-214 | Queueing a request while a SETUP is served keeps it: data stage at once, delayed status stage, or nothing |
| `Ep0Proofs.RestartKeeps` | usb_device_driver/udc/dwc3/ep0.c:260-283 | Stall and restart leaves a proper cut transfer and the SETUP stage armed |
| `Ep0Proofs.DataCompletes` | usb_device_driver/udc/dwc3/ep0.c:798-879 | Completion of a data stage, up to the call of the completion callback, keeps it |
| `Ep0Proofs.FinishDataKeeps` | usb_device_driver/udc/dwc3/ep0.c:879-892 | And so does what follows the callback, a zero-length packet if due, without or after a halt |
| `Ep0Proofs.StatusCompletes` | usb_device_driver/udc/dwc3/ep0.c:896-911 | Completion of a status stage, up to the call of the completion callback, keeps it |
| `Ep0Proofs.FinishStatusKeeps` | usb_device_driver/udc/dwc3/ep0.c:913-933 | And so does what follows the callback, a refused test mode included |
| `Ep0Proofs.HaltKeeps` | usb_device_driver/udc/dwc3/ep0.c:260-295 | A halt, from a completion callback or not, keeps it |
| `Ep0Proofs.StatusNotReadyKeeps` | usb_device_driver/udc/dwc3/ep0.c:1102-1127 | XferNotReady(STATUS) keeps it, delayed or not |
| `Ep0Details.RunKeepsOpposite` | usb_device_driver/udc/dwc3/ep0.c:154-168 | With a conforming host every status stage of every run of that kind goes opposite to the data stage, IN if there is none, also where the driver picks the endpoint |
| `Ep0Details.SlotsExact` | usb_device_driver/udc/dwc3/ep0.c:52-110 | A step keeps every stage starting at slot 0, where the controller reads, if and only if it does not cut a two-TRB data stage short |
| `Ep0Details.RunAtZero` | usb_device_driver/udc/dwc3/ep0.c:848-861 | Over every run of that kind that does not, every stage of every transfer starts at slot 0 |
| `Ep0Details.CutChainMisplaces` | usb_device_driver/udc/dwc3/ep0.c:821-829 | Cutting a two-TRB data stage short leaves the TRB index at 1 |
| `Ep0Details.ShortInIsNotStalled` | usb_device_driver/udc/dwc3/ep0.c:875-878 | When an IN data stage comes up short the stall is refused, and the transfer is cut without one |
| `Ep0Details.RunUnmarked` | usb_device_driver/udc/dwc3/ep0.c:260-283 | Over every run from the start, endpoint zero is never left marked as stalled after a restart |
| `Ep0Details.SecondIsRefused` | usb_device_driver/udc/dwc3/ep0.c:230-234 | A request queued while another is listed changes nothing |
| `Ep0Details.WrongDirectionEnds` | usb_device_driver/udc/dwc3/ep0.c:1091-1100 | A data stage under way when the host asks for the other direction is ended by END TRANSFER |
| `Ep0Starts.StartsExactly` | usb_device_driver/udc/dwc3/ep0.c:260-283 | From a state in which exactly the busy endpoints hold a transfer and none was ever started over another, a step leads to one if and only if it does not restart while the controller holds a transfer |
| `Ep0Starts.RunStartsOnce` | usb_device_driver/udc/dwc3/ep0.c:52-110 | Over every run from the start without such a restart, at most one START TRANSFER is outstanding per physical endpoint, and it is one the driver knows |
| `Ep0Starts.RestartsThere` | usb_device_driver/udc/dwc3/ep0.c:260-283 | The states named as those of a restart are those the step restarts in |
| `Ep0Starts.RestartLeaves` | usb_device_driver/udc/dwc3/ep0.c:260-283 | After a restart the SETUP stage has been started over a transfer if and only if the controller held one on OUT, and a transfer it held on IN is still there, unknown to the driver |
| `Ep0Starts.WrongDirectionOverlaps` | usb_device_driver/udc/dwc3/ep0.c:1091-1100 | A data event in the wrong direction during a status stage on OUT starts the SETUP stage over it |
| `Ep0Starts.HaltOverlapsByRun` | usb_device_driver/udc/dwc3/ep0.c:260-283 | So does a halt before anything has come from the host |
| `Ep0Details.DelayedStatusOnce` | usb_device_driver/gadget/composite.c:2308-2333 | With k functions delaying, in every order of continue calls, return of setup and XferNotReady(STATUS): the status request is queued exactly from the k-th continue call on, and exactly one status stage is started, exactly when all have happened |
| `Ep0Details.SwitchStatusOnce` | usb_device_driver/gadget/composite.c:687-797 | A SET_CONFIGURATION whose functions take the new configuration, k of them delaying, reports a delayed status, and then exactly one status stage is started, once all k have continued, whatever the order of events |
| `Ep0Details.MoveStands` | usb_device_driver/udc/dwc3/ep0.c:154-168 | Where the delayed status stage stands after each of the three events, in any order |
| `Ep0.StageIsOneChain` | usb_device_driver/udc/dwc3/ep0.c:964-1021 | The TRBs of a stage make one chain closed by its last TRB, stay inside the memory they are for, and take the length of the stage, in whole packets for an OUT data stage |
| `Ep0Memory.InStageSends` | usb_device_driver/udc/dwc3/ep0.c:964-1021 | Memory having contents, the bytes the controller reads through the TRBs of an IN data stage, in order, are the first of the request's buffer, as many as the stage is long |
| `Ep0Memory.OutStage` | usb_device_driver/udc/dwc3/ep0.c:838-872 | The bytes the controller writes through the TRBs of an OUT data stage, followed by the copy out of the bounce buffer where it is used, are the first received, as many as fit, at the front of the request's buffer, whose rest is untouched; the request reports that many |
| `Ep0Memory.DirectFills` | usb_device_driver/udc/dwc3/ep0.c:1012-1018 | A stage that needs no bounce buffer puts all it receives into the request's buffer and nothing anywhere else |
| `Ep0Memory.SetupFills` | usb_device_driver/udc/dwc3/ep0.c:309-322 | The SETUP stage puts the packet into its own buffer |
| `Ep0Memory.ChainIsStage` | usb_device_driver/udc/dwc3/ep0.c:52-110 | Following the chain of a TRB pair that begins with those of a stage gives these and no more |
| `Ep0.ControlEndpoint.constructor` | usb_device_driver/udc/dwc3/ep0.c:309-322 | The driver starts with the first SETUP stage armed |
| `Ep0.ControlEndpoint.StartTrans` | usb_device_driver/udc/dwc3/ep0.c:52-110 | Does nothing on a busy endpoint; otherwise writes the TRB and, unless chained, starts the stage |
| `Ep0.ControlEndpoint.DoControlData` | usb_device_driver/udc/dwc3/ep0.c:964-1021 | Computes DoData and, on an idle endpoint, leaves exactly the TRBs of the stage from slot 0 on |
| `Ep0.ControlEndpoint.DoBouncedData` | usb_device_driver/udc/dwc3/ep0.c:981-1006 | The branch of an unaligned OUT request: sizes and TRBs of its one or two parts |
| `Ep0.ControlEndpoint.DoControlStatus` | usb_device_driver/udc/dwc3/ep0.c:1023-1052 | Computes DoStatus and writes its TRB |
| `Ep0.ControlEndpoint.OutStart` | usb_device_driver/udc/dwc3/ep0.c:309-322 | Arms the SETUP stage |
| `Ep0.ControlEndpoint.SetHalt` | usb_device_driver/udc/dwc3/gadget.c:1365-1405 | A stall of endpoint zero, refused with EAGAIN while a request is listed |
| `Ep0.ControlEndpoint.StallAndRestart` | usb_device_driver/udc/dwc3/ep0.c:260-283 | Computes Restart in place, up to the call of a completion callback if there is one |
| `Ep0.ControlEndpoint.Queue` | usb_device_driver/udc/dwc3/ep0.c:216-258 | Computes Queue: busy while a request is listed |
| `Ep0.ControlEndpoint.StartListed` | usb_device_driver/udc/dwc3/ep0.c:112-214 | What is done with the request just listed |
| `Ep0.ControlEndpoint.InspectSetup` | usb_device_driver/udc/dwc3/ep0.c:756-787 | Number and direction of the stages from wLength and bRequestType, or a restart when not connected |
| `Ep0.ControlEndpoint.SetupReturns` | usb_device_driver/udc/dwc3/ep0.c:785-796 | Failure restarts, a delay is remembered |
| `Ep0.ControlEndpoint.CompleteData` | usb_device_driver/udc/dwc3/ep0.c:798-879 | Computes CompleteData from the TRB written back, up to the call of the completion callback |
| `Ep0.ControlEndpoint.FinishData` | usb_device_driver/udc/dwc3/ep0.c:880-892 | What follows the callback: a zero-length packet if one is due |
| `Ep0.ControlEndpoint.CompleteStatus` | usb_device_driver/udc/dwc3/ep0.c:896-911 | Computes CompleteStatus, up to the call of the completion callback |
| `Ep0.ControlEndpoint.FinishStatus` | usb_device_driver/udc/dwc3/ep0.c:913-933 | What follows it: a refused test mode restarts, else the SETUP stage is armed |
| `Ep0.ControlEndpoint.CallbackReturns` | usb_device_driver/udc/dwc3/gadget.c:286-290 | The innermost completion callback returns, and the driver goes on where it was |
| `Ep0.ControlEndpoint.XferComplete` | usb_device_driver/udc/dwc3/ep0.c:935-962 | Dispatches on the phase |
| `Ep0.ControlEndpoint.XferNotReadyData` | usb_device_driver/udc/dwc3/ep0.c:1077-1100 | On the wrong direction END TRANSFER and a restart, else nothing |
| `Ep0.ControlEndpoint.EndControlData` | usb_device_driver/udc/dwc3/ep0.c:1054-1070 | END TRANSFER if the endpoint holds a resource |
| `Ep0.ControlEndpoint.XferNotReadyStatus` | usb_device_driver/udc/dwc3/ep0.c:1102-1127 | Computes NotReadyStatus |
| `Bounce.SplitCovers` | usb_device_driver/udc/dwc3/ep0.c:981-1006 | For every length not a multiple of the packet size (a power of two up to 512) the one or two TRBs cover exactly the length rounded up to packets, the first inside the buffer, the last inside the 512 bounce bytes |
| `Bounce.CompleteBounced` | usb_device_driver/udc/dwc3/ep0.c:848-871 | The byte count and the copy out of the bounce buffer, from what was left of each TRB |
| `Bounce.OutDataStage` | usb_device_driver/udc/dwc3/ep0.c:841-873 | Whatever the host sends: actual is the smaller of length and bytes received, the buffer holds exactly those bytes in order, the rest is untouched |
| `InDataStage.ClampedEndsVisibly` | usb_device_driver/gadget/composite.c:1580-1584 | For every clamped reply the host sees the end of the data stage (wLength bytes or a short packet) with the last packet sent, and not before (section 8.5.3.2 of USB 2.0) |
| `InDataStage.EndsVisiblyExactly` | usb_device_driver/udc/dwc3/ep0.c:880-892 | For a reply of any size, with the zero mark set as composite sets it, the end shows if and only if the reply is at most wLength or does not fill its last packet |
| `InDataStage.DataStagesAreSent` | usb_device_driver/udc/dwc3/ep0.c:875-892 | The data stages the control endpoint starts for a queued reply, as recorded by its own run, its completion callback returning in between, put on the wire exactly the packets of that reply, the zero-length one included, and then wait for the status stage |
| `InDataStage.ReplyEndsVisibly` | usb_device_driver/gadget/composite.c:1580-1584 | Both together: a clamped reply queued for an IN request, run through the control endpoint, ends visibly with its last packet and not before |
| `InDataStage.SetupAsksForData` | usb_device_driver/udc/dwc3/ep0.c:756-783 | The SETUP packet of an IN request with wLength leaves the control endpoint waiting for such a reply |
| `Ep0Status.StatusStartsExactly` | usb_device_driver/udc/dwc3/ep0.c:1102-1127 | A status event starts exactly one status stage, of length 0, on the endpoint it is about, STATUS3 after a data stage and else STATUS2, if and only if the driver waits for it and no delay is wanted or the delayed request is listed; else it starts nothing |
| `Ep0Status.StatusEndsTransfer` | usb_device_driver/udc/dwc3/ep0.c:896-933 | The completion of a status stage, with the return of its callback if a request was listed, adds one completed transfer with all its stages and arms the SETUP stage |
| `Ep0Status.SetupArrives` | usb_device_driver/udc/dwc3/ep0.c:756-796 | The SETUP packet decides whether a data stage follows, and which way |
| `Ep0Status.QueueStartsData` | usb_device_driver/udc/dwc3/ep0.c:112-214 | The request then queued starts a data stage of its length that way, if and only if no delay was left over from before |
| `Ep0Status.DataTransferRuns` | usb_device_driver/udc/dwc3/ep0.c:756-1129 | Every transfer with a data stage, either way, from an armed SETUP stage to the next: it starts SETUP, DATA, a zero-length DATA if one is due, STATUS3 on the endpoint the host asks on, and is counted as completed with exactly these |
| `Ep0Status.ReplyCompletes` | usb_device_driver/udc/dwc3/ep0.c:756-1129 | A clamped reply carried to the end of its transfer: the packets on the wire show the end of the data with the last of them and not before, and the transfer completes with the next SETUP armed |
| `Ep0Status.PlainTransferRuns` | usb_device_driver/udc/dwc3/ep0.c:756-1129 | A request without a data stage, handled at once: SETUP, STATUS2, completed |
| `Ep0Status.QueuedTransferRuns` | usb_device_driver/udc/dwc3/ep0.c:756-1129 | The same with a request queued for it, a delay left over or not |
| `Ep0Status.StepForgetsExactly` | usb_device_driver/udc/dwc3/ep0.c:790-791 | A step leaves a delay behind its transfer if and only if the setup callback asks for it after a halt from that callback has cut the transfer |
| `Ep0Status.RunForgetsDelays` | usb_device_driver/udc/dwc3/ep0.c:260-283 | Over every run from the start without that, no delay is left over when a SETUP stage is armed |
| `InDataStage.PacketsShape` | usb_device_driver/udc/dwc3/ep0.c:880-892 | A transfer is full packets and then the rest |
| `TxFifo.ResizeTxFifos` | usb_device_driver/udc/dwc3/gadget.c:189-252 | For at most 16 endpoints, packets up to 1024 and width at least 1: the words written decode to one region per enabled IN endpoint, end to end from 0, below 2^16, each large enough and no larger than rounding makes it |
| `TxFifo.Disjoint` | usb_device_driver/udc/dwc3/gadget.c:218-249 | Such regions are disjoint and in order |
| `LinkedLists.RingUnique` | usb_device_driver/include/list.h:24-28 | The heap determines the sequence: a head leads one list only |
| `LinkedLists.AddBetween` | usb_device_driver/include/list.h:36-46 | Four pointer writes insert an entry at a position of the sequence |
| `LinkedLists.Add` | usb_device_driver/include/list.h:55-59 | Prepends |
| `LinkedLists.AddTail` | usb_device_driver/include/list.h:69-72 | Appends |
| `LinkedLists.Del` | usb_device_driver/include/list.h:81-103 | Removes the entry at a position |
| `LinkedLists.DelInit` | usb_device_driver/include/list.h:132-136 | Removes and makes the entry a list of its own |
| `LinkedLists.TestsTell` | usb_device_driver/include/list.h:166-221 | is_last, empty and singular say exactly what they should of the sequence |
| `LinkedLists.MoveTail` | usb_device_driver/include/list.h:154-159 | Moves an entry to the end of another list, disjoint from its own, or of its own |
| `LinkedLists.Move` | usb_device_driver/include/list.h:143-147 | Moves an entry to the front of another list or of its own |
| `LinkedLists.RotateLeft` | usb_device_driver/include/list.h:204-212 | Rotates the sequence by one |
| `LinkedLists.Replace` | usb_device_driver/include/list.h:112-119 | Puts another entry in the place of one |
| `LinkedLists.Splice` | usb_device_driver/include/list.h:263-287 | Inserts one list at the front of another |
| `LinkedLists.SpliceTail` | usb_device_driver/include/list.h:294-299 | Appends one list to another |
| `LinkedLists.SpliceInit` | usb_device_driver/include/list.h:308-315 | Inserts and leaves the first list empty |
| `LinkedLists.SpliceTailInit` | usb_device_driver/include/list.h:325-332 | Appends and leaves the first list empty |
| `LinkedLists.CutPosition` | usb_device_driver/include/list.h:223-261 | Splits a list at an entry |
| `LinkedLists.ForEachSafe` | usb_device_driver/include/list.h:509-513 | A safe walk that deletes any of the entries it visits visits every original entry once, in order, ends, and leaves exactly those not deleted |
| `Composite.UnknownNumberIsIgnored` | usb_device_driver/gadget/composite.c:687-720 | set_config returns an error and changes nothing if and only if no configuration has the number |
| `Composite.ZeroUnconfigures` | usb_device_driver/gadget/composite.c:687-720 | Number 0 disables the old functions and leaves none active |
| `Composite.SwitchSucceeds` | usb_device_driver/gadget/composite.c:687-797 | Otherwise all old functions are disabled first, then set_alt(i, 0) once for each interface below next_interface_id in order, and a delayed status is reported exactly if someone asked |
| `Composite.SwitchFails` | usb_device_driver/gadget/composite.c:771-778 | A set_alt failure stops there, disables every function of the new configuration and leaves none active and no status owed |
| `Composite.NothingToDoExactly` | usb_device_driver/gadget/composite.c:697-727 | A SET_CONFIGURATION succeeds without changing anything if and only if its configuration is active and marked so already, or none is active and none asked for |
| `Composite.RepeatIsIgnored` | usb_device_driver/gadget/composite.c:697-700 | The same SET_CONFIGURATION again, after one that succeeded, does nothing and returns 0 |
| `Composite.SetInterfaceReaches` | usb_device_driver/gadget/composite.c:1671-1690 | A SET_INTERFACE calls exactly the function that took the id in the active configuration, and owes a continue call if and only if that asks for a delay |
| `Composite.AddedAreDisabled` | usb_device_driver/gadget/composite.c:259-260 | Functions added to a configuration are all there in order, and all disabled when it is left |
| `Composite.RunKeeps` | usb_device_driver/gadget/composite.c:671-836 | Over every run: interfaces are set exactly below next_interface_id, configuration numbers differ, and without an active configuration no status is owed |
| `Composite.StepKeeps` | usb_device_driver/gadget/composite.c:671-836 | Every step keeps that |
| `Composite.InterfaceIdsAreFresh` | usb_device_driver/gadget/composite.c:401-412 | An id is given if and only if one is left, is the lowest free one, and is taken afterwards, the others being as before |
| `CompositeDevice.CompositeDevice.AddConfigOnly` | usb_device_driver/gadget/composite.c:799-821 | Refuses number 0 and duplicates, else appends an empty configuration |
| `CompositeDevice.CompositeDevice.TakeInterfaceId` | usb_device_driver/gadget/composite.c:401-412 | Computes InterfaceId in place |
| `CompositeDevice.CompositeDevice.Reset` | usb_device_driver/gadget/composite.c:671-685 | The loop disables every function of the active configuration |
| `CompositeDevice.CompositeDevice.SetUpInterfaces` | usb_device_driver/gadget/composite.c:733-788 | The loop over interfaces sets up those up to the first refusal, and undoes the switch on one |
| `CompositeDevice.CompositeDevice.SetConfiguration` | usb_device_driver/gadget/composite.c:687-797 | Computes SetConfig in place |
| `CompositeDevice.CompositeDevice.Continue` | usb_device_driver/gadget/composite.c:2308-2333 | Counts one owed continue call down and queues the status at the last |
| `Enumeration.ConfigDesc` | usb_device_driver/gadget/composite.c:495-552 | Answers index i if and only if i is below the number of reachable configurations; without an OS-descriptor configuration by the i-th usable one |
| `Enumeration.CountConfigs` | usb_device_driver/gadget/composite.c:554-585 | Counts the usable configurations |
| `Enumeration.UsableIsAll` | usb_device_driver/gadget/composite.c:495-585 | The usable ones are all those that work at the speed, in list order |
| `Enumeration.Enumerate` | usb_device_driver/gadget/composite.c:495-585 | Both loops agree: index i is answered exactly below the announced count, by the i-th usable configuration |
| `Enumeration.CountAgrees` | usb_device_driver/gadget/composite.c:495-585 | With an OS-descriptor configuration, count and answers agree if and only if it is listed or does not work at the speed |
| `Enumeration.SameSpeed` | usb_device_driver/gadget/composite.c:495-585 | Both loops look at the same speed unless the link is faster than the controller is said to be |
| `Descriptors.ConfigBuf` | usb_device_driver/gadget/composite.c:434-493 | The bytes parse, by bLength, to the header and then exactly the descriptors in order; wTotalLength is the length written; nothing is written behind it; an error comes exactly when the total exceeds 1024 bytes (section 9.6.3 of USB 2.0) |
| `Descriptors.HeaderTells` | usb_device_driver/gadget/composite.c:415-455 | What a host reads in the header: the fields at their offsets, the attributes with bit 7 set, the total length if and only if it fits 16 bits, and the smallest current in units of 2 or 8 mA that is enough, if and only if that fits a byte |
| `Descriptors.ParseFlat` | usb_device_driver/gadget/config.c:29-49 | Parsing a filled buffer gives the descriptors back |
| `Descriptors.FillBuf` | usb_device_driver/gadget/config.c:29-49 | Writes all descriptors or fails, exactly when they do not fit, and nothing outside the room given |
| `Descriptors.GadgetConfigBuf` | usb_device_driver/gadget/config.c:72-108 | The same round trip for a caller-made header, with the 16-bit limit on the total |
| `Descriptors.CopyDescriptors` | usb_device_driver/gadget/config.c:123-152 | The block holds the vector of pointers, each leading to a copy of its descriptor, the null pointer behind them, and the copies end to end, filling it exactly |
| `Descriptors.PointerRoundTrip` | usb_device_driver/gadget/config.c:139-149 | A pointer written into the block reads back as the address |
| `StringTables.AttachThenLookup` | usb_device_driver/gadget/composite.c:1229-1271 | A string attached (empty if missing) is found under the id counted from the first one its table was given, in its language, whatever is attached before and after |
| `StringTables.LaterCallsKeep` | usb_device_driver/gadget/composite.c:1229-1271 | Tables attached use up disjoint ranges of ids, and stay |
| `StringTables.StringRegistry.NumberTable` | usb_device_driver/gadget/composite.c:1145-1158 | Numbers the strings of a table in order, or fails and takes no id |
| `StringTables.StringRegistry.CopyStrings` | usb_device_driver/gadget/composite.c:1161-1210 | Copies n strings of each language, a missing one as the empty string |
| `StringTables.StringRegistry.AttachStrings` | usb_device_driver/gadget/composite.c:1229-1271 | Gives every language the ids of the first, or changes nothing |
| `StringTables.StringRegistry.LookupString` | usb_device_driver/gadget/composite.c:980-999 | The first match among the tables of the language |
| `StringTables.StringRegistry.GetString` | usb_device_driver/gadget/composite.c:1067-1074 | The first match among all attached tables |
| `Pullup.AlwaysSafe` | usb_device_driver/include/gadget.h:891-1002 | Over every sequence of calls, failing ones included, the line is on only if connected and not deactivated, and deactivated means the count is positive |
| `Pullup.LineFollowsCalls` | usb_device_driver/gadget/composite.c:329-375 | With no failing call the line is on exactly when the last connect or disconnect asked for it and the deactivation count is 0 |
| `Pullup.StepExact` | usb_device_driver/gadget/composite.c:357-375 | A step leaves the line as asked for if and only if it is not the last activation with a failing pullup on a connected gadget |
| `Pullup.UsbGadget.Connect` | usb_device_driver/include/gadget.h:891-911 | Computes OnConnect in place |
| `Pullup.UsbGadget.Disconnect` | usb_device_driver/include/gadget.h:923-943 | Computes OnDisconnect in place |
| `Pullup.UsbGadget.Deactivate` | usb_device_driver/include/gadget.h:956-976 | Computes OnDeactivate in place |
| `Pullup.UsbGadget.Activate` | usb_device_driver/include/gadget.h:987-1002 | Computes OnActivate in place |
| `Pullup.UsbGadget.FunctionDeactivate` | usb_device_driver/gadget/composite.c:329-344 | Counts up unless the first deactivation fails |
| `Pullup.UsbGadget.FunctionActivate` | usb_device_driver/gadget/composite.c:357-375 | Counts down, and activates at 0 |

Two modelling choices run through the table. Requests are values in two sequences rather
than structures linked into lists, and the gadget driver queues a request that is not queued
already. Between two of its calls of a completion callback a step is atomic, although the source's
spin locks are commented out.

## Left out

- Endpoint.Endpoint.KickTransfer: endpoint commands succeed; the path that drops a request when one fails (gadget.c:1108-1122) is not modelled.
- Endpoint.Endpoint.CleanupDoneReqs: in the class a completion callback may queue, cancel and halt; one that disables or enables is a step of the runs of EndpointModel only.
- Endpoint.Endpoint.RemoveAllRequests: as CleanupDoneReqs.
- Endpoint.Endpoint.Disable: as CleanupDoneReqs.
- Endpoint.Endpoint.TransferComplete: as CleanupDoneReqs.
- Endpoint.Endpoint.XferCompleteEvent: as CleanupDoneReqs.
- Endpoint.Endpoint.Dequeue: requests are found by their id, so a request structure queued twice, or on two endpoints, is not modelled.
- Endpoint.Endpoint.Enable: the endpoint configuration commands and a call for an endpoint that is enabled already (which only reconfigures it) are not modelled.
- Endpoint.Endpoint.XferNotReadyEvent: the microframe an isochronous transfer starts in is not modelled.
- EndpointRuns.RunKeepsRing: assumes that a full ring is seen as full whenever TRBs are added to a running transfer, and that the endpoint is enabled only with nothing on the ring; without that the invariant fails, as PrepareKeepsInvariant and EnableKeepsInvariant say exactly. RunEndsDisables says when the second holds.
- EndpointRuns.RunGivesBackInOrder: assumes that a disable gives back a pending request only while the ring is empty; RemoveInOrderExactly says that the order is lost exactly otherwise.
- EndpointStart.RunStartsOneAtATime: is about bulk and interrupt endpoints and excludes re-enabling inside a completion callback, for which ReEnableOverlaps is a counterexample.
- EndpointCommands.RunKnowsHeld: assumes that the controller gives a started transfer an index other than 0; the driver only warns if it does not.
- EndpointMarks.RunGivesBackThrough: is about events that do not speak of the end of the transfer; DrainedExactly covers all events.
- EndpointBytes.ByteCountExact: is about requests read back whole; for one cut by a short packet WalkCounts gives the number reported.
- Ep0.ControlEndpoint.Queue: requires the TRB index to be 0 while the OUT endpoint is idle, as it is in every run that cuts no chained data stage short; runs that go on after such a cut are covered by Ep0Model and Ep0Proofs, not by the class.
- Ep0.ControlEndpoint.DoControlData: as Queue, and so do StartListed and DoBouncedData.
- Ep0.ControlEndpoint.StartListed: as Queue.
- Ep0.ControlEndpoint.DoBouncedData: as Queue.
- Ep0Proofs.StagesOfEveryTransfer: the gadget driver queues one request per SETUP, while that is served; events of endpoint zero wait for the return of its completion callbacks, also where the gadget driver's own halt called them.
- Ep0Details.DelayedStatusOnce: about the transfer in which the delay was asked for, with no stall, halt or other request in between; the status request goes to the endpoint's queue function without composite's wrapper.
- Ep0Status.DataTransferRuns: about a transfer undisturbed by halts, other requests and events for other stages; StagesOfEveryTransfer covers those. ReplyCompletes, PlainTransferRuns and QueuedTransferRuns likewise.
- Bounce.OutDataStage: the controller's part is a method that fills the first TRB's memory, then the second's.
- TxFifo.ResizeTxFifos: the start depth and size are combined by addition, which is what the source's bitwise or does when the size is below 2^16; shifting a depth of 32768 or more into a signed 32-bit value is not modelled.
- Descriptors.ConfigBuf: each descriptor's own bLength byte is its length, as the source assumes; the OTG descriptor of the source is behind a conditional that is off.
- Descriptors.CopyDescriptors: memory allocation succeeds, pointers have 4 bytes, low byte first, and the block lies within their range.
- StringTables.StringRegistry.AttachStrings: every language's array has the n entries the caller announces, present or missing, as the source reads that many.
- StringTables.StringRegistry.GetString: the list of languages (id 0), the OS string and the strings of functions and configurations not attached this way are not modelled, nor the conversion to UTF-16, which the source has commented out.
- CompositeDevice.CompositeDevice.SetUpInterfaces: the walk over a function's descriptors before set_alt has no effect in the source (its one statement is commented out) and is not modelled, nor that it needs descriptors for the speed to be there.
- Composite.SwitchSucceeds: current drawn from the bus and the log of the switch are not modelled.
- Enumeration.Enumerate: without an OS-descriptor configuration; CountAgrees says when the two loops agree with one.
- EventRing.RefinesFifo: one event buffer; the source acknowledges register 0 whichever buffer it copied. Dropping events while suspended is not modelled.
- Clearing a stall by the host's CLEAR_FEATURE and at a USB reset, streams' events, hibernation, suspend and resume, link state changes, USB reset, connection done, and the workarounds for controller revisions before 1.83a.
- The standard requests the control endpoint answers itself (status, features, address, system exit latency, isochronous delay): each queues at most one request, as the gadget driver does, and is covered as such.
- Register, PHY and reset programming, trace output, operating system wrappers, endpoint matching, the OTG code, and the function drivers of this product: straight-line writes, or glue over code that is not part of this model.
- ep0's error returns for a disabled endpoint and a disconnected gadget: they change nothing.
