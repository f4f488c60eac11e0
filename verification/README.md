# Dual-interface PCAN-USB driver: verification

The driver feeds one PCAN-USB adapter into a network interface and a character
device at the same time. This project models the parts of it that carry state and
proves, for all inputs and all runs, what they keep. `dafny verify dfyconfig.toml`
checks everything.

Each component has two halves. A specification on values (functions such as
`Packets.Records`, `BusErrors.Handle`, `TxQueue.Apply`) follows the code branch by
branch, and the theorems are about it. Classes with the fields of the driver
(`Decoder.Context` and `Decoder.Forwarder`, `CharDevice.Device`,
`Transmitter.NetQueue`, `SharedBus.Bus`, `Lifetime.Adapter`) carry out the same work
in place, with the loops of the code, and every method is proved to produce exactly
what the specification says.

| file | content |
|---|---|
| `words.dfy`, `can.dfy`, `sums.dfy` | machine words and byte order, CAN frames, counting |
| `timebase.dfy` | unwrapping of timestamps, the time reference, ticks to microseconds |
| `buserrors.dfy` | the state machine driven by error records |
| `packets.dfy` | the record decoder on values |
| `printer.dfy` | the wire format as a printer, and the proof that the decoder undoes it |
| `packetlaws.dfy` | laws of the decoder on arbitrary and on printed messages; the encoder |
| `urblaws.dfy` | one message seen from outside: the character device alone, messages cut short, the message handler |
| `rxring.dfy` | the receive ring under every interleaving of producer, readers, open and release |
| `ringlink.dfy` | the decoder's use of the ring is one of those interleavings |
| `textlines.dfy`, `chardevice.dfy` | the text of a read, and how it reads back; the device in memory and its three calls |
| `readers.dfy` | any history of arrivals and calls, replayed on the device |
| `decoder.dfy`, `reception.dfy` | the receive path in memory; completions of receive URBs and the life of the device around them |
| `txqueue.dfy`, `txlink.dfy`, `transmitter.dfy` | transmit contexts as whole handlers and store by store; the two related; in memory |
| `sharedbus.dfy` | two users of one bus |
| `lifetime.dfy` | operations in flight and the deferred free |

Concurrency is modelled as steps on one state in an arbitrary order: `RxRing.Step`
splits the producer into sampling the unread count, sampling the index, filling,
copying and the three stores of a publication, and open into its own three stores,
for which it does not take the lock; `TxQueue.Move` splits the
transmit handlers at their stores; `Lifetime.Step` has any number of operations.
Answers of the kernel and the adapter (is the interface up, could a buffer be had,
what is the time, was the URB or command taken) are parameters over which every
theorem quantifies. There is a single producer, as receive completions do not
overlap, and one batch read in flight, as the batch list is shared.

## What the code does, where that may surprise

- An error frame's identifier carries the class of the error but not the error flag
  bit, and its length stays 0 (`src/packet_codec.c:254-283`).
- The time reference never engages: the only assignment that could make `tv_host`
  non-zero is guarded by its being non-zero (`src/packet_codec.c:338-350`). In every
  reachable state (`EveryReachableState`) frames are stamped with the host clock, and an
  error record whose number is exactly QOVR is ignored (`HealthyForever`,
  `DormantTimes`, `QovrIgnored`).
  The laws of the arithmetic with an engaged reference are laws of the functions.
- A TS record replaces the 16-bit register but not the low byte kept beside it, so a
  low byte that follows may be unwrapped wrongly; `DeltaAfterTsRecord` says exactly
  when it is right, and `TsRecordMisleads` gives a message on which it is not.
- While an error record repeats unchanged, frames stop after three unless it reports
  an overrun, or light and heavy together, without bus-off (`RepeatSettles`): with
  light and heavy both set the state swings between warning and passive for ever. The
  one overrun that is silent from the start is the number exactly QOVR, which is
  ignored while no tick has been counted, and so in every reachable state.
- When no buffer can be had for an error frame, the record has no effect at all, and
  the same record later has the effect it would have had (`NoMemoryChangesNothing`).
- A first-record TS record keeps the time of an engaged reference continuous
  (`FirstTsContinuous`). A later one counts from the tick before the last first-record
  one, so it does if and only if that is also the last tick (`LaterTsContinuous`).
- The status byte is read without a check. It may be the byte just behind the
  message, which is modelled as a parameter and proved not to influence the device.
- Open resets the ring without the lock that a publication holds. If its first two
  stores both fall between the first two of one publication, the ring shows the last
  slot instead of the one just filled (`StaleFrameShown`), unless they are the same
  slot; on every other run it is a FIFO (`OwnShownExactly`, `Fifo`).
- For the same reason `rx_packets` can be wrong after an open: too small by the frames
  counted between open's last two stores (`PacketsCanRunShort`), one too large
  (`PacketsCanRunOver`), or, as its increment is a load and a store, larger by the whole
  count of the session before (`PacketsCanKeepOldCount`). `PacketsCounted` gives the
  exact amount and condition for each.
- The comment at `src/netdev_operations.c:284` says a busy answer should not occur
  except during restart, which `BusyAfterRestart` shows. As whole handlers that is so
  (`NeverBusy`). Store by store it can occur in two more ways, and no others
  (`BusyAtFineGrainExactly`), each with its run: a submission ends while a completion is
  between its counter decrement and its release of the context (`BusyAtFineGrain`,
  `CheckWindow`), or a completion's wake comes when all ten contexts have been taken again
  and the queue has been stopped (`BusyAfterLateWake`).
- The counter of active URBs can exceed the busy contexts (`CounterExceeds`), by one and
  exactly when a refused submission has freed its context and not yet lowered the
  counter, while no completion is between its decrement and its release
  (`FineTransmit`).
- A completion that finds the interface detached keeps its context and its echo for
  good (`Transmitter.NetQueue.WriteBulkCallback`).
- A refused open or failed start restores the stage, the open count and the users; only
  a second opener is refused, and only a first user can fail (`FailureRestores`). The
  time reference is cleared when the first user comes, and untouched while there is one
  (`ClearedAtBusStart`).
- A refused bus-off is not repeated: the adapter then stays on the bus with no user
  (`AdapterFollows`).
- Failed completions free their contexts and never wake the queue
  (`FailuresNeverWake`).
- Receive URBs are submitted once, when the adapter is plugged in. A completion that
  finds no user on the bus loses its URB (`ReceptionRun`).

## Model

| member | source | states |
|---|---|---|
| Timebase.UnwrapsTicks | src/packet_codec.c:134-167 | after one full word and any number of low bytes, with gaps below 256 and any number of 16-bit turns, both timestamp registers hold the true tick |
| Timebase.DeltaExact | src/packet_codec.c:149-164 | a low byte is unwrapped correctly if and only if the counter advanced, up to whole turns of 65536, by less than 256 |
| Timebase.DeltaAfterTsRecord | src/packet_codec.c:357-375 | after a TS record the next low byte is right if and only if the stale low byte and the true one agree on the carry |
| PacketLaws.TsRecordMisleads | src/packet_codec.c:357-375 | a message of a data, a TS and a data record 32 ticks apart that decodes, with the register 256 ticks ahead at its end |
| Timebase.FixedPointAccuracy | src/packet_codec.c:114-132 | up to 2^38 ticks: no 64-bit overflow, never early, late by at most n/(3*2^20)+1 us, exactly floor(128n/3) if and only if the excess stays below the next third (so always below 2^20) |
| Timebase.KernelTimeExact | src/packet_codec.c:114-132 | with an engaged reference the kernel time is the base and 1000 ns for each whole microsecond of the elapsed ticks, else the host clock |
| Timebase.FirstTsStores | src/packet_codec.c:323-355 | what a first-record TS record stores: the clock as the base of a cleared reference; the clock, the tick, one more update and the ticks since the last one of an engaged one, rebased when the host times are more than 4200 s apart |
| Timebase.FirstTsContinuous | src/packet_codec.c:323-355 | the record's own tick has the same kernel time before and after it |
| Timebase.LaterTsContinuous | src/packet_codec.c:307-321 | after a later TS record it has if and only if the tick before the last first-record one is also the last |
| Timebase.KernelTimeMonotone | src/packet_codec.c:114-132 | with an engaged reference, more elapsed ticks never give an earlier kernel time |
| Timebase.DormantStays | src/packet_codec.c:307-355 | a dormant reference stays dormant under every TS record and clock, and kernel time is the host clock |
| BusErrors.Conservation | src/packet_codec.c:169-305 | over any records: frames posted equal the sum of the four counters, the marker is never stored, bus-off is entered at most once and is never left by a record |
| BusErrors.PostedFrames | src/packet_codec.c:254-283 | frames with identifier 0x40, and with 0x04 and data byte 1 of 0x0C, 0x30 and 0x01, were posted exactly as often as the counters of bus-off, warning, passive and overrun say |
| BusErrors.WhenReached | src/packet_codec.c:180-283 | by the bits of the number and the present state: exactly when bus-off, warning, passive and the overrun frame come about, and that the frame posted then is identifier 0x40 without data, or 0x04 with data byte 1 of 0x0C, 0x30 and 0x01; number 0x40 with no tick counted changes nothing |
| BusErrors.RepeatSettles | src/packet_codec.c:180-248 | a repeating record stops producing frames after three if and only if it says bus-off, or is the ignored one, or reports no overrun and not both of light and heavy; it ends in bus-off if and only if it says so |
| Packets.ReadFrame | src/packet_codec.c:469-509 | a frame read is well formed (an identifier whose flags fit its number, at most 8 bytes, zero behind them), and took at least its three or four bytes without passing the end |
| Packets.OneRecord | src/packet_codec.c:564-575 | a turn that succeeds started strictly inside the message, ends at or before its end, and has paid for its record |
| UrbLaws.DataRefused | src/packet_codec.c:437-467 | which data records are refused with which error, and that a refused or unreadable one leaves the device as it was |
| UrbLaws.PostedTimes | src/packet_codec.c:288-302 | an error frame carries a time if and only if bit 7 of its record's status byte is set, and then that of its timestamp |
| UrbLaws.ErrorWithoutMemory | src/packet_codec.c:398-402 | a status record ends with -ENOMEM if and only if it is an error record whose frame cannot be allocated, and then changes nothing |
| Printer.ParserUndoesPrinter | src/packet_codec.c:377-578 | for every list of records and every answer of the kernel, decoding the printed message gives the status, time register and device the records mean, and on success ends at the end |
| PacketLaws.LoopHeads | src/packet_codec.c:554-578 | on arbitrary bytes, at every loop head reached without error the cursor is inside the message, all records before it are paid for, and the run from there is the rest of the run |
| PacketLaws.ConsumptionBound | src/packet_codec.c:377-578 | a message that decodes into s status and d data records has 3s + 4d + (1 if d > 0) <= size - 2 |
| PacketLaws.FramesFit | src/packet_codec.c:377-578 | with the network up, the frames a message delivers are bounded by its size in the same way: none is delivered without its data record |
| PacketLaws.BoundIsTight | src/packet_codec.c:377-578 | for every mix of records a message of exactly the bound decodes and delivers all its frames |
| PacketLaws.BeyondIrrelevant | src/packet_codec.c:566 | the byte behind the message, which the unchecked read can reach, never changes the device or whether decoding succeeds |
| PacketLaws.HealthyForever | src/packet_codec.c:114-578 | over one message of any bytes: network statistics equal the frames handed over, queued frames are well formed with consistent identifiers, the reference stays dormant, and every frame carries the host clock of a record handled |
| PacketLaws.DeliversAll | src/packet_codec.c:377-578 | with network and memory: every data frame arrives once and in order, the ring takes the first ones that fit, error records are folded and posted in order |
| PacketLaws.PrintedMessageDelivers | src/packet_codec.c:377-578 | the same for the bytes of a printed message, which decodes without error and to its end |
| UrbLaws.QueuesAlone | src/packet_codec.c:433-552 | with the network down: the frames of any records go to an open device while there is room, whole, in order and with their times; the first without room ends with -ENOBUFS, and with -ESHUTDOWN on a closed device; the network sees nothing |
| UrbLaws.PrintedUrb | src/packet_codec.c:580-591 | the message handler takes a printed message for what it says: frames, error frames, bus state, ring |
| UrbLaws.PrintedUrbAlone | src/packet_codec.c:580-591 | and with the network down as `QueuesAlone` says |
| UrbLaws.CutShort | src/packet_codec.c:554-591 | a printed message that lacks any bytes at its end is an error, whatever the kernel answers |
| UrbLaws.ShortMessages | src/packet_codec.c:584-590 | no bytes are no error and do nothing; one or two are -EINVAL and do nothing |
| PacketLaws.PacedTimes | src/packet_codec.c:494-511 | without TS records and with gaps below 256, every frame is given the kernel time of its true tick |
| PacketLaws.DormantTimes | src/packet_codec.c:511 | while the reference is dormant, every frame of any message is given the host clock |
| PacketLaws.EncoderPrints | src/packet_codec.c:71-106 | for every classic frame the encoder's bytes are 2, 1 and the status, identifier and data bytes of the wire format for that frame |
| PacketLaws.FrameRoundTrip | src/packet_codec.c:71-106 | an encoded frame with a timestamp put behind its identifier decodes to the same identifier, flags and length, the same data up to the length and zero behind it, all zero for a remote frame |
| PacketLaws.IdRoundTrip | src/packet_codec.c:85-99 | an identifier survives if and only if it is extended or fits 11 bits |
| RxRing.EveryInterleaving | src/packet_codec.c:437-539 | in every reachable state, except while open has stored the index and not the count, what readers took and what is visible are what the publications since the last reset showed, in order, and the slot being filled is not a visible one |
| RxRing.OwnShownExactly | src/packet_codec.c:533-539 | along any run every publication shows the slot it filled, if and only if open's first two stores never both fall between the first two stores of a publication to a slot other than the last |
| RxRing.Fifo | src/packet_codec.c:437-539 | on every such run readers have taken, and the ring holds, exactly the last frames published, in order |
| RxRing.StaleFrameShown | src/chardev_operations.c:125-126 | a run in which the ring of a newly opened device shows the last slot and not the frame published |
| RxRing.RingRefinesFifo | src/packet_codec.c:437-539 | the invariant behind these survives every interleaving of producer stores, drains under the lock, closings and store-by-store openings |
| RxRing.DualDelivery | src/packet_codec.c:433-544 | while network and device are up, the network has every decoded frame once in order, and the ring those whose producer did not sample 8 |
| RxRing.PacketsCounted | src/chardev_operations.c:125-127 | on an open device with the lock free, by how much rx_packets differs from consumed plus unread frames: too small if and only if a frame was raised after open's second store and counted before its third, and the third was not undone by an increment loaded before it; too large if and only if a frame raised before the second was counted after the third, or the third was undone with something to clear |
| RxRing.PacketsCanRunShort | src/chardev_operations.c:125-127 | a run in which it is too small |
| RxRing.PacketsCanRunOver | src/chardev_operations.c:125-127 | a run in which it is one too large |
| RxRing.PacketsCanKeepOldCount | src/packet_codec.c:537 | a run in which open's reset falls between load and store of the increment and the count of the session before stays in |
| RxRing.SlotAt | src/chardev_operations.h:55-58 | the slot of the i-th unread frame, reached from the derived read index by modular steps, lies i places behind the oldest, ending at the write slot |
| RxRing.DrainDrops | src/chardev_operations.c:318 | lowering the unread count removes exactly the oldest frames |
| RxRing.PublishAppends | src/packet_codec.c:535-536 | advancing the index and raising the count appends exactly the filled slot |
| RingLink.DecoderIsARun | src/packet_codec.c:433-578 | decoding any message is a run of the interleaved ring that decodes exactly the frames read from the message, with their times, and queue, counter and network frames agree at its end |
| TextLines.LineExact | src/chardev_operations.c:296-313 | a line is 56 + 3*dlc <= 80 characters, and date, microseconds, device name, identifier, length and every data byte can be read back from it |
| TextLines.ReadsBack | src/chardev_operations.c:296-316 | a text of any number of lines, cut at the lengths its lines state, reads back as the frames it was made of, with their dates |
| TextLines.HexExact | src/chardev_operations.c:306-311 | padded hexadecimal has the width asked for and denotes the number |
| TextLines.DecExact | src/chardev_operations.c:306-308 | the same for padded decimal |
| CharDevice.Device.ReadMsg | src/chardev_ioctl.c:81-111 | takes exactly the oldest frame, or reports -EAGAIN and changes nothing |
| CharDevice.Device.RecvMsgs | src/chardev_ioctl.c:359-406 | fills the list with the oldest frames in order, as many as asked for and queued, and removes exactly those |
| CharDevice.Device.ReadText | src/chardev_operations.c:221-323 | writes the lines of the oldest frames, removes exactly those, and emits at most 80*((count-1)/80) < count and never more than 640 bytes |
| CharDevice.Device.Reset | src/chardev_operations.c:125-127 | after the three stores of an open the queue is empty and the packet count zero |
| CharDevice.Device.Publish | src/packet_codec.c:527-537 | appends the frame to the queue and counts it |
| CharDevice.TextRoomExact | src/chardev_operations.c:286 | the number of frames a read may take is how many 80-byte lines fit strictly below count |
| CharDevice.OwnTime | src/chardev_ioctl.c:96-98 | 1000 times the milliseconds and the microseconds are the frame's time in whole microseconds, the latter below 1000, both cut toward zero |
| CharDevice.TypeCodes | src/chardev_ioctl.c:21-33 | the type codes by the flag bits of any identifier |
| CharDevice.TypeOfDecoded | src/chardev_ioctl.c:21-33 | for the identifiers the decoder is proved to produce, the message type tells remote, extended and standard apart and is never an error |
| CharDevice.MaskedIdDetermines | src/chardev_ioctl.c:389-394 | the masked identifier and type of a batch determine the frame's identifier unless one is a standard and one an extended remote frame |
| Readers.Replay | src/chardev_ioctl.c:54-114 | the device itself, through its own calls, gives exactly the answers of the specification for any history, leaves its queue, and counts the frames it took |
| Readers.ReadersConserve | src/chardev_ioctl.c:81-111 | for any mix of the three calls and arrivals, the frames taken then those left are the frames queued, in order, and the answers (records, lists and texts) show exactly those taken, in order, each with its own time |
| Readers.ReadersAgree | src/chardev_ioctl.c:369-406 | replacing every call by as many single messages takes and shows the same frames, each with its own time, and leaves the same queue |
| Readers.BatchAsSingles | src/chardev_ioctl.c:389-394 | entry by entry a batch has the length, the data, the type and the masked identifier of the single message, which has those of the frame and its full identifier, and the type is the code of its flags |
| Decoder.Context.DecodeTimestamp | src/packet_codec.c:134-167 | in place: the registers and cursor the specification gives, unchanged when bytes are missing |
| Decoder.Forwarder.ComputeKernelTime | src/packet_codec.c:114-132 | in place: the kernel time of the specification, with 32- and 64-bit arithmetic |
| Decoder.Forwarder.SetTimeReference | src/packet_codec.c:323-355 | in place: the reference after a first-record TS record |
| Decoder.Forwarder.UpdateTimeReference | src/packet_codec.c:307-321 | in place: the reference after a later TS record |
| Decoder.Forwarder.DecodeError | src/packet_codec.c:169-305 | in place: state, counters, status and frame posted are those of the state machine |
| Decoder.Forwarder.DecodeStatusAndError | src/packet_codec.c:377-431 | in place: status, device and cursor after a status record |
| Decoder.Forwarder.DecodeData | src/packet_codec.c:433-552 | in place: status, device, both queues and cursor after a data record |
| Decoder.Forwarder.DecodeIncomingBuf | src/packet_codec.c:554-578 | the record loop leaves the status and device that the recursive decoder gives |
| Decoder.Forwarder.DecodeUrb | src/packet_codec.c:580-591 | an empty message is no error, a bare header is, anything longer is decoded |
| Decoder.Forwarder.ReadBulkCallback | src/usb_driver.c:158-215 | in place: what a completion decodes and whether its URB goes back |
| Reception.ReceptionRun | src/usb_driver.c:158-215 | over any completions the device is what decoding the heard messages in order makes of it, and URBs are lost only by idle bus, withdrawal or refusal, never by a message that fails to decode |
| Reception.CompletionDelivers | src/usb_driver.c:184-196 | a completion with a printed message delivers what it says, to the network or to the character device alone; one with no user on the bus does nothing |
| Reception.HealthyForLife | src/usb_driver.c:158-215 | the laws of `HealthyForever` are kept over every life of the device: messages and single records of any contents, readers, opens, closes, bus starts, interface starts and stops and restart wakes in any order |
| Reception.EveryReachableState | src/usb_driver.c:158-215 | so they hold in every state reached from a new device |
| Reception.OffUntilRestart | src/netdev_operations.c:63-69 | bus-off, and every error counter with it, stays as it is until a start, a stop or a restart wake, whatever messages come |
| TxQueue.StepKeepsCore | src/netdev_operations.c:122-170 | every handler and every restart wake keeps: counter equals busy contexts, each busy context has a frame in its own echo slot and no other slot has one |
| TxQueue.StepKeepsInv | src/netdev_operations.c:122-170 | every submission and completion also keeps: an awake queue has a free context |
| TxQueue.BytesAccounted | src/netdev_operations.c:156-165 | over any run, restart wakes included, at whose end the interface is still attached, every byte the adapter has taken is in tx_bytes once, was given up by a failed completion, or is still in an echo slot |
| TxQueue.Tallied | src/netdev_operations.c:160-169 | over any run, the packets sent and the shared counter are the successful completions on an attached interface, the drops are the listen-only requests and the refusals by an adapter that is not gone, and a refusal by one that is gone is what detaches |
| TxQueue.QueueRule | src/netdev_operations.c:336-338 | the queue is stopped by exactly the submission that takes the last context, and woken by exactly a successful completion or a restart |
| TxQueue.DetachedKeeps | src/netdev_operations.c:132-135 | once detached, completions lower the counter by one each and change nothing else |
| TxQueue.NeverBusy | src/netdev_operations.c:249-342 | without restart wakes, over every run of submits, refusals and completions, an awake queue never answers busy |
| TxQueue.BusyExactly | src/netdev_operations.c:275-284 | busy is answered if and only if all ten contexts are taken, also in the states only a restart wake leads to |
| TxQueue.BusyAfterRestart | src/netdev_operations.c:63-69 | a run of ten submissions and a restart wake after which it is |
| TxQueue.FailuresNeverWake | src/netdev_operations.c:160-169 | a stopped queue stays stopped over any failed completions |
| TxQueue.FineTransmit | src/netdev_operations.c:132-158 | store by store: busy contexts name distinct echo slots, no echo is released twice, every stored echo is still in a slot or released, and the counter exceeds the busy contexts, by one, if and only if a refused submission is at its last store and every context in use is with the USB core |
| TxQueue.CounterExceeds | src/netdev_operations.c:306-316 | a run in which the counter is one with no context in use |
| TxQueue.BusyAtFineGrainExactly | src/netdev_operations.c:249-342 | along any run, restarts included, the queue is never awake with no context free if and only if no submission ends awake with all in use and the counter below ten, and no wake of a completion or a restart comes between submissions with all in use |
| TxQueue.CheckWindow | src/netdev_operations.c:337-338 | the first of these happens exactly while a completion is between its decrement and its clear |
| TxQueue.BusyAtFineGrain | src/netdev_operations.c:132-158 | a run without restart for the first |
| TxQueue.BusyAfterLateWake | src/netdev_operations.c:158-168 | a run without restart for the second, with all ten contexts with the USB core |
| TxLink.HandlersAreRuns | src/netdev_operations.c:63-342 | every run of whole handlers and restart wakes at whose end the interface is still attached is a run of their parts with the same contexts, counter and queue |
| Transmitter.EncodeFrame | src/packet_codec.c:71-106 | writes exactly the encoded bytes and touches nothing behind them |
| Transmitter.NetQueue.StartTransmit | src/netdev_operations.c:249-342 | in place: answer, contexts, echo slots, counter, queue and drops of the specification, and the encoded frame in the buffer |
| Transmitter.NetQueue.WriteBulkCallback | src/netdev_operations.c:122-170 | in place: the completion of the specification, with the echo released, bytes and packets counted, and the wake |
| Transmitter.NetQueue.WakeUp | src/netdev_operations.c:63-69 | the bus state is error-active, the queue is awake and nothing else of it changes |
| Transmitter.NetQueue.UnlinkAll | src/usb_driver.c:324-353 | frees exactly the URBs that exist and are not submitted, each once |
| SharedBus.SharedCounting | src/chardev_operations.c:102-171 | over any opens, releases, starts and stops with any failures: stage is one more than the users, the open count is 0 or 1, bus-on is commanded only by the first user and bus-off only by the last |
| SharedBus.AdapterFollows | src/usb_driver.c:131-150 | the adapter is on the bus if and only if there is a user, or the last one's bus-off was refused and no bus-on has been taken since |
| SharedBus.StartPower | src/usb_driver.c:131-150 | the starting commands switch the bus on if and only if every one of them is taken |
| SharedBus.CommandsSent | src/usb_driver.c:131-150 | the commands each call sends, in order, up to the first that is refused; none while there is another user |
| SharedBus.CanStateFollows | src/netdev_operations.c:202-244 | the state is error-active after a start that succeeds, stopped after a stop, and as it was otherwise |
| SharedBus.Bus.ChardevOpen | src/chardev_operations.c:114-151 | in place: result, counters and commands of the specification; the ring is emptied unless the caller is a second opener, who changes nothing |
| SharedBus.Bus.ChardevRelease | src/chardev_operations.c:154-171 | in place: counters and commands of the specification |
| SharedBus.Bus.StartCanInterface | src/netdev_operations.c:172-214 | in place, with the interface detached when the adapter is gone |
| SharedBus.Bus.NetStop | src/netdev_operations.c:236-247 | in place: counters, stopped state and commands of the specification |
| Lifetime.SafeLifetime | src/usb_driver.c:553-596 | over every run with any number of operations: the count is positive exactly while one is in flight, and the state is freed only after the plugout with none in flight |
| Lifetime.FreedAfterAll | src/chardev_operations.c:226-330 | over every run, when the state is freed every operation ever accepted has ended; and the count is zero exactly when they all have |
| Lifetime.StepCounts | src/usb_driver.c:558-570 | each step changes the count by what it accepts, nests or ends; the state is freed only by the second of two checks that both find the count zero |
| Lifetime.OperationsDrain | src/usb_driver.c:553-596 | after the plugout no operation starts, woken readers never block again, and all steps the operations in flight can still take are bounded by their rank |
| Lifetime.RescheduleWakesAll | src/usb_driver.c:572-578 | every reschedule unblocks every reader, loses no operation and leaves each of them a step to take |
| Lifetime.AlwaysFinishes | src/usb_driver.c:553-579 | from every unplugged state the operations and the work item alone lead on to the free |
| Lifetime.Adapter.TryBegin | src/chardev_operations.c:180-185 | below the started stage refused with nothing changed; else accepted, counted and in flight |
| Lifetime.Adapter.ResponsiveCommand | src/can_commands.c:86-116 | its send is made with the count raised by two and its receive with the count raised by one, the receive only after a send that succeeded; every count is taken back; it succeeds only when connected and answered |
| Lifetime.Adapter.OnewayCommand | src/can_commands.c:33-57 | by itself or within another command: sends once with the count raised by one and takes it back; refused below the connected stage |
| Lifetime.Adapter.PlugOut | src/usb_driver.c:581-596 | in place: stage 0 and the work queued |
| Lifetime.Adapter.DestroyWork | src/usb_driver.c:553-579 | in place: each of the two checks reschedules and wakes while operations are in flight |

## Left out

- Transmitter.EncodeFrame: the counter byte at `src/packet_codec.c:109` is written relative to the advanced position, not to the start of the buffer; the contract is about the record bytes only.
- CharDevice.Device.ReadText: the terminator at `src/chardev_operations.c:320` is likewise written relative to the advanced position; the contract is about the text bytes only. Its byte count is unbounded, without the conversion to a signed int.
- CharDevice.Device.ReadText: only the kernel buffer is modelled, not the mapping of user pages (`src/chardev_operations.c:258-278`), nor the copy to the user.
- CharDevice.Device.RecvMsgs: the waiting and non-blocking beginnings of the readers and their copies to the user are left out; waiting is modelled in `Lifetime` and every reader finds -EAGAIN when the queue is empty. The batch count is unbounded.
- Decoder.Forwarder.DecodeData: with the network down the code parses straight into the ring slot, so a record that fails leaves half a frame there. The class stores once at the end; the half frames are the `Scribble` steps of `RxRing`.
- TextLines.LineExact: calendar conversion is library code, a parameter of the model; a year below 10000, two-digit fields and a nine-character device name are assumed by type. `timespec64_add_ns` is taken as exact addition, also for a frame older than the base, which the kernel's unsigned argument does not promise.
- CharDevice.OwnTime: the division of 64-bit machines is modelled, not the `do_div` branch for others (`src/chardev_ioctl.c:100-105`), which differs below zero.
- BusErrors.Conservation: counters and statistics are unbounded; their wrap-around is not modelled.
- SharedBus.SharedCounting: each open, release, start and stop is one step; calls that overlap inside one another are not covered.
- Lifetime.SafeLifetime: a stage check and the increment that follows it are one step, and so is the plugout; the code does not close the windows inside them. Calls that arrive after the free are outside the model.
- SharedBus.Bus.ChardevOpen: the exits for a file or inode without an adapter, the counter of character-device URBs (which nothing submits) and the completion functions stored in the contexts are left out; the three stores to the ring are taken together here and one by one in `RxRing`.
- RxRing.PacketsCounted: while a publication holds the lock the counter may be behind by that frame.
- Readers.Replay: arrivals are whole publications; their interleaving with openings is the subject of `RxRing`.
- TxQueue.NeverBusy: the queue being stopped or woken from outside the handlers, other than the restart wake, is not modelled; a detached device is, up to the detachment.
- Decoder.Forwarder.DecodeData: the code copies the frame into the ring, and adds its length to the statistics, after it has handed the socket buffer that holds it to the network stack (`src/packet_codec.c:517-530`); the model takes its contents to be unchanged by then, as does RxRing.DualDelivery.
- Transmitter.NetQueue.UnlinkAll: killing the anchored transmit URBs runs their completions (`src/usb_driver.c:351`), which may release echoes and lower the counter before it is set to zero; the contract covers the URBs freed here and the final counter only.
- TxLink.HandlersAreRuns: a detached interface has no counterpart in the finer model; `TxQueue.BytesAccounted` ends at the detachment too.
- Reception.ReceptionRun: submission, anchors and allocation of URBs are one answer of the adapter.
- `src/usb_driver.c:217-322` (allocation of URBs): only its result, all contexts present and free, is the constructor of `Transmitter.NetQueue`.
- `src/chardev_operations.c:187-213` (poll): a mask of two comparisons that changes no state and is not among the pending operations.
- `src/can_commands.c:59-84` (asynchronous commands) and `src/can_commands.c:172-242` (bit timing packing and rate table): wrappers and a finite table.
- ioctl handlers that are stubs or copy fields, options, sysfs attributes, module parameters, registration and the unwinding of a failed plug-in.
- The restart timer and the asynchronous command before it: only their effect, the wake and the state it sets, is modelled.
- `src/test_app.c`, makefiles and configuration.
