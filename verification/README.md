# Model of the signal event loop and its protocols

A Dafny model of a C++ event-loop library (objects, signals, timers, select and
epoll backends, log rotation) and of the parts built on it: the firmware
updater, the CAN transport, the masked stream frame, the command-line
parameter codec, the connector and the changelog formatter. Classes that the
library updates in place are classes here, with methods proved against
specification functions; the main results are lemmas about those functions, for
all inputs, all runs and all link behaviours.

| file | what it models |
|---|---|
| `Bits`, `Bytes`, `CText`, `Containers` | helpers: exclusive or, byte strings, C text, least elements |
| `Crc` | the CRC as polynomial division over GF(2) |
| `Framing` | `Protocol::Mux` and `Protocol::DeMux` |
| `Receiver` | the receive cache that asks `DeMux` |
| `Slicer` | how two images are cut into padded slices |
| `UploadProtocol` | the upload as a state machine: host, device and a link that loses and repeats |
| `Updater` | the updater's handlers on its fields, proved to be that host |
| `ObjectTree` | event queues, exec sets and wakeups in a tree of objects |
| `Timers` | timer ids, the deadline index and the timer pass |
| `TimerCallbacks` | the pass when callbacks stop, release or restart timers of its owner |
| `Signals` | two-sided connections between signals and objects |
| `LogRotation` | renaming and removing numbered log files |
| `HexImage` | the HEX reader as a memory map |
| `CanBus`, `CanWire` | the CAN fragmenter and reassembler, and its ids and bytes as literals |
| `StreamFrame` | the masked, checked, time-stamped stream frame |
| `ParamList` | base64 and the parameter list |
| `Connector` | the token search and the maps of pending connects |
| `Backends` | the interest tables of select and epoll |
| `Changelog`, `ChangelogFormat`, `ChangelogRoundTrip` | loading and dumping a changelog, its format as literals, and loading the dump |

`dafny verify dfyconfig.toml` checks the whole project.

## Model

| member | source | states |
|---|---|---|
| Crc.Crc16 | imp/common/iutils.cpp:6-40 | the CRC loop leaves the remainder of data * x^16 divided by the generator, for every length the loop ends on |
| Crc.RegisterIsRemainder | imp/common/iutils.cpp:14-37 | after any bits the register is a polynomial remainder of all that was shifted in |
| Crc.RemainderUnique | imp/common/iutils.cpp:14-37 | division by the generator leaves one remainder only |
| Crc.ChecksumOfOne | imp/common/iutils.cpp:6-40 | the generator is x^16 + x^12 + x^5 + 1: a single 1 has checksum 0x1021 |
| Crc.ChecksumLinear | imp/common/iutils.cpp:6-40 | the checksum of the exclusive or of two messages of one length is the exclusive or of their checksums |
| Crc.ChecksumOfSealed | imp/common/iutils.cpp:6-40 | a message followed by its own checksum has checksum 0 |
| Crc.BurstDetected | imp/common/iutils.cpp:6-40 | every error confined to sixteen consecutive bits, at any place, changes the checksum |
| Framing.Mux | imp/device-update/Protocol.cpp:9-39 | the buffer afterwards, byte by byte: the frame up to the check byte, which stands where the eight-bit length says; what lies behind is untouched |
| Framing.DeMux | imp/device-update/Protocol.cpp:41-121 | accepts exactly the bytes that start with a complete frame, and hands out its payload, its control byte and the address its source section starts with, high byte first |
| Framing.GenCheckCode | imp/device-update/Protocol.cpp:128-137 | the exclusive or of the bytes |
| Framing.AcceptedUnique | imp/device-update/Protocol.cpp:41-121 | no bytes start with two different frames |
| Framing.SourceUnique | imp/device-update/Protocol.cpp:94-106 | and only one source address can be read from them |
| Framing.FrameRoundTrip | imp/device-update/Protocol.cpp:9-121 | what Mux builds, DeMux reads back, whatever follows it in the buffer; the address stands in the destination section, high byte first |
| Framing.ReadBackIff | imp/device-update/Protocol.cpp:9-121 | it does so if and only if the frame fits 256 bytes |
| Framing.CorruptionRejected | imp/device-update/Protocol.cpp:41-121 | any one changed flag, payload, address or check byte leaves nothing that DeMux accepts |
| Receiver.ReadCache.HandleDataCache | imp/device-update/device_updater.cpp:127-155 | the cache is emptied and one frame handled, with its sender, if the bytes start with a complete frame; else it stays as it is |
| Receiver.ReadCache.OnRead | imp/device-update/device_updater.cpp:626-656 | likewise for what is there and what is read, joined |
| Receiver.StuckIff | imp/device-update/device_updater.cpp:127-155 | no further bytes ever make the cache give a frame if and only if a flag is wrong, the source address is empty, or all parts are there with a wrong check byte |
| Receiver.StuckForGood | imp/device-update/device_updater.cpp:626-656 | then every further run of reads only makes the cache grow |
| Receiver.StrayByteDooms | imp/device-update/device_updater.cpp:127-155 | one stray byte in front of any frame does that |
| Receiver.FrameArrives | imp/device-update/device_updater.cpp:626-656 | however a frame is cut into reads, it is handled once, and nothing stays |
| Receiver.FrameHandled | imp/device-update/device_updater.cpp:137-147 | whatever follows a frame in the same read is dropped with it |
| Receiver.ReplyFrom1234 | imp/device-update/device_updater.cpp:127-155 | ten bytes, from which the command 0xE3 of the device 0x1234 is handled |
| Slicer.SliceContext.FillUpdateSliceContext | imp/device-update/update-file.cpp:172-257 | below -1 both maps grow by the cut of their image, and cut the images if and only if they were empty; moves from vector to code slices; leaves the padded payload of the slice it stands for in the buffer |
| Slicer.AppendedNow | imp/device-update/update-file.cpp:190-211 | a map that has grown by a cut is a cut if and only if it was empty |
| Slicer.CutTwice | imp/device-update/update-file.cpp:190-211 | cutting again puts the same slices behind |
| Slicer.SliceContext.CutImage | imp/device-update/update-file.cpp:190-211 | the cut is greedy: each slice as long as image, slice limit and flash page allow |
| Slicer.TilesPartition | imp/device-update/update-file.cpp:190-211 | joining the slices gives the image back: nothing lost, repeated or moved |
| Slicer.TilesFit | imp/device-update/update-file.cpp:190-211 | every slice has 1 to limit bytes and lies on one flash page |
| Slicer.TilesUnique | imp/device-update/update-file.cpp:190-211 | the cut is the only one that is consecutive and greedy |
| Slicer.TilesAligned | imp/device-update/update-type-def.h:39-53 | with limit, page size and address multiples of four, only the last slice can need padding |
| Slicer.UploadedImage | imp/device-update/update-file.cpp:172-257 | all payloads, stored one after the other, are the vector image, the code image and zeros up to the next multiple of four, if and only if the vector image's length is a multiple of four |
| UploadProtocol.StaleIgnored | imp/device-update/device_updater.cpp:506-511 | an acknowledgement of an earlier slice that can still be on its way changes nothing, unless the last vector slice and the first code slice are numbered alike |
| UploadProtocol.StaleTaken | imp/device-update/device_updater.cpp:506-521 | if they are, that of the last vector slice is taken for that of the first code slice: the host moves on a slice, or gives up |
| UploadProtocol.GivenUpIgnores | imp/device-update/device_updater.cpp:506-511 | once an upload is given up no acknowledgement on its way matches any more |
| UploadProtocol.RunInv | imp/device-update/device_updater.cpp:480-592 | for every job the invariant of host, device and link holds after every sequence of deliveries, losses, repetitions, timeouts, writes and stray replies |
| UploadProtocol.UploadAlways | imp/device-update/device_updater.cpp:480-592 | in every run the device is at most one slice ahead of the count, success means all slices are counted, and the host has a reason to wake up |
| UploadProtocol.UploadSafeIff | imp/device-update/device_updater.cpp:533-592 | over every run success is reported only when the device holds every slice if and only if there are no vector slices, at most one code slice, or the number of code slices less one is no multiple of 65536; then the device always holds a beginning of the slices |
| UploadProtocol.SliceSkipped | imp/device-update/device_updater.cpp:533-592 | in all other cases one run with one repeated acknowledgement ends with success while the device lacks the first code slice |
| UploadProtocol.CountSafeIff | imp/device-update/device_updater.cpp:834-842 | the host never counts a slice that the device does not hold if and only if the last vector slice and the first code slice are numbered differently |
| UploadProtocol.Misled | imp/device-update/device_updater.cpp:506-524 | else one repeated acknowledgement makes it do so; with one code slice the upload is given up |
| UploadProtocol.CanFinishIff | imp/device-update/device_updater.cpp:480-592 | after every run success can still be reported, if and only if there are code slices, and not just one behind vector slices |
| UploadProtocol.NeverRestarts | imp/device-update/device_updater.cpp:507-516 | in no run does a reply arrive that would take the sequence number to -2 |
| Updater.AimyUpdater.HandleReplyUploadVectorTable | imp/device-update/device_updater.cpp:480-531 | for every reply the handler on the object's fields is the host's step, and queues at most the quit frame of the status it sets; but a successful reply numbered 65535 at sequence number -1 doubles both maps and starts again |
| Updater.AimyUpdater.HandleReplyUploadCodeSegment | imp/device-update/device_updater.cpp:533-592 | likewise for code slices, success after the last one: what is queued then is the quit frame of success |
| Updater.AimyUpdater.OnWrite | imp/device-update/device_updater.cpp:658-718 | writes queued frames, else the frame of the current segment unless its timer runs; a segment that is not taken stays due; it stays interested in writing exactly while something is left |
| Updater.AimyUpdater.OnSendTimeout | imp/device-update/device_updater.cpp:732-741 | is the host's timeout step |
| Updater.AimyUpdater.RequestUploadSegment | imp/device-update/device_updater.cpp:283-301 | the bytes kept for sending are the frame of the current slice: command, number, CRC, data |
| Updater.AimyUpdater.RequestQuitUpgradeWorkMode | imp/device-update/device_updater.cpp:303-318 | behind what was queued stands the quit frame of the current status, and nothing else |
| Updater.QuitFrameSays | imp/device-update/device_updater.cpp:303-318 | a receiver that uses DeMux finds in a quit frame the payload 0xE8 and 0 on success, 0x61 on an error with rollback, 0x62 without, and nothing else |
| Updater.SegmentSays | imp/device-update/device_updater.cpp:283-301 | in a segment it finds 0xE3 or 0xE6, the number and the CRC, each high byte first, and the data, and nothing else |
| Updater.SegmentAddressed | imp/device-update/device_updater.cpp:808-832 | a segment's destination section holds the device's address, high byte first |
| Updater.AimyUpdater.StartUpload | imp/device-update/device_updater.cpp:468-478 | whatever frame was kept and whether or not its timer ran, starts the machine on the job cut from the two images; with nothing to upload, queues the quit frame of an error with rollback and leaves the counts |
| Updater.ContentInjective | imp/device-update/device_updater.cpp:283-301 | the segment's bytes determine command, number and data |
| Updater.SegmentOnTheWire | imp/device-update/device_updater.cpp:808-832 | a receiver that uses DeMux finds the segment sent and nothing else, whatever follows |
| Updater.UpdaterJobIsCut | imp/device-update/device_updater.cpp:443-478 | the job is the greedy cut of the object's images |
| Updater.DeviceHoldsImages | imp/device-update/device_updater.cpp:480-592 | under the condition of UploadProtocol.UploadSafeIff, in every run reported success means that the device holds vector image, code image and at most three zero bytes |
| ObjectTree.Object.AddTriggerEvent | core/object.cpp:24-35 | the event is queued unless the queue is full; the invariant of the tree holds again, so the root will find it |
| ObjectTree.Object.PushExec | core/object.cpp:320-335 | noting a child reaches up to the first ancestor that is already noted |
| ObjectTree.Object.HandleTriggerQueue | core/object.cpp:122-125 | runs what was queued, in order; what these events post waits for the next pass |
| ObjectTree.Object.HandleTimerEvent | core/object.cpp:127-169 | exactly the due entries fire, in order; what stays and what comes back is the index a pass leaves |
| ObjectTree.Object.HandleChildEvent | core/object.cpp:109-120 | handles every object noted, while handled objects post to any object of the tree |
| ObjectTree.Object.HandleEvent | core/object.cpp:94-107 | everything accepted under this object before the call has run after it, in order, and so do its due timers and those of the objects reached through exec sets; an object with work left is noted again |
| ObjectTree.Object.GetNextTimeOut | core/object.cpp:171-193 | a positive answer is the least time to any deadline reached through exec sets: nothing is due before it and one is due at it |
| ObjectTree.Object.LoopTurn | core/task-scheduler.cpp:36-45 | each turn runs everything accepted in the whole tree before it and fires every timer that was due at its start under the root, as its ledger says; it does not sleep when events wait anywhere, and its answer is the time to the first deadline reached, but at most five seconds |
| ObjectTree.TurnFires | core/object.cpp:127-169 | of every object handled in a turn, each entry due at the first sampled time has fired, and stands at the second sampled time plus its interval unless it is one-shot; each other entry stands where it did |
| ObjectTree.TurnPosts | core/object.cpp:24-35 | what events and timers post in a turn is accepted by its target, in order, as long as the queue has room |
| ObjectTree.DueMeans | core/object.cpp:133-147 | the due entries are those whose deadline has come |
| ObjectTree.AfterMeans | core/object.cpp:150-168 | a pass leaves the entries that were not due, and the periodic ones that were at the later time plus their interval, in order |
| ObjectTree.TreeStarts | core/object.cpp:12-15 | a new tree meets the invariant |
| ObjectTree.NoLostWakeup | core/object.cpp:24-35 | between passes every object with waiting events is reached from the root through exec sets, whatever the shape of the tree |
| ObjectTree.PromptWakeup | core/object.cpp:171-193 | then the time-out is 0 |
| ObjectTree.QuietChildren | core/object.cpp:109-120 | below an object, a child that is not noted has nothing waiting under it |
| Timers.TimerOwner.AddTimer | core/object.cpp:229-240 | null exactly when no id is left; else a new idle timer under an id nobody has |
| Timers.AddedMeans | core/object.cpp:229-240 | a new timer is idle and periodic, an interval below 1 becomes 1, and the others stay |
| Timers.TimerOwner.GetNextTimerId | core/object.cpp:282-299 | the least free id, else one more than the last, else 0 |
| Timers.TimerOwner.StartTimer | core/object.cpp:242-255 | the timer works and is in the index under now + interval |
| Timers.TimerOwner.StopTimer | core/object.cpp:257-266 | the timer is idle and out of the index |
| Timers.TimerOwner.ReleaseTimer | core/object.cpp:268-280 | the timer is gone, its id free |
| Timers.TimerOwner.HandleTimerEvent | core/object.cpp:127-169 | exactly the due timers fire, once each, in the order of deadlines; periodic ones come back, one-shot ones go idle; map and index agree again |
| TimerCallbacks.Pass | core/object.cpp:146-168 | both loops, when callbacks act on timers of the owner, are the functions the three lemmas below speak of |
| TimerCallbacks.StopsHonouredIff | core/object.cpp:146-168 | when callbacks stop and release timers, map and index agree after the pass if and only if none does so to a periodic timer that has had its turn in the same pass |
| TimerCallbacks.PeriodicRestartIff | core/object.cpp:146-168 | a periodic timer restarted by its own callback has two keys, and stopping it leaves one, if and only if the restart was not at the time of re-arming |
| TimerCallbacks.OneShotRestart | core/object.cpp:150-155 | a one-shot timer restarted by its own callback ends up idle with a key |
| Timers.PassInTwoHalves | core/object.cpp:127-169 | taking out and re-arming together are one pass |
| Timers.RunWellFormed | core/object.cpp:229-299 | over every run live and free ids partition 1..last |
| Timers.AddFailsIff | core/object.cpp:282-299 | addition fails if and only if all 2^32 - 1 ids are live, and never hands out a live one |
| Timers.FiringsSpaced | core/object.cpp:127-169 | in every run two firings of a periodic timer that is neither stopped nor released in between are at least its interval apart |
| Timers.OneShotFiresOnce | core/object.cpp:127-169 | a one-shot timer that has fired stays idle until it is started again |
| Signals.Connection.Disconnect | core/object.h:364-378 | which sides leave, for every flag and status; given a flag directly, exactly that side stays |
| Signals.Signal.Connect | core/object.h:384-402 | a fresh connection stands on both sides |
| Signals.Signal.Disconnect | core/object.h:444-458 | the connection leaves both sides, the other connections stay |
| Signals.Signal.DisconnectAll | core/object.h:460-473 | the list is empty and no receiver keeps one of its connections |
| Signals.Object.DisconnectAll | core/object.cpp:338-348 | the map is empty and no signal keeps one of its connections |
| Signals.Signal.Emit | core/object.h:404-422 | every connection of the list in order: posted to its receiver, or run in place when it has none |
| Signals.Signal.Call | core/object.h:423-442 | likewise for those whose status is still normal |
| Signals.Perform | core/object.h:351-484 | in every reachable state, every request breaks exactly its targets on both sides and leaves all other connections in place; a connection is in its sender's list exactly when it is in its receiver's map |
| Signals.StartsLinked | core/object.h:351-484 | the invariant holds before anything is connected |
| Signals.RaisedAlike | core/object.h:404-442 | so both ways of raising a signal reach the same connections |
| LogRotation.NameIndex | log/aimy-log.cpp:529-545 | a name that rotation gives is scanned back under its own index, or not at all; exactly when |
| LogRotation.ScanDecimal | log/aimy-log.cpp:538-542 | "%u" undoes std::to_string for 32-bit numbers |
| LogRotation.ScanDigits | log/aimy-log.cpp:538-542 | a number that fits 64 bits is kept to its lower 32, a minus sign counts back from 2^64, and a larger number reads as 2^32 - 1 |
| LogRotation.TakenIff | log/aimy-log.cpp:527-545 | besides pro.log exactly the names that are pro_, for a pro without '_', and a number other than 0 are taken, whatever follows the number |
| LogRotation.TakenIsOurs | log/aimy-log.cpp:527-545 | so a file that is taken is pro.log or starts with pro_ |
| LogRotation.NameInjective | log/aimy-log.cpp:556-568 | different indices have different names |
| LogRotation.NumberFree | log/aimy-log.cpp:563-570 | the number that a file is moved aside to is nobody's |
| LogRotation.TargetFree | log/aimy-log.cpp:579-582 | the target of a noted file is free when its turn comes |
| LogRotation.AimyLogger.RenameFile | log/aimy-log.cpp:513-583 | unless a rename lands on an existing file, the k-th newest file is name_k with its contents, the surplus oldest are gone, the rest is as before; and that nothing is overwritten and only targets are left holds if and only if the directory is orderly; files of other programs stay as they were, and none appears |
| LogRotation.RotatesIff | log/aimy-log.cpp:513-583 | the same equivalence on values |
| LogRotation.Underscored | log/aimy-log.cpp:540-544 | for a program name with '_' the directory is orderly if and only if there is no numbered file yet |
| LogRotation.Readable | log/aimy-log.cpp:540-544 | for any other name of 1 to 255 characters, if and only if no two files share an index |
| LogRotation.UnderscoredOverwrites | log/aimy-log.cpp:540-566 | my_app.log and my_app_1.log: rotation lands on the older file |
| LogRotation.IndexShared | log/aimy-log.cpp:538-545 | app_1.log and app_01.log: not orderly |
| HexImage.ReadData | imp/device-update/update-type-def.cpp:18-188 | the window shows the memory map of the records before the first bad line, zero where there is none; how far it is covered from its start; whether any record touches it |
| HexImage.LastRecordWins | imp/device-update/update-type-def.cpp:101-155 | at each address the map has what the last active data record over it says |
| HexImage.UncoveredIsEmpty | imp/device-update/update-type-def.cpp:101-155 | and nothing where there is no such record |
| HexImage.CountsIff | imp/device-update/update-type-def.cpp:101-173 | a record counts if and only if it holds data and the nearest record before it that is an end, an address of two bytes or a start address of four is an extended linear address |
| HexImage.LinearAddress | imp/device-update/update-type-def.cpp:141-153 | it then stands at the two bytes of that record, as the upper half of the address, plus its own address |
| HexImage.OtherwiseIgnored | imp/device-update/update-type-def.cpp:138-173 | after any other of these records, or none, it is ignored |
| HexImage.TouchesIff | imp/device-update/update-type-def.cpp:101-137 | the answer is 1 if and only if a record that counts and the window, each with the address behind its last byte, have an address in common |
| HexImage.TwoLines | imp/device-update/update-type-def.cpp:18-188 | two lines that put DE AD BE EF at 0x08000000, and nothing around it |
| HexImage.WrongCheckRefused | imp/device-update/update-type-def.cpp:34-100 | a line with another check byte than its own is refused |
| HexImage.DecodeEncode | imp/device-update/update-type-def.cpp:34-100 | a written record reads back as itself |
| HexImage.RecordsOfEncoded | imp/device-update/update-type-def.cpp:34-100 | a written file reads back as its records |
| CanBus.GroupComesBack | imp/can-utils/can-type-def.h:819-860 | whatever the fragment number, an id sent for a group comes back to it, and finds its cache |
| CanWire.GroupIds | imp/can-utils/can-type-def.h:396-406 | the ids of seven groups, as numbers |
| CanWire.GroupRead | imp/can-utils/can-type-def.h:833-860 | an id from the bus leads to the group in its bits 13 to 28 if that is one of nine, and to group 0 otherwise |
| CanWire.IdRead | imp/can-utils/can-util-socket.cpp:358-367 | of a received id 29 bits count behind the flag of long ids and 11 without it, and an error flag is kept |
| CanBus.PackCanFrame | imp/can-utils/can-type-def.h:696-733 | a well-formed frame that carries the data and addresses, with one id for each eight bytes, counting down |
| CanWire.FrameIs | imp/can-utils/can-type-def.h:706-722 | the one frame for data and addresses, byte by byte, with a check byte that makes the sum 0 |
| CanWire.SampleFrame | imp/can-utils/can-type-def.h:696-733 | two bytes for the boards of the first player: the ten bytes of the frame, and its pieces of eight and two |
| CanBus.CanSender.OnWrite | imp/can-utils/can-util-socket.cpp:271-328 | all queued frames go out as their fragments, in order |
| CanBus.FrameCache.UnpackCanFrame | imp/can-utils/can-type-def.h:734-809 | what comes out and what stays, as a function of the cached bytes |
| CanWire.AttemptMeans | imp/can-utils/can-type-def.h:746-805 | with the first 0x55 known, which bytes are waited for, dropped, refused or handed out |
| CanWire.NothingBegins | imp/can-utils/can-type-def.h:742-760 | without a 0x55 to begin a frame only the last six bytes stay |
| CanWire.PieceTaken | imp/can-utils/can-util-socket.cpp:374-390 | a piece that does not fit the 512 bytes of its cache is dropped |
| CanBus.CanReceiver.HandCanFrame | imp/can-utils/can-util-socket.cpp:358-405 | a fragment goes to the cache of its group; the other caches stay as they are |
| CanBus.CanReceiver.HandAll | imp/can-utils/can-util-socket.cpp:358-405 | over a whole run each cache sees just the fragments of its group |
| CanBus.Waits | imp/can-utils/can-type-def.h:734-809 | as long as a frame is not whole nothing comes out and nothing is lost |
| CanBus.Completes | imp/can-utils/can-type-def.h:734-809 | when it is whole it comes out and leaves nothing |
| CanBus.PackedAddressed | imp/can-utils/can-util-socket.cpp:476-502 | what is packed for a group is addressed to its cache |
| CanBus.RoundTrip | imp/can-utils/can-util-socket.cpp:271-405 | whatever frames are queued for whatever groups, each group's cache hands out exactly the frames sent to it, in order, and is empty again |
| CanBus.SecondByteIgnored | imp/can-utils/can-type-def.h:748-754 | a wrong second byte is never noticed |
| CanBus.CheckAtFront | imp/can-utils/can-type-def.h:778-793 | a whole frame behind bytes without 0x55 comes out if and only if the third byte of the cache is its check byte |
| CanBus.OneByteBefore | imp/can-utils/can-type-def.h:778-793 | behind one such byte, if and only if the check byte is 0xAA |
| CanBus.StrayHarmless | imp/can-utils/can-util-socket.cpp:358-405 | in pieces of eight the frame comes out, behind fewer than 248 bytes without 0x55 |
| CanBus.StrayByteIff | imp/can-utils/can-type-def.h:734-809 | one stray byte before a frame in pieces is harmless if and only if it is not 0x55 |
| StreamFrame.PacketFrame | imp/network/protocal_stream.cpp:17-35 | the buffer holds the frame of header, payload and time; null exactly when it is too long |
| StreamFrame.SampleFrame | imp/network/protocal_stream.cpp:17-35 | the eighteen bytes of a frame with one byte of header and one of payload |
| StreamFrame.EncryptPayload | imp/network/protocal_stream.cpp:137-146 | masks the range in place |
| StreamFrame.BufferToFrame | imp/network/protocal_stream.cpp:160-191 | accepts exactly the buffers that open, and leaves header and payload unmasked in place |
| StreamFrame.OpenedMeans | imp/network/protocal_stream.cpp:160-191 | a buffer opens exactly when the lengths make up its size and its unmasked bytes and the check byte sum to 0; header and payload are those bytes |
| StreamFrame.InsideIff | imp/network/protocal_stream.cpp:167-178 | reading stays within the buffer if and only if the lengths do not make up its size by wrapping around |
| StreamFrame.SizeWraps | imp/network/protocal_stream.cpp:167-178 | sixteen bytes for which it does not |
| StreamFrame.FrameOpens | imp/network/protocal_stream.cpp:17-191 | a frame opens to the header and payload it was made from |
| StreamFrame.OnlyFramesOpen | imp/network/protocal_stream.cpp:160-191 | but for its first byte, an accepted buffer is the frame of what it opens to |
| StreamFrame.CorruptionRejected | imp/network/protocal_stream.cpp:123-191 | any one changed masked byte makes the buffer refused |
| StreamFrame.FrameFound | imp/network/protocal_stream.cpp:97-121 | a frame at the front is found, whatever follows, if and only if its time stamp is timely |
| StreamFrame.DecodeMeans | imp/network/protocal_stream.cpp:97-121 | whatever the bytes: refused when the first byte is not 1, the size is over the maximum, or the time stamp is more than 300000 ms old; else the size, once it is there |
| StreamFrame.PartWaits | imp/network/protocal_stream.cpp:97-121 | part of a timely frame is waited for |
| StreamFrame.ChunkingHarmless | imp/network/protocal_stream.cpp:97-121 | however a stream of timely frames is cut into chunks, exactly the frames sent come out, in order, and nothing stays |
| ParamList.Base64Encode | imp/commandlineTool.cpp:25-61 | writes the quads of the octets, padded |
| ParamList.Base64Decode | imp/commandlineTool.cpp:63-95 | writes the octets of the quads, and a length less by the padding |
| ParamList.GroupsAreTheBits | imp/commandlineTool.cpp:25-61 | the four indices of a quad are the 24 bits of its octets, as section 4 of RFC 4648 has it |
| ParamList.Alphabet | imp/commandlineTool.cpp:27-60 | the 64 characters and the padding character |
| ParamList.Man | imp/commandlineTool.cpp:25-61 | "Man", "Ma" and "M" give "TWFu", "TWE=" and "TQ==" |
| ParamList.DecodeEncode | imp/commandlineTool.cpp:25-95 | what decodes an encoded text says the text |
| ParamList.Join | imp/commandlineTool.cpp:643-670 | the computed length is exactly filled with the encoded strings and their separators |
| ParamList.Parse | imp/commandlineTool.cpp:388-417 | one decoded parameter for each non-empty piece, in order |
| ParamList.PiecesOfJoined | imp/commandlineTool.cpp:388-417 | splitting undoes joining but for empty texts |
| ParamList.SplitAtFF | imp/commandlineTool.cpp:388-417 | the split character is 0xff, and empty pieces are no parameters |
| ParamList.ListRoundTrip | imp/commandlineTool.cpp:388-670 | what is parsed from a joined list is the list without its empty strings |
| Connector.FindToken | imp/network/itcp-server.cpp:131-150 | exactly when the answer is 0 and exactly when it is a used token; with at most 998 in use a free one is found, with at most 1000 none in use is handed out |
| Connector.TriedDiffer | imp/network/itcp-server.cpp:134-149 | the 1000 tokens tried and the one after them are all different, whatever the random device says |
| Connector.Strides | imp/network/itcp-server.cpp:134-149 | the search moves on by 1 for 99 tries, by 100 for 400, by 200 for 400, and at random for the rest |
| Connector.UsedTokenComesBack | imp/network/itcp-server.cpp:131-150 | 1001 used tokens for which a used one is handed out |
| Connector.FreeTokenThrownAway | imp/network/itcp-server.cpp:136-151 | 999 used tokens for which a free one is found and thrown away |
| Connector.ITcpServer.ActiveConnect | imp/network/itcp-server.cpp:111-222 | the maps stay inverse to each other exactly when the token is new, in particular with at most 1000 pending |
| Connector.ITcpServer.ReleaseTask | imp/network/itcp-server.cpp:260-269 | both maps lose the task, and nothing else |
| Connector.ITcpServer.Cancel | imp/network/itcp-server.cpp:224-240 | closes the descriptor of the token and forgets it in both maps |
| Connector.ITcpServer.StopAll | imp/network/itcp-server.cpp:78-92 | every pending descriptor is closed, both maps are empty |
| Connector.SamePending | imp/network/itcp-server.cpp:111-222 | there are as many pending connects as tokens in use |
| Backends.SelectBackend.UpdateChannel | core/select-task-scheduler.cpp:16-39 | the five containers stand for the interest table with the channel as its descriptor's owner |
| Backends.SelectBackend.Scan | core/select-task-scheduler.cpp:53-101 | each registered descriptor but 0 is looked at once, in order; dead ones are dropped |
| Backends.EpollBackend.UpdateChannel | core/epoll-task-scheduler.cpp:20-47 | the kernel's registrations are the table; a known descriptor keeps its first owner |
| Backends.UpdatedMeans | core/epoll-task-scheduler.cpp:20-47 | what the table says of the channel's descriptor and of the others after an update, for each backend |
| Backends.StepsAgree | core/epoll-task-scheduler.cpp:20-61 | a step leaves both backends alike if and only if it takes no descriptor over |
| Backends.AgreeIff | core/select-task-scheduler.cpp:16-51 | so over every history |
| Backends.TakeoverDrops | core/task-scheduler.cpp:61-72 | after a takeover, once the first channel is gone epoll drops a descriptor that the second still waits for |
| Backends.TakeoverDropsFive | core/epoll-task-scheduler.cpp:20-47 | a history of three steps that does so |
| Changelog.Trim | imp/changelog-format.cpp:506-519 | both loops together |
| Changelog.IsVersionStart | imp/changelog-format.cpp:573-626 | the places of the two brackets, when there are such |
| Changelog.ReadBody | imp/changelog-format.cpp:86-101 | the body up to the first line that ends it |
| Changelog.CheckTitles | imp/changelog-format.cpp:690-827 | the title entries of a body, or none when it breaks the rules |
| Changelog.ChangelogFormatter.LoadFile | imp/changelog-format.cpp:49-227 | the entries and the answer, as a function of the lines |
| Changelog.ChangelogFormatter.DumpToFile | imp/changelog-format.cpp:429-497 | the text, as a function of the entries |
| ChangelogFormat.TrimmedTo | imp/changelog-format.cpp:506-519 | trimming takes blanks and tabs in front, and these and line ends behind, and nothing else |
| ChangelogFormat.LinesBegin | imp/changelog-format.cpp:521-688 | how each kind of line begins, for all lines |
| ChangelogFormat.VersionLineIff | imp/changelog-format.cpp:573-626 | eight '#', a version without '(', a time without ')' in brackets: a version line if and only if eight '#' follow, with the brackets where they are |
| ChangelogFormat.VersionLineForm | imp/changelog-format.cpp:573-626 | and every version line is of that form |
| ChangelogFormat.TitlesIff | imp/changelog-format.cpp:690-827 | a body is accepted if and only if it begins with a title of the first level and has no lines but titles and their continuations |
| ChangelogFormat.SampleTitles | imp/changelog-format.cpp:690-827 | four lines, and the three titles they give |
| ChangelogFormat.LineDecides | imp/changelog-format.cpp:68-216 | what the first line decides: a header only at the beginning, '$' the tail, then comments, versions, or an error |
| ChangelogFormat.NoEnd | imp/changelog-format.cpp:92-192 | a header, comment or version without its end stops the loader, which keeps what it had and reports an error |
| ChangelogFormat.Written | imp/changelog-format.cpp:447-490 | what is written for each kind of entry |
| ChangelogFormat.WrittenUpTo | imp/changelog-format.cpp:447-490 | a text is cut at its first terminator, and nothing is written behind a discarded tail |
| ChangelogRoundTrip.Built | imp/changelog-format.cpp:49-227 | whatever the lines, the entries loaded are those of well-formed blocks: headers, comments, versions, a discarded tail |
| ChangelogRoundTrip.Reloaded | imp/changelog-format.cpp:429-497 | loading the dump of blocks without terminators gives each block back, or skips it, as stated block by block |
| ChangelogRoundTrip.TitlesOfCanon | imp/changelog-format.cpp:690-827 | a dumped body gives the same titles |
| ChangelogRoundTrip.VersionLineBack | imp/changelog-format.cpp:573-626 | a dumped version line with a good datum is recognised with the same datum |
| ChangelogRoundTrip.RoundTripIff | imp/changelog-format.cpp:49-497 | for every text: loading the dump of what it loaded as gives the same entries if and only if no entry holds a terminator and each version datum ends with the first ')' behind its first '('; then the loader also answers true |
| ChangelogRoundTrip.MisreadVersion | imp/changelog-format.cpp:177-187 | a text for which it does not |

## Findings

Behaviour of the code that its documentation does not announce, or that breaks
what an operation is for. Each line has an input and the exact condition.

- **An upload can skip a slice and report success.** With a vector image of 4 bytes
  and a code image cut into 65537 slices, the last vector slice and the first code
  slice both have number 0, and the handlers do not compare the command with the
  slice that is due (device_updater.cpp:507-511, 560-564). When the
  acknowledgement of the last vector slice arrives twice, the first code slice is
  never stored, and 65536 slices later success is reported
  (`UploadProtocol.SliceSkipped`). Exactly when there are vector slices and the
  number of code slices less one is a positive multiple of 65536
  (`UploadSafeIff`).
- **An upload with one code slice can be given up for good.** With images of 4 and 4
  bytes the same repeated acknowledgement makes the vector handler count the code
  slice and find no next one: the upload ends with an error and a rollback, and no
  later acknowledgement matches (`UploadProtocol.Misled`, with `DeadEnd`). The count is
  wrong in some run exactly when the two slices are numbered alike (`CountSafeIff`);
  success stays possible after every run exactly when there are code slices,
  and not just one behind vector slices (`CanFinishIff`). Without code slices the
  upload always ends with an error.
- **A successful vector reply numbered 65535 at sequence number -1** takes it to -2, and
  both images are cut once more behind the slices that are there
  (device_updater.cpp:507-516, update-file.cpp:182-211): the maps, which cut the
  images only if they were empty before (`Slicer.AppendedNow`), then hold
  everything twice (`Updater.AimyUpdater.HandleReplyUploadVectorTable`). Sequence number -1
  is where an upload is after it was given up, as in the two lines above. In no
  run is there such a reply (`UploadProtocol.NeverRestarts`).
- **The receive cache does not find its way back.** DeMux keeps its result in a bool, so
  handleDataCache never gets the result on which it would try the next byte: one
  stray byte before any frame, for instance 0x00, keeps the cache from ever
  giving a frame (`Receiver.StrayByteDooms`, `StuckForGood`). Exactly when a flag is
  wrong, the source address is empty, or all parts are there with a wrong check
  byte (`StuckIff`). And of two frames in one read the second is dropped
  (`FrameHandled`).
- **A frame over 256 bytes is not read back**: with 251 or more payload bytes, or
  248 or more and an address, the eight-bit length wraps and the check byte overwrites
  the front of the frame (Protocol.cpp:22-38). `Framing.ReadBackIff` is exact.
  With 251, 252 or 253 payload bytes (248, 249 or 250 with an address), modulo 256, the
  wrapped length is below 3 and the check loop has no end within the frame;
  `Framing.Mux` excludes length bytes below 3.
- **The size test of bufferToFrame wraps**: sixteen bytes with header length 1 and
  payload length 2^32 - 1 have the right size modulo 2^32, and the check loop
  goes by the full lengths. Exactly when the sum of the lengths and 16 is the
  buffer's size plus 2^32 (`StreamFrame.InsideIff`, `SizeWraps`).
- **Log rotation and '_'**: with the program name my_app and the files my_app.log and
  my_app_1.log, "%[^_]" reads "my" back, the older file is not found, and
  my_app.log is renamed onto it. Exactly when a numbered file exists
  (`LogRotation.Underscored`, `UnderscoredOverwrites`).
- **Log rotation and shared indices**: app_1.log and app_01.log both scan as 1; one
  of them is not rotated, and can be landed on. For names without '_' exactly
  when two files share an index (`LogRotation.Readable`, `IndexShared`).
- **epoll keeps the first owner**: channel 2 registers descriptor 5 after channel 1,
  and channel 1 goes away; select keeps the descriptor for channel 2, epoll drops
  it. Over a history the backends agree exactly when no channel takes over a
  descriptor that another one holds (`Backends.AgreeIff`, `TakeoverDropsFive`).
- **select never looks at descriptor 0**: its scan starts at 1 (select-task-scheduler.cpp:91);
  a channel on descriptor 0 stays registered and is never served (`Backends.SelectBackend.Scan`).
- **conn->disconnect(flag) with a flag leaves one side**: SignalSlotDisConnected on a whole
  connection takes it out of the signal's list but leaves it in the receiver's
  map, and the other way round. Exactly the flagged side stays
  (`Signals.Connection.Disconnect`).
- **The token search runs out silently**: its counter is unsigned, so after 1000
  used tokens it reads 2^32 - 1 and the next token is handed out without a look;
  with 1001 particular tokens in use that one is in use (`Connector.UsedTokenComesBack`).
  When only the last try finds a free token, the counter reads 0 and the token is
  thrown away: a connect can fail with 999 pending (`FreeTokenThrownAway`). `FindToken`
  says exactly when the answer is 0 and when it is in use.
- **A timer stopped too late in a pass comes back.** Two periodic timers are due, and the
  callback of the second stops or releases the first: the first is in the queue
  already and gets a new key, stopped, or under id 0. Exactly when a periodic timer
  is stopped or released after its own turn (`TimerCallbacks.StopsHonouredIff`).
- **A timer restarted in its own callback** has two keys when it is periodic, unless the
  two times are equal, and fires although idle when it is one-shot
  (`TimerCallbacks.PeriodicRestartIff`, `OneShotRestart`).
- **An indented version line is misread**: `"  ########a)(x)########"` followed by a
  line of sixteen '#' loads as the datum `##())`: positions are counted in the
  trimmed line, characters taken from the line as read (changelog-format.cpp:177-187).
  Its dump does not load again (`ChangelogRoundTrip.MisreadVersion`). A terminator
  within an entry is cut off by the dump's "%s". Loading the dump gives the same
  entries exactly in the remaining cases (`ChangelogRoundTrip.RoundTripIff`).
- **The CAN reassembler assigns where it means to compare** (can-type-def.h:750): a wrong
  second byte, as in 0x55 0x00, is never noticed (`CanBus.SecondByteIgnored`), and a
  stray 0x55 before a frame overwrites the frame's first byte. One stray byte before
  a frame that comes in pieces loses it exactly when it is 0x55 (`StrayByteIff`).
- **The CAN check byte is looked up at the front of the cache**, not of the frame
  (can-type-def.h:785): of 0x00 and a whole frame behind it in one cache nothing
  comes out, unless the frame's check byte is 0xAA; behind any bytes without 0x55
  exactly when the cache's third byte is the frame's check byte
  (`CanBus.CheckAtFront`, `OneByteBefore`). Neither matters while a cache holds only
  fragments of whole frames (`RoundTrip`), nor in pieces of eight behind such bytes,
  which are dropped in time (`StrayHarmless`).
- **Documentation**: the stream frame's limit on time stamps is commented as three
  minutes where it is defined (protocal_stream.cpp:5); the code and the comment in
  protocal_stream.h:12 have five. The comment on the broadcast group gives its id as
  1FFE021 (can-type-def.h:406); the code makes 1FFFE021 (`CanWire.GroupIds`).

## Left out

- Framing.Mux: excludes the inputs whose wrapped length byte is below 3, where the check loop's count wraps below zero; see Findings.
- Framing.CorruptionRejected: says nothing of the first byte, which DeMux never reads, and of the control, data length and address size bytes, which decide where the check byte is looked for.
- Crc.Crc16: at most 255 bytes; the source counts in eight bits and does not end for more.
- Slicer.SliceContext.FillUpdateSliceContext: page size 0, with which the cut does not end.
- UploadProtocol.UploadSafeIff: the device is the one the protocol asks for (stores what differs in command or number from the last stored, acknowledges all); its firmware is not part of this model. A second reply to the segment query in the middle of an upload is not an event.
- Updater.AimyUpdater.OnWrite: write errors that reload the task and a connection that is closed; when the device file asks to try again, queued frames are written until it takes them, as the source's loop does.
- Receiver.ReadCache.OnRead: what is read fits the cache; the optional encryption of the link is not modelled. The cache is also emptied when a task is reloaded.
- ObjectTree.Object.LoopTurn: one thread; locks, posts from other threads, and objects that come and go during a pass are not modelled. Timers have no ids here, so those with one deadline fire in the order they were armed, and what their callbacks do is to post; Timers and TimerCallbacks have the rest.
- ObjectTree.Object.GetNextTimeOut: looks, as the source does, only at objects reached through exec sets; a timer started on an object that is not noted is not seen.
- Timers.TimerOwner.HandleTimerEvent: a callback changes no timer of the same owner during the pass; TimerCallbacks has that on values. Times are unbounded integers.
- TimerCallbacks.Pass: on values, not on timer objects; callbacks do not add timers or change intervals. StopsHonouredIff is for callbacks that start none; the restarts are for a timer that is due alone.
- Signals.Perform: connections and requests on one thread; destructors and the objects behind the slots are not modelled, and flags given directly to a connection are covered by Signals.Connection.Disconnect only.
- LogRotation.AimyLogger.RenameFile: fewer than 2^31 - 1 files, so that indices stay within 32 bits; no file system errors. Prefixes longer than the 255 characters the scan has room for are modelled without that limit.
- HexImage.ReadData: data that stays within 32-bit addresses, and windows likewise.
- CanBus.PackCanFrame: at most 247 bytes of data, so that the length byte and the eight-bit loop counter do not wrap, and ids without a fragment number.
- CanBus.RoundTrip: the bus takes every piece and keeps their order within a group; the source starts a frame anew after EAGAIN in the middle of it.
- StreamFrame.BufferToFrame: excludes buffers on which it reads outside; StreamFrame.InsideIff says exactly which.
- StreamFrame.PacketFrame: totals below 2^32.
- ParamList.Parse: inputs below 2^32 / 3 bytes, so that the computed length does not wrap; ParamList.ListRoundTrip likewise by string.
- Connector.ITcpServer.ActiveConnect: for addresses that resolve; the socket calls are a parameter.
- Backends.EpollBackend.UpdateChannel: epoll_ctl succeeds; closing a registered descriptor behind the backend's back and descriptors above FD_SETSIZE are not modelled.
- Changelog.ChangelogFormatter.LoadFile: lines of any length, where a line beyond the source's 4096 characters makes getline replace the buffer it was given; the version index and the HTML, XML and JSON output are not modelled.
- Queries before the upload (device, UPID, work mode, software version), the quit reply, and reloading a task: easy request and reply handlers.
- SHA-256, ini files, the TCP and UDP wrappers, the application message tables of the CAN devices: no invariant across steps.
- Futures, threads, the wakeup pipe and the object destructors: concurrency outside the loop's own thread.
