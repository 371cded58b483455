# Warden SDK: proofs about its protocol and driver cores

The Warden SDK carries several small pieces of logic on which whole-system promises rest.
Each has a module here. State that the program updates in place is a class or an array with
methods, proved against a specification function; the theorems about whole runs are lemmas
about that function.

| modules | what they model | main results |
|---|---|---|
| `Basics` | optional values and 32-bit words, shared by all | |
| `Crc`, `CrcDistance`, `BitPacking` | the Modbus RTU checksum and the packing of registers and coils | every valid frame hit by a burst of up to 16 wire bits, an odd number of flips anywhere, or up to three flips in at most 4095 bytes is rejected, and all these limits are exact; two frames merged never pass; exactly when a part of a cut frame passes, for one gap and for two |
| `Modbus`, `ModbusDevice`, `ModbusTheorems` | the slave simulator | silence and exceptions never write; replies are well formed and fit 256 bytes; writes read back, and move nothing else |
| `ModbusProtocol` | the slave on the wire, function by function | the whole exception table; what each function shows and changes, bit by bit |
| `BankIsolation` | the slave's four banks | over any run, answers about one bank depend on no other |
| `FramingSlips` | a gap in the wrong place | merged requests are ignored; the first part of an accepted request never writes; the second can |
| `SerialPump` | the RS-485 bridge's gap framer | it refines "split the wire at its silences", however the bytes are chunked |
| `SimBus`, `Hpmcu`, `HpmcuTheorems` | the HPMCU watchdog firmware | no boot loop under any interleaving with a beating daemon; a dead daemon is reset between 90 s and 90 s plus one poll; stand-downs included; an exact history specification |
| `Cru`, `CruHistory` | reset ladder and watchdog backstop | what every register holds, from the events alone, and so when exactly a poll bites; one pet buys one timeout; every reset is attributed; foreign writes are invisible |
| `Freshness`, `FreshnessTheorems` | the display's freshness engine | no stale value survives a refresh, across any number of 32-bit clock wraps; the gap bound is exact; a hidden page stays untouched |
| `VopClocks`, `VopFlip` | the display controller's clock, PM, vblank and framebuffer references | exact counts over every run, failed binds included; every framebuffer released exactly once, and committed by the next vblank once its call has returned, under every interleaving |
| `MailboxEcho` | the SCR1 echo firmware against the A7, one register access at a time | the A7 reads back exactly what it posted, if it writes the doorbell register last, and is answered within 57 turns of the core |
| `Pvtpll`, `Rtc` | PVTPLL calibration; RTC time encoding and trim | termination and bounds for arbitrary oscillators, exact convergence for linear ones; round trip; no 32-bit product wraps |
| `Text`, `TextForms`, `IniLint`, `IniForms`, `LoaderNames`, `DtsLint`, `DtsRoundTrip`, `DtsForms`, `Gate` | the configuration gate | both scanners recover what was printed, in every form it may be written; which names are safe; exactly when the ranges taken are the reserved ones, and when the gate passes |

`dafny verify dfyconfig.toml` checks everything.

## Where the code and its promises part

The model follows the code. Each point below is a lemma.

- A word already saying ARMED when the HPMCU comes up, before any beat, cuts the 300 s boot grace to 90 s (`HpmcuTheorems.StaleArmedWordCutsGrace`). Without it the watchdog never resets a daemon that beats.
- The bridge's header says a mis-split frame fails the checksum and never gives a phantom reply (`qemu/rs485-bridge/src/lib.rs:7-10`). It can. A part of a cut frame passes exactly when the other part leaves a certain register unchanged (`Crc.SplitFrameExactly`, `FramingSlips.SlipsAnsweredIff`). For every start there is a well-formed two-register write whose first nine bytes draw a reply (`FramingSlips.CutHeadAnswered`), though never a write (`FramingSlips.CutHeadNeverWrites`). And for every single-register write there is a well-formed four-register write to the same slave which, cut after nine bytes, carries out that one instead (`FramingSlips.CutTailWrites`, `FramingSlips.SpuriousGapWrites`). What does hold: merged frames are ignored, and the two parts of a frame cut once are never both answered. Cut twice, they can be: any two requests with 0x57 and 0x15 between them are one valid frame (`FramingSlips.TwoRequestsInOne`); `Crc.PartValidIff` says exactly when a part between two gaps passes.
- `drivers/freshness/freshness.h` says a missing source is never shown as a last-known value. The code holds the value exactly while there was a success, the mark is not up and the age is within budget (`FreshnessTheorems.MissingSourceHolds`).
- A producer whose first answer is "unchanged" counts as fresh but shows nothing (`FreshnessTheorems.SameFirstShowsNothing`).
- A refresh 2^32 - maxStale milliseconds after the one before may take a value 2^32 ms old for a fresh one (`FreshnessTheorems.GapBoundIsTight`); `FreshnessTheorems.StaleShownIffAliased` says exactly when an over-age value stays.
- If the bootloader takeover cannot enable dclk, the failure is ignored and dclk stays one reference short for ever: -1 after the first enable and disable (`VopClocks.DclkBalancesIff`). A disable after an enable that failed underflows too (`VopClocks.DisciplineNeeded`). A bind that fails after `vop_initial` undoes nothing of it: it leaves the three prepares, and the references of a takeover, behind for good (`VopClocks.ReferencesBalance`, `VopClocks.LeakFreeIff`).
- An asynchronous update or flush whose vblank get fails still puts a reference later, and a flush onto a pending event loses one; the vblank count is off by the second number less the first (`VopFlip.ReferencesAccounted`), for instance by -1 or by 1 (`VopFlip.CountCanGoWrong`).
- A stand-down of the HPMCU that no poll sees buys no time: arming again is safe exactly with a fresh beat or within 90 s of the last one noticed (`HpmcuTheorems.UnseenStandDown`).
- A PVTPLL probe that reads exactly 2^31 above target counts as a hit, because `abs` of the most negative int is negative; it is the only such reading (`Pvtpll.LinearConverges`).
- The mailbox firmware's comments name CMD as the doorbell (`kernel/rv1106-enablement/mailbox/scr1-echo/main.c:13-15`), the round-trip script and its report DAT. The doorbell is a parameter: the echo is verbatim if the A7 writes it last, and takes an old value if it writes it first (`MailboxEcho.EchoIsVerbatim`, `MailboxEcho.BellFirstEchoesOldValue`). The same comments let the B2A_CMD write ring Linux, before B2A_DAT is written: an A7 that reads on that bell can get the old data word (`MailboxEcho.EarlyBellReadsOldData`); if B2A_DAT rings, reading on the bell is verbatim.
- The firmware announces itself before it enables its doorbell, so a message posted on the announcement can be lost while looking answered (`MailboxEcho.LivenessWordIsTooEarly`).
- `set_time` then `read_time` is the identity exactly for years from 2000 on (`Rtc.TimeRoundTrip`).
- The devicetree scanner says it takes only the ranges inside `reserved-memory` nodes (`tools/config-lint/src/lib.rs:154-157`). It takes those of whichever node opens next after the word, be it in a comment: exactly what was meant if no other such node holds a range (`DtsRoundTrip.TakesOnlyMeantIff`), and the whole of RAM after a comment above the root node (`DtsRoundTrip.CommentTakesRoot`, `Gate.CommentOpensGate`).
- The configuration gate never accepts the address 2^64 - 1, in whatever range (`Gate.ContainsIsMembership`).

## Model

| member | source | states |
|---|---|---|
| Crc.Crc16 | sim/src/modbus.rs:26-39 | the nested loops compute the shift-register run from 0xFFFF, whose laws the lemmas below prove |
| Crc.AppendCrc | sim/src/modbus.rs:42-46 | the frame is sealed with its checksum, low byte first |
| Crc.CheckCrc | sim/src/modbus.rs:49-55 | accepts exactly frames of at least three bytes whose last two are the checksum of the rest |
| Crc.ValidIffResidueZero | sim/src/modbus.rs:49-55 | a frame is valid iff it has at least three bytes and the register run over all of it ends at zero |
| Crc.SealedIsValid | sim/src/modbus.rs:41-55 | sealing a non-empty body gives a valid frame with that body |
| Crc.ValidIsSealed | sim/src/modbus.rs:41-55 | sealing is the only way to a valid frame: the inverse of the row above |
| Crc.RunOneToOne | sim/src/modbus.rs:26-39 | over the same bytes, different registers stay different |
| Crc.RunLinear | sim/src/modbus.rs:26-39 | the run is linear over exclusive or, in register and bytes together |
| Crc.FlipUndetectedIff | sim/src/modbus.rs:49-55 | whether an error pattern slips through a valid frame depends on the pattern alone: iff its own run from zero ends at zero |
| Crc.BurstRejected | sim/src/modbus.rs:49-55 | any error within sixteen consecutive wire bits of a valid frame, at any bit position and length, is rejected |
| Crc.TwoAdjacentBytesRejected | sim/src/modbus.rs:49-55 | a frame that differs from a valid one in two adjacent bytes only is not valid |
| Crc.MergedFramesRejected | qemu/rs485-bridge/src/lib.rs:5-10 | two valid frames run together never pass the checksum |
| Crc.SplitFrameExactly | qemu/rs485-bridge/src/lib.rs:5-10 | of a valid frame cut in two, the first part is valid iff the second leaves a zero register zero, the second iff the first leaves a fresh register fresh; never both |
| Crc.PartValidIff | qemu/rs485-bridge/src/lib.rs:5-10 | any part of a valid frame is valid iff what the bytes before it did to the register, carried silently over its length, is undone by the bytes after it; its own contents do not matter |
| Crc.SteerStarts | sim/src/modbus.rs:26-39 | after any bytes, two more bring the register back to its start |
| CrcDistance.OddFlipsRejected | sim/src/modbus.rs:49-55 | an odd number of flipped bits, anywhere in a frame of any length, is rejected |
| CrcDistance.PeriodIs32767 | sim/src/modbus.rs:30-36 | the shift register first returns to its top bit after 32767 turns |
| CrcDistance.UpToThreeFlipsRejected | sim/src/modbus.rs:49-55 | one to three flipped bits, wherever they are, in a valid frame of up to 4095 bytes are rejected |
| CrcDistance.TwoFlipsPassBeyond | sim/src/modbus.rs:49-55 | 4095 is exact: in every longer valid frame some two flips pass |
| CrcDistance.FourFlipsCanPass | sim/src/modbus.rs:49-55 | three flips and sixteen burst bits are exact: in every valid frame some four flips within seventeen wire bits pass |
| BitPacking.RegBytesRoundTrip | sim/src/modbus.rs:193-196 | registers decoded from a payload encode back to it byte for byte |
| BitPacking.PackedBit | sim/src/modbus.rs:217-224 | bit i of packed coils is coil i, and the padding is clear |
| BitPacking.LowBitFirst | sim/src/modbus.rs:217-224 | bit j of a byte is worth 2^j |
| BitPacking.UnpackOfPack | sim/src/modbus.rs:217-224 | coils packed and unpacked are the same coils |
| BitPacking.PackOfUnpack | sim/src/modbus.rs:293-295 | a payload unpacked and packed is itself with the bits past the count cleared |
| ModbusDevice.PackInto | sim/src/modbus.rs:217-224 | the loop that ors one bit at a time into a zeroed buffer computes that packing |
| ModbusDevice.ModbusSlave.constructor | sim/src/modbus.rs:76-87 | a new slave has cleared banks of the given sizes, its default id and no faults |
| ModbusDevice.ModbusSlave.HandleFrame | sim/src/modbus.rs:128-162 | reply and new device state of one frame are the frame specification's, with its order of checks: drop, length, checksum, address, forced exception |
| ModbusDevice.ModbusSlave.Dispatch | sim/src/modbus.rs:165-178 | the function codes act on their own banks; unknown ones are illegal functions; address, id and faults stay |
| ModbusDevice.ModbusSlave.ReadRegs | sim/src/modbus.rs:180-198 | the read loop answers with the chosen bank's range |
| ModbusDevice.ModbusSlave.ReadBits | sim/src/modbus.rs:200-226 | the same for coils and discrete inputs |
| ModbusDevice.ModbusSlave.WriteSingleReg | sim/src/modbus.rs:228-239 | one register changes, or an exception and none does |
| ModbusDevice.ModbusSlave.WriteSingleCoil | sim/src/modbus.rs:241-255 | one coil changes on 0x0000 or 0xFF00, or an exception and none does |
| ModbusDevice.ModbusSlave.WriteMultiRegs | sim/src/modbus.rs:257-274 | checks, then the range is overwritten with the decoded payload and start and count are echoed |
| ModbusDevice.ModbusSlave.StoreRegs | sim/src/modbus.rs:270-272 | the store loop overwrites exactly the range |
| ModbusDevice.ModbusSlave.WriteMultiCoils | sim/src/modbus.rs:276-297 | the same for coils |
| ModbusDevice.ModbusSlave.StoreCoils | sim/src/modbus.rs:293-295 | the store loop overwrites exactly the range with the payload's bits |
| ModbusTheorems.InvalidFrameIgnored | sim/src/modbus.rs:128-135 | a frame that fails the checksum gets no reply and changes no bank |
| ModbusTheorems.CorruptedFrameIgnored | sim/src/modbus.rs:128-135 | so a valid frame damaged by a 16-bit burst, an odd number of flips, or up to three flips is ignored |
| FramingSlips.SlipsAnsweredIff | qemu/rs485-bridge/src/lib.rs:5-10 | merged requests are ignored; exactly when a device answers the first or the second part of a cut one; never both of the two, whichever devices listen |
| FramingSlips.PartAnsweredIff | qemu/rs485-bridge/src/lib.rs:5-10 | exactly when a device answers what lies between two gaps |
| FramingSlips.TwoRequestsInOne | qemu/rs485-bridge/src/lib.rs:5-10 | any two requests with two fixed bytes between them are one valid frame, so two gaps can give two exchanges |
| FramingSlips.CutHeadNeverWrites | sim/src/modbus.rs:128-297 | the first part of a request the slave would carry out changes no bank, and is answered by an exception at most (or the slave id) |
| FramingSlips.CutHeadAnswered | qemu/rs485-bridge/src/lib.rs:5-10 | but answered it can be: a well-formed write for every start |
| FramingSlips.CutTailWrites | qemu/rs485-bridge/src/lib.rs:5-10 | the second part can write: a well-formed write for every start and every single-register write, which it carries out instead |
| FramingSlips.SpuriousGapWrites | qemu/rs485-bridge/src/lib.rs:56-121 | through the pump: one spurious gap gives that reply and that state |
| ModbusTheorems.OnlyNormalRepliesWrite | sim/src/modbus.rs:128-162 | silence and exceptions leave all four banks as they were |
| ModbusTheorems.ReplyWellFormed | sim/src/modbus.rs:128-162 | every reply answers a valid frame to this address, is valid, carries address and function code (or it with 0x80), and is at most 256 bytes if the slave id is at most 251 |
| ModbusTheorems.SlaveIdReplyLength | sim/src/modbus.rs:299-303 | 251 is exact: the id reply is the id, its length byte and four more |
| ModbusProtocol.SilentIff | sim/src/modbus.rs:128-140 | silent iff dropping, too short, damaged or for someone else; then only the drop count moves |
| ModbusProtocol.ExceptionTable | sim/src/modbus.rs:142-178 | the whole table: the injected code, 1 for an unknown function, 3 for ill-formed data, 2 for a range outside the bank, in this order and with nothing changed; every other request is carried out |
| ModbusProtocol.BitsOnWire | sim/src/modbus.rs:200-226 | 0x01 shows the coils and 0x02 the discrete inputs of the range, bit by bit, padding clear, and changes nothing |
| ModbusProtocol.RegsOnWire | sim/src/modbus.rs:180-198 | 0x03 shows the holding and 0x04 the input registers of the range, high byte first, and changes nothing |
| ModbusProtocol.CoilOnWire | sim/src/modbus.rs:241-255 | 0x05 sets or clears exactly the addressed coil and echoes the request |
| ModbusProtocol.RegOnWire | sim/src/modbus.rs:228-239 | 0x06 stores exactly the addressed register and echoes the request |
| ModbusProtocol.BigEndian | sim/src/modbus.rs:184-185 | addresses, counts and values travel high byte first |
| ModbusTheorems.ShapeKept | sim/src/modbus.rs:128-303 | no sequence of frames resizes a bank or changes the read-only banks, address, id or forced exception |
| ModbusTheorems.WriteRegsThenRead | sim/src/modbus.rs:180-274 | through whole frames, 0x10 then 0x03 returns the payload verbatim; all else is unchanged |
| ModbusTheorems.WriteCoilsThenRead | sim/src/modbus.rs:200-297 | 0x0F then 0x01 returns the payload with unused high bits cleared; all else is unchanged |
| BankIsolation.FrameIsolated | sim/src/modbus.rs:128-178 | devices alike in address, faults and one bank stay so through any frame, and answer alike if it concerns that bank |
| BankIsolation.BanksIsolated | sim/src/modbus.rs:128-297 | hence through any sequence of frames |
| ModbusTheorems.ReadBitsShowsBank | sim/src/modbus.rs:200-226 | a bit read succeeds iff the range is legal and inside the bank, and then shows exactly those bits |
| ModbusTheorems.ReadRegsShowsBank | sim/src/modbus.rs:180-198 | the same for registers, high byte first |
| ModbusTheorems.SingleRegIsMultiOfOne | sim/src/modbus.rs:228-274 | writing one register is the multiple write of length one |
| ModbusTheorems.SingleCoilIsMultiOfOne | sim/src/modbus.rs:241-297 | writing one coil is the multiple write of length one |
| SerialPump.DispatchFrame | qemu/rs485-bridge/src/lib.rs:106-121 | the slave gets the whole buffer; a reply that cannot be written is the only failure |
| SerialPump.PumpSerial | qemu/rs485-bridge/src/lib.rs:56-104 | the read loop ends with the state, replies and discards of the event-by-event specification |
| SerialPump.EveryByteAccounted | qemu/rs485-bridge/src/lib.rs:56-104 | every event keeps the account of bytes, from any accounted state |
| SerialPump.SessionAccounted | qemu/rs485-bridge/src/lib.rs:56-104 | so from the start: dispatched and discarded buffers in order, then the pending bytes, are exactly the bytes read; pending stays within 512; discards are counted |
| SerialPump.DataWaits | qemu/rs485-bridge/src/lib.rs:71-92 | data waits up to 512 bytes; beyond that all of it is dropped and nothing else changes |
| SerialPump.SilenceDispatches | qemu/rs485-bridge/src/lib.rs:66-121 | a gap or the end hands a waiting buffer to the slave; the answer goes out or the pump breaks off |
| SerialPump.RecoversFromOverrun | qemu/rs485-bridge/src/lib.rs:71-104 | after an overrun the next run is answered as usual |
| SerialPump.SessionDelivers | qemu/rs485-bridge/src/lib.rs:56-121 | from any running state the rest of a session delivers its gap-free runs to the slave |
| SerialPump.PumpSplitsAtGaps | qemu/rs485-bridge/src/lib.rs:5-10 | replies and final device state are those of feeding the slave the maximal gap-free runs, when each fits 512 bytes |
| SerialPump.ChunkingIrrelevant | qemu/rs485-bridge/src/lib.rs:56-104 | sessions with the same bytes and silences behave alike, however chunked |
| SimBus.Bus.Poke32 | sim/src/membus.rs:48-58 | a write changes its own word |
| SimBus.ReadsLastWrite | sim/src/membus.rs:48-58 | a word is what was last written, zero before |
| Hpmcu.HpmcuSim.constructor | sim/src/hpmcu.rs:52-66 | bring-up state and the words it writes |
| Hpmcu.HpmcuSim.RecordFire | sim/src/hpmcu.rs:79-86 | firing is latched, counted and shown in the state word |
| Hpmcu.HpmcuSim.Tick | sim/src/hpmcu.rs:90-131 | one poll changes variables and words as its specification says |
| Hpmcu.TickWritesOwnWords | sim/src/hpmcu.rs:75-131 | only the MCU's three words change; the state word tells FIRED, DISARMED, ARMED or BOOT truly, with the poll count below; the others hold the time and the counter last seen |
| HpmcuTheorems.FiresIffOverdue | sim/src/hpmcu.rs:90-131 | exact history specification: fired iff some poll was overdue (armed once: over 90 s since start, stand-down or fresh beat; never armed: over 300 s since start or stand-down), and once only |
| HpmcuTheorems.Thresholds | sim/src/hpmcu.rs:90-131 | the limits to the second: 90 in time, 91 late; 300 in time, 301 late before any arming |
| HpmcuTheorems.RunKeepsAlive | sim/src/hpmcu.rs:90-145 | the invariant relating MCU, shared words and daemon holds through every interleaving |
| HpmcuTheorems.BeatingDaemonNeverReset | sim/src/hpmcu.rs:52-145 | brought up on words not saying ARMED, with a daemon that arms or stands down within 300 s and whose last beat, while armed, is at most 90 s old, on a wrapping counter, the MCU never fires; stand-downs at any time |
| HpmcuTheorems.StaleArmedWordCutsGrace | sim/src/hpmcu.rs:90-131 | with an ARMED word left over it fires after 91 s |
| HpmcuTheorems.UnseenStandDown | sim/src/hpmcu.rs:90-131 | a daemon that stood down and armed again between polls is reset iff it did not beat and its last noticed beat is over 90 s old |
| HpmcuTheorems.DeadDaemonReset | sim/src/hpmcu.rs:90-131 | once beats stop and polls are at most g apart, it fires more than 90 s and at most 90 + g s after the last beat seen |
| Cru.CruSim.constructor | sim/src/cru.rs:75-83 | a fresh ladder |
| Cru.CruSim.PowerOnReset | sim/src/cru.rs:99-103 | the boot register and the ladder are cleared as specified |
| Cru.CruSim.PollAt | sim/src/cru.rs:108-138 | one poll: CRU request first, then pet, disable, arm or bite |
| Cru.CruSim.ArmWdt | sim/src/cru.rs:140-145 | the deadline is now plus 2^TORR |
| Cru.CruSim.RecordFire | sim/src/cru.rs:147-154 | count, cause and landing mode of a reset |
| Cru.RunTracks | sim/src/cru.rs:99-154 | over every interleaving: the reset count is the number of polls that fired, boot mode and cause those of the latest reset, deadline that of the latest arming |
| Cru.WatchdogBitesExactly | sim/src/cru.rs:108-145 | a poll answers Watchdog iff no CRU request and no pet is pending, it is enabled, counting, and the armed deadline has come; a poll that arms never fires |
| Cru.ResetsAreRequested | sim/src/cru.rs:108-118 | CRU resets never outnumber the magic words present at the start or written |
| Cru.ForeignWritesInvisible | sim/src/cru.rs:21-38 | dropping every write to addresses the ladder does not own changes no result |
| Cru.RunsIndistinguishable | sim/src/cru.rs:21-38 | runs that differ only in such writes, 0xff3a0614 among them, are alike |
| Cru.BootRegisterSurvives | sim/src/cru.rs:99-154 | only a write or a power-on reset changes the boot register |
| CruHistory.RegistersFollowEvents | sim/src/cru.rs:99-145 | in every run each register holds what the events say: last write, requests and pets consumed by polls, the boot register restored by a power cycle |
| CruHistory.ObservationsFollowEvents | sim/src/cru.rs:108-145 | so every poll sees exactly that: request, enable, pet, boot word, and the timeout 2^TORR, written out |
| CruHistory.PetsArePaidFor | sim/src/cru.rs:121-124 | pets taken never outnumber pets written or pending at the start |
| CruHistory.SilenceBites | sim/src/cru.rs:119-138 | after a pet with nothing written any more, polls before its timeout answer nothing and the first after it answers Watchdog |
| CruHistory.ResetLandsIn | sim/src/cru.rs:54-60 | a boot word written, then a reset requested: the next poll lands in that mode, and keeps the word |
| CruHistory.PowerCycleForgets | sim/src/cru.rs:99-103 | a power cycle forgets the word and the mode, not the count or the cause |
| Freshness.FreshTable.constructor | drivers/freshness/freshness.c:164-167 | an empty table |
| Freshness.FreshTable.Bind | drivers/freshness/freshness.c:104-126 | binds the first free slot, iff there is one and both callbacks are given; nothing else changes |
| Freshness.FreshTable.SetVisible | drivers/freshness/freshness.c:128-133 | every used slot of the page takes the visibility and keeps the rest; every other slot is as it was |
| Freshness.FreshTable.PageShow | drivers/freshness/freshness.c:135-144 | exactly the page's bindings become visible and are refreshed |
| Freshness.FreshTable.Tick | drivers/freshness/freshness.c:146-151 | exactly the visible bindings are refreshed |
| Freshness.FreshTable.Invalidate | drivers/freshness/freshness.c:153-162 | exactly the visible bindings of the source are refreshed |
| Freshness.FreshTable.RefreshOne | drivers/freshness/freshness.c:69-102 | one slot takes the decided state, no other moves |
| Freshness.RefreshTable | drivers/freshness/freshness.c:46-102 | what becomes of a slot, answer by answer, with the age modulo 2^32 |
| Freshness.FreshTable.Reset | drivers/freshness/freshness.c:164-167 | every slot is free |
| Freshness.FreshTable.Count | drivers/freshness/freshness.c:169-174 | the number of used slots |
| Freshness.FreshTable.MinBudget | drivers/freshness/freshness.c:176-191 | the least budget on screen, attained, or zero when nothing is |
| FreshnessTheorems.StepIsTheTable | drivers/freshness/freshness.c:104-167 | the run model moves a slot as the table's entry points do |
| FreshnessTheorems.HiddenStaysFrozen | drivers/freshness/freshness.c:128-162 | over any calls that do not show a hidden page, its bindings stay exactly as they were |
| FreshnessTheorems.ShowingWakesIt | drivers/freshness/freshness.c:135-144 | shown again, it is visible and refreshed at once |
| FreshnessTheorems.AnswersItsSource | drivers/freshness/freshness.c:104-162 | a binding answers to invalidations of the source it was bound with, and of no other |
| FreshnessTheorems.RunGood | drivers/freshness/freshness.c:46-167 | every run that keeps the gap bound keeps the invariant tying the 32-bit state to the true times |
| FreshnessTheorems.NeverStale | drivers/freshness/freshness.c:46-102 | after every refresh the widget shows the unknown mark, or a value whose true age is within budget and whose text is the last delivered |
| FreshnessTheorems.WidgetIsLastText | drivers/freshness/freshness.c:69-102 | for producers whose first success is a value, it is the mark or exactly that text |
| FreshnessTheorems.SameFirstShowsNothing | drivers/freshness/freshness.c:69-102 | otherwise it can count as fresh and show nothing |
| FreshnessTheorems.MissingSourceHolds | drivers/freshness/freshness.c:46-102 | with the source gone the value stays iff there was a success, the mark is not up and the 32-bit age is within budget; otherwise the mark is shown |
| FreshnessTheorems.StaleShownIffAliased | drivers/freshness/freshness.c:46-67 | an over-age value stays iff the source is gone and the true age modulo 2^32 is back within budget |
| FreshnessTheorems.GapBoundIsTight | drivers/freshness/freshness.c:46-67 | for every budget but 2^32 - 1 a gap one millisecond over the bound can show a value 2^32 ms old |
| VopClocks.Vop.CoreClksEnable | kernel/rv1106-enablement/display/rockchip_drm_vop.c:583-600 | both core clocks or neither |
| VopClocks.Vop.CoreClksDisable | kernel/rv1106-enablement/display/rockchip_drm_vop.c:602-606 | one reference less of each |
| VopClocks.Vop.EnableCrtc | kernel/rv1106-enablement/display/rockchip_drm_vop.c:623-721 | all four references and the bootloader's returned, or, failing anywhere, nothing changed |
| VopClocks.Vop.DisableCrtc | kernel/rv1106-enablement/display/rockchip_drm_vop.c:742-801 | gives the four references back; self-refresh touches none |
| VopClocks.Vop.Isr | kernel/rv1106-enablement/display/rockchip_drm_vop.c:1801-1866 | the handler leaves every count as it found it, on every path |
| VopClocks.Vop.AcquireClocks | kernel/rv1106-enablement/display/rockchip_drm_vop.c:2053-2070 | setup's clocks, or no trace |
| VopClocks.Vop.ReleaseClocks | kernel/rv1106-enablement/display/rockchip_drm_vop.c:2169-2174 | the error labels undo exactly what was taken |
| VopClocks.Vop.FinishSetup | kernel/rv1106-enablement/display/rockchip_drm_vop.c:2147-2165 | keeps the bootloader's picture running, or lets go of clocks and PM |
| VopClocks.Vop.InitialSetup | kernel/rv1106-enablement/display/rockchip_drm_vop.c:2026-2178 | the whole setup, for a failure at any step |
| VopClocks.Vop.BindDevice | kernel/rv1106-enablement/display/rockchip_drm_vop.c:2311-2341 | what a bind does to the counts: those of the setup, whether or not it fails after it |
| VopClocks.ReferencesBalance | kernel/rv1106-enablement/display/rockchip_drm_vop.c:583-801 | after any failed attempts to bind, a successful one and any run: hclk, aclk and PM each equal enabled plus takeover, zero or one, plus exactly what attempts failing after the setup left; dclk too, less one if the takeover enable failed; the prepares likewise |
| VopClocks.DclkBalancesIff | kernel/rv1106-enablement/display/rockchip_drm_vop.c:2147-2156 | after a first bind dclk balances in every run iff no takeover enable failed |
| VopClocks.LeakFreeIff | kernel/rv1106-enablement/display/rockchip_drm_vop.c:2311-2341 | failed attempts to bind leave no trace iff none of them failed after vop_initial |
| VopClocks.DisciplineNeeded | kernel/rv1106-enablement/display/rockchip_drm_vop.c:623-801 | a disable keeps the balance iff enabled, an enable iff not; a failed enable changes nothing |
| VopFlip.StepKeepsInv | kernel/rv1106-enablement/display/rockchip_drm_vop.c:1119-1866 | each atomic step of commit, async update, interrupt or worker keeps the reference invariant |
| VopFlip.RunKeepsInv | kernel/rv1106-enablement/display/rockchip_drm_vop.c:1119-1866 | hence every interleaving does |
| VopFlip.ReferencesAccounted | kernel/rv1106-enablement/display/rockchip_drm_vop.c:1137-1157 | in every state of every interleaving: vblank references are those of counted, unreleased flips plus a pending event, off by overwritten events less failed gets; framebuffer references likewise; each flip is queued at most once and is waiting or was released; one whose call has returned has the pending bit or a handler about to commit |
| VopFlip.QuiescentReferences | kernel/rv1106-enablement/display/rockchip_drm_vop.c:1623-1645 | between calls: references are the unreleased framebuffers and the event, with the same deviation, and anything uncommitted has the bit |
| VopFlip.CountCanGoWrong | kernel/rv1106-enablement/display/rockchip_drm_vop.c:1623-1631 | a failed get ends at -1, an overwritten event at 1 with no owner |
| VopFlip.VblankCommits | kernel/rv1106-enablement/display/rockchip_drm_vop.c:1784-1799 | from any state of any run and over any continuation in which the handler completes a run, a flip whose queuing call had returned has left the queue for the worker |
| VopFlip.LateFlipMissed | kernel/rv1106-enablement/display/rockchip_drm_vop.c:1784-1799 | before the call returns a handler may pass and leave its flip behind |
| VopFlip.WorkerDrains | kernel/rv1106-enablement/display/rockchip_drm_vop.c:1775-1782 | the worker can then release all of it, leaving only the event's reference |
| VopFlip.Retire | kernel/rv1106-enablement/display/rockchip_drm_vop.c:1137-1157 | the driver's four calls queue one framebuffer with its reference and set the bit |
| VopFlip.Flush | kernel/rv1106-enablement/display/rockchip_drm_vop.c:1588-1646 | exactly the planes that had a framebuffer and now have another or none get it queued, held and counted, each by its own call; the event moves in |
| VopFlip.FlushPlanes | kernel/rv1106-enablement/display/rockchip_drm_vop.c:1633-1645 | the plane loop queues and holds exactly those, in order |
| VopFlip.EachGivenUpOnce | kernel/rv1106-enablement/display/rockchip_drm_vop.c:1633-1645 | every framebuffer is queued once for each plane that gives it up, and for no other |
| VopFlip.HandleVblank | kernel/rv1106-enablement/display/rockchip_drm_vop.c:1784-1799 | a pending event is sent and its reference dropped; if the bit was set it is cleared and everything queued goes to the worker |
| VopFlip.UnrefWorker | kernel/rv1106-enablement/display/rockchip_drm_vop.c:1775-1782 | one flip gives back one vblank and one framebuffer reference |
| VopFlip.AsyncUpdate | kernel/rv1106-enablement/display/rockchip_drm_vop.c:1119-1158 | the old framebuffer is queued and held, with its bit, iff the display is on and the plane had one and now has another or none; else nothing changes |
| MailboxEcho.StepKeepsInv | kernel/rv1106-enablement/mailbox/scr1-echo/main.c:61-98 | every single access of either core keeps the protocol invariant |
| MailboxEcho.EchoIsVerbatim | kernel/rv1106-enablement/mailbox/scr1-echo/main.c:61-98 | with the doorbell written last, every pair read back is the pair posted, whether the A7 goes by the A2B bit or by its own bell on B2A_DAT; posted equals acknowledged plus the bit; the counters are the acknowledgements modulo 2^32 |
| MailboxEcho.AnsweredWithin57 | kernel/rv1106-enablement/mailbox/scr1-echo/main.c:75-97 | from any state of any run a message whose bit is up is acknowledged within 57 turns of the core (register accesses and tests of its snapshot), however the A7 interleaves on all channels |
| MailboxEcho.BellFirstEchoesOldValue | kernel/rv1106-enablement/mailbox/scr1-echo/mbox-roundtrip.sh:2-10 | with the doorbell written first the A7 can read back the other register's old value |
| MailboxEcho.EarlyBellReadsOldData | kernel/rv1106-enablement/mailbox/scr1-echo/main.c:85-90 | if B2A_CMD rings the A7, a reader going by that bell can get the old data word |
| MailboxEcho.LivenessWordIsTooEarly | kernel/rv1106-enablement/mailbox/scr1-echo/main.c:65-73 | a post made on seeing the liveness word can be lost and look answered |
| Pvtpll.Settle | kernel/rv1106-enablement/clk/clk-rv1106.c:1037-1050 | the closing loop takes single steps towards the target, each after a reading out of band, ends in band, out of patience or at the floor, and writes nothing when already in band |
| Pvtpll.Calibrate | kernel/rv1106-enablement/clk/clk-rv1106.c:1002-1051 | for any oscillator: at most 23 writes, all above the original length; probe, jump by the measured slope, then those single steps |
| Pvtpll.CalibrationIs | kernel/rv1106-enablement/clk/clk-rv1106.c:1002-1051 | the same in plain numbers: a 32nd of the target, the probe, the excess over the measured slope of at least 5, single steps |
| Pvtpll.InBandIs | kernel/rv1106-enablement/clk/clk-rv1106.c:1019-1037 | in band is within a 32nd of the target on either side, or exactly 2^31 above it |
| Pvtpll.LinearConverges | kernel/rv1106-enablement/clk/clk-rv1106.c:1002-1051 | for a linear oscillator with slope from 5 to the margin, from any length but the last: when it acts, when the probe ends it, what the jump reads wherever the 7-bit field takes it, and that it ends in band iff one of 22 lengths is a hit; a jump within the field is one at once |
| Pvtpll.LastLengthNeverConverges | kernel/rv1106-enablement/clk/clk-rv1106.c:1002-1051 | from length 0x7f it never gets nearer the target |
| Rtc.SetTime | kernel/rv1106-enablement/rtc/rtc-rockchip.c:204-218 | the eight registers in order: seconds, minutes, hours, day, month plus one, year in its century, century, weekday, each with the write key |
| Rtc.TimeRoundTrip | kernel/rv1106-enablement/rtc/rtc-rockchip.c:175-183 | a valid time set is read back, up to year 11999, iff the year is 2000 or later |
| Rtc.MeasureDrift | kernel/rv1106-enablement/rtc/rtc-rockchip.c:494-510 | hourly, daily and monthly drift are the exact ones rounded to the nearest integer |
| Rtc.Compensate | kernel/rv1106-enablement/rtc/rtc-rockchip.c:494-543 | from the deviation of the count from 48,000,000: the drifts are the exact ones rounded; the three amounts recombine to them, with their directions, and stay within 9, 20 and 35 |
| Rtc.NoProductWraps | kernel/rv1106-enablement/rtc/rtc-rockchip.c:496-510 | the first product is exact iff the count is within 131071 of nominal, and then so are the others |
| Rtc.DeviationIs | kernel/rv1106-enablement/rtc/rtc-rockchip.c:496-506 | the deviation is the absolute difference from 48,000,000 |
| Rtc.DirectionBitIsFree | kernel/rv1106-enablement/rtc/rtc-rockchip.c:512-543 | amounts below 80 and the direction are both recoverable from the register byte |
| Text.ParseOfPrint | tools/config-lint/src/lib.rs:48-55 | every 64-bit address printed in hexadecimal parses back |
| TextForms.HexBack | tools/config-lint/src/lib.rs:48-55 | hexadecimal numbers are read up to 64 bits and no further |
| TextForms.DecimalBack | tools/config-lint/src/lib.rs:48-55 | decimal numbers likewise |
| TextForms.HexIgnoresCase | tools/config-lint/src/lib.rs:48-55 | in capitals too, prefix and digits |
| TextForms.PaddedNumber | tools/config-lint/src/lib.rs:48-55 | white space around a number does not matter |
| TextForms.PlusSign | tools/config-lint/src/lib.rs:48-55 | one plus sign before the digits is allowed |
| TextForms.NotANumber | tools/config-lint/src/lib.rs:48-55 | a text with a character that is no digit is no number |
| IniLint.ScanLines | tools/config-lint/src/lib.rs:105-132 | the line loop computes the line-by-line meaning of the text |
| IniLint.ParseIniMcuLoads | tools/config-lint/src/lib.rs:105-152 | and the scanner the loads that follow from it: every loader listed that is not known safe (`LoaderNames.KnownSafeIff`) and has an address |
| IniLint.IniRoundTrip | tools/config-lint/src/lib.rs:105-152 | scanning a printed document gives what the document means, whatever its sections |
| IniLint.SectionOrderIrrelevant | tools/config-lint/src/lib.rs:105-152 | exchanging neighbouring sections of different names changes no load |
| IniLint.LoaderListRoundTrip | tools/config-lint/src/lib.rs:71-152 | a printed loader list is recovered exactly, less safe loaders and those without an address |
| IniForms.FormMeans | tools/config-lint/src/lib.rs:112-132 | a line means the same with white space and a comment anywhere they may stand |
| IniForms.FormsDoNotMatter | tools/config-lint/src/lib.rs:105-152 | so a loader list in any such form, with empty and comment lines between, yields the same loads |
| IniForms.CaseOfKeys | tools/config-lint/src/lib.rs:122-131 | keys mean the same in any case |
| IniForms.CaseOfSections | tools/config-lint/src/lib.rs:127-131 | and so do the names of parameter sections |
| IniForms.ListsLoadersIff | tools/config-lint/src/lib.rs:125-126 | a loader is listed only in LOADER_OPTION, by a key that begins with LOADER in any case |
| LoaderNames.KnownSafeIff | tools/config-lint/src/lib.rs:71-100 | a name is safe iff its letters and digits, capitals made small, spell one of the twenty words, the whole word |
| LoaderNames.LongerNameIff | tools/config-lint/src/lib.rs:66-70 | a lengthened name is safe only if the longer word is one of the twenty too |
| LoaderNames.CoprocessorsAreChecked | tools/config-lint/src/lib.rs:66-70 | SplRtos and Hpmcu are not safe |
| DtsLint.ScanRegs | tools/config-lint/src/lib.rs:191-222 | the search loop of a block yields the ranges at its reg properties |
| DtsLint.ReadReg | tools/config-lint/src/lib.rs:196-222 | what one occurrence contributes: boundary, blanks, equals sign, brackets, two numbers |
| DtsLint.FindBrace | tools/config-lint/src/lib.rs:163-170 | the first opening brace, or the end |
| DtsLint.CloseBrace | tools/config-lint/src/lib.rs:171-186 | the end of the node by brace depth, or of the text |
| DtsLint.ParseReservedRanges | tools/config-lint/src/lib.rs:158-227 | terminates on every text with the ranges of all reserved-memory nodes in order |
| DtsRoundTrip.RegsAreHits | tools/config-lint/src/lib.rs:191-222 | the jumping search misses nothing: it finds what looking at every position finds |
| DtsRoundTrip.PieceHits | tools/config-lint/src/lib.rs:158-227 | a text built of reg properties and harmless pieces yields exactly the ranges written |
| DtsRoundTrip.DtsRoundTrip | tools/config-lint/src/lib.rs:158-227 | the ranges taken are exactly those of the nodes that open next after the word, in order, whatever labels, reg-names and text surround them |
| DtsRoundTrip.TakesOnlyMeantIff | tools/config-lint/src/lib.rs:154-227 | they are the ranges of the reserved-memory nodes iff the word strays before no other node that holds one |
| DtsRoundTrip.CommentTakesRoot | tools/config-lint/src/lib.rs:154-227 | after a comment with the word, the root node's memory counts as reserved |
| DtsForms.RegRead | tools/config-lint/src/lib.rs:196-222 | a reg that begins a word, any gap, an equals sign and cells in angle brackets is read as those cells |
| DtsForms.CellsRead | tools/config-lint/src/lib.rs:213-221 | two numbers among the cells are the range, whatever white space surrounds and whatever follows them |
| DtsForms.WholeWordOnly | tools/config-lint/src/lib.rs:198-205 | reg at the end of a longer word is not the property |
| DtsForms.NeedsEquals | tools/config-lint/src/lib.rs:199-205 | nor is it without its equals sign |
| Gate.ContainsIsMembership | tools/config-lint/src/lib.rs:29-33 | the saturating test is unbounded interval membership except that it rejects 2^64 - 1 |
| Gate.CheckReports | tools/config-lint/src/lib.rs:230-243 | the findings are exactly the uncovered loads, as often as declared |
| Gate.CoveredIff | tools/config-lint/src/lib.rs:29-33 | a load is covered by a range that has its address, but 2^64 - 1 by none |
| Gate.LintFiles | tools/config-lint/src/lib.rs:105-243 | the two scanners and the check composed |
| Gate.GatePassesIff | tools/config-lint/src/lib.rs:105-243 | on printed files the gate passes iff every loader with an address that is not known safe lies in a range taken, and these are the reserved ones if the word does not stray |
| Gate.CoprocessorIsReported | tools/config-lint/src/lib.rs:71-243 | SplRtos or Hpmcu at an address no range has is a finding |
| Gate.CommentOpensGate | tools/config-lint/src/lib.rs:105-243 | one comment and no reserved memory: every loader into RAM passes |

## Left out

- The bridge's control channel (`handle_control_line`, `parse_addr_val`, its bus table) and the slave's setters for banks and faults: text commands around single assignments. The theorems quantify over every device state those setters could reach.
- Sockets, threads, locks, sleeps and logging: reads are an event sequence, a locked call is one step.
- Integer overflow of unbounded times and counters: seconds, poll times (`now + (1 << torr)`), reset, fire and discard counts are unbounded naturals, and so is the brace depth of config-lint.
- HpmcuTheorems.BeatingDaemonNeverReset: asks for fewer than 2^32 beats between the polls that see them, since a counter that laps the MCU looks like no beat, and for a bring-up without an ARMED word, since that case is refuted.
- Pvtpll.LinearConverges: is about oscillators on a line whose fastest reading fits the 32-bit counter; slopes under 5 or over the margin are left to the bounds of `Pvtpll.Calibrate`.
- Rtc.TimeRoundTrip: says nothing past tm_year 10099, where the two-digit high year overflows, and nothing of the hardware keeping time between the two calls. `bin2bcd` is any function that is right on two digits; lib/bcd.c is not part of this model.
- Rtc.Compensate: proves range, rounding and recombination; the intended sign and the 23 or 24 hour split have no specification to compare with.
- VopFlip.Flush: the state shared by commit, interrupt and worker is a value passed through the steps, not updated in place, because the callers interleave between any two accesses. The methods show the uninterrupted order; the lemmas cover all others. The handler does not overlap itself, as the kernel guarantees of one interrupt line.
- `vop_unbind`, and the mailbox's B2A_INTEN, which Linux is taken to have set: one more release of the prepares, one more flag.
- VOP registers, planes, scaling, formats and gamma; DRM, clk and PM calls beyond what they count.
- Text outside ASCII: Unicode white space and multi-byte characters in config-lint, and the wording of its findings. `IniLint.Lines` keeps carriage returns and an empty last line, which the scan trims and skips.
- Re-entrant freshness callbacks and LVGL: producers are answers, widgets what they show.
- `_grf_pvtpll_calibrate`, relays, NPU and RGA simulators, scripts, tables and patch copies: short wrappers, recorders, or duplicates.
