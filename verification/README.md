# Verification of the PTP client, the EEPROM writer and the SHT30 checksum

This project models the parts of the repository whose correctness is not obvious from reading them, and proves what
they do for all inputs and over all runs.

- **The PTP client** (`NetX/src/nxd_ptp_client.c`): its hand-carried 64-bit time arithmetic, the software clock, the
  conversion of seconds to a civil date, message parsing and printing, the slave protocol and the election of a master.
- **The M24C32 writer** (`general/src/m24c32.c`): splitting a write so that a page-wrapping device ends up with a flat one.
- **The SHT30 checksum** (`general/src/sht30.c`): the CRC-8 loop, what it detects, and the reading it guards.

## How it is built

`Words`, `PtpTime`, `SoftClock` and `Calendar` hold the arithmetic: the code's limb-level methods, written as the code
writes them, are proved against functions on joined 64-bit seconds, and those against total nanoseconds or the
proleptic Gregorian closed form. LONG and ULONG are 32 bits and wrap; every wrap is written out.

`Client` is the protocol as a step function on a record of the client's fields: a thread start, a timer interrupt, a
timer event, a received packet (arbitrary bytes) or a transmit timestamp leads to the next record and to what is sent,
corrected and reported. A thread start may follow a stop, and the clock may have been set in between. Whether a packet
can be allocated and sent is part of the event. `ClientMachine` is the client as the code has it, an object whose
handlers update fields in place; each handler is proved to do what the step function says. One model covers both builds:
role SlaveOnly is the slave-only build, all three roles are the build with `NX_PTP_ENABLE_MASTER`. `ClientRuns` adds
runs of any length and an observer's history; `Freshness`, `Pacing`, `Matching`, `Calibration`, `StampWindow`,
`Conservation`, `StampRuns`, `OffsetTheorem`, `Exchange`, `Pairing`, `Drift` and `Unchecked` state what holds over them.

What the step function does is also stated without it and without the parser, from the bytes of packets as
IEEE 1588-2008 lays them out: `Layout` says where each field is, `Hearing` which packets do what to a client and which
do nothing, `Sending` and `Numbering` what a client puts out, when, and under which numbers, and `WireExchange` what a
whole exchange of such bytes makes of the clock.

`Election`, `Agreement` and `Convergence` put any number of such clients on a network that remembers every Announce ever
sent and may deliver it to anyone at any time, repeatedly or never; other packets are arbitrary. Each node runs the same
step function on the actual bytes.

`Eeprom` models the chip behind the driver's function pointers; `Crc8` and `Crc8Distance` are about polynomials over
GF(2), with the loop proved against them; `Sht30` is the reading.

## Where the code differs from what one might claim

- A correction can be perfect although the two path delays differ, by one nanosecond: `OffsetTheorem.CorrectionError`
  has the exact condition and `OffsetTheorem.UnequalDelaysCanCancel` an instance.
- Corrections do not stop with the slave state, nor come only from the master then: `Unchecked.ListeningIsCorrected`;
  `OffsetTheorem.CorrectsWhen` says exactly when a packet corrects.
- t1 and t2 need not be of one Sync: a two-step Sync replaces t2 at once and t1 only at its Follow_Up. And when they are,
  the clock may have been corrected between t2 and t3. `Pairing.TimestampsPair` says exactly when t1 and t2 pair,
  `Pairing.PairingDecidesError` and `Drift.MovesDecideError` what a correction makes of them and of such moves;
  `Unchecked.TwoStepBeforeResponse`, `Unchecked.FollowUpWithoutSync` and `Unchecked.CorrectionBeforeFollowUp` are
  instances.
- Correction fields that are negative or of 2^32 ns and more are misread: `Wire.CorrectionExactBelow2Pow32`.
- Timestamps are not checked to have their nanoseconds below 10^9. The clock survives somewhat more than that, and
  `StampWindow` and `StampRuns` prove exactly how much for each kind of packet: for every field outside there is a run
  that leaves it malformed. The runs stop the client while a response is awaited, set its clock and start it again.
- A clock that is set loses the timer interrupts that come between reading and setting it:
  `SoftClock.SettingFallsShort`.
- A node that an Announce has just made master keeps what is left of its announce timeout, which then restarts its send
  timers: its first Announce can take up to 399 timer events instead of 200. `Sending.MastersAnnounce` has the exact
  due time, `Sending.PromotionDelaysAnnounce` the case.
- A Delay_Req carries the transport nibble or-ed over its domain number instead of in its first byte:
  `Wire.DelayReqRoundTrip` and `Wire.DelayReqDomainBits`.
- `m24c32_clear` does not split its write: `Eeprom.ZerosFlatIffInPage`.
- The SHT30 reading stores the temperature before it has checked the humidity: `Sht30.Sensor.GetTempHumid`.

## Model

| member | source | states |
|---|---|---|
| `Words.Add64` | NetX/src/nxd_ptp_client.c:5836-5849 | Adding limb pairs with a carry found by comparison is addition of the 64-bit numbers, wrapped once at 64 bits. |
| `Words.Sub64` | NetX/src/nxd_ptp_client.c:5892-5905 | The same for subtraction with its borrow. |
| `Words.Inc64` | NetX/src/nxd_ptp_client.c:5949-5959 | Increment of the limb pair is +1 on the 64-bit number, wrap included. |
| `Words.Dec64` | NetX/src/nxd_ptp_client.c:6002-6012 | Decrement of the limb pair is -1 on the 64-bit number, wrap included. |
| `Words.Neg64` | NetX/src/nxd_ptp_client.c:6053-6064 | Negation of the limb pair is negation of the 64-bit number; the most negative number wraps to itself. |
| `PtpTime.DiffExact` | NetX/src/nxd_ptp_client.c:5437-5491 | For any two times with nanoseconds in ±999999999, signs mixed or not, the difference is canonical (fields never disagree in sign), and it is the exact difference in total nanoseconds if and only if the seconds with their carry fit 64 bits. |
| `PtpTime.SumExact` | NetX/src/nxd_ptp_client.c:5536-5590 | The same for the sum. |
| `PtpTime.CanonicalUnique` | NetX/src/nxd_ptp_client.c:5460-5487 | The canonical form is unique: it is what truncated division of the total by 10^9 gives. |
| `PtpTime.TimeDiff` | NetX/src/nxd_ptp_client.c:5437-5491 | The in-place form on limbs computes the specified difference, also when the result object is an operand. |
| `PtpTime.TimeSum` | NetX/src/nxd_ptp_client.c:5536-5590 | The in-place form computes the specified sum, also when the result object is an operand. |
| `PtpTime.HalfExact` | NetX/src/nxd_ptp_client.c:6104-6156 | Halving a canonical time gives the canonical form of total nanoseconds / 2 truncated toward zero, for every 64-bit count of seconds except -2^63, and not for that one. |
| `PtpTime.TimeDivBy2` | NetX/src/nxd_ptp_client.c:6104-6156 | The in-place form (negate, move the low bit of the high limb down, negate back) computes the specified half. |
| `SoftClock.AdjustedAdds` | NetX/src/nxd_ptp_client.c:631-662 | A correction adds its offset to the clock and leaves the clock well formed if and only if the offset has no seconds and at most 10^9 ns either way (step), or has seconds and nanoseconds that one borrow brings back into range (set). A larger step moves the clock by exactly one second, in its direction. |
| `SoftClock.InterruptsOutsideCount` | NetX/src/nxd_ptp_client.c:903-949 | Timer interrupts before and after a correction, by either path, all advance the clock by their 10 ms. |
| `SoftClock.SettingFallsShort` | NetX/src/nxd_ptp_client.c:914-938 | A clock that is read, added to and set lacks exactly 10 ms for each timer interrupt in between, against the same correction made after them. |
| `SoftClock.TickedAdds` | NetX/src/nxd_ptp_client.c:5256-5270 | A soft timer update adds exactly 10 ms and keeps the clock well formed. |
| `SoftClock.ClockAdjust` | NetX/src/nxd_ptp_client.c:903-949 | The limb-level adjustment, with its choice of path and any number of timer interrupts between reading and setting the clock, has the specified effect: those interrupts are overwritten. |
| `SoftClock.SoftClockAdjust` | NetX/src/nxd_ptp_client.c:631-662 | The clamped step with its one-second borrow has the specified effect on the clock object. |
| `SoftClock.SoftTimerUpdate` | NetX/src/nxd_ptp_client.c:5256-5270 | The 10 ms increment with its carry has the specified effect on the clock object. |
| `Conservation.ClockIsConserved` | NetX/src/nxd_ptp_client.c:903-949 | Over every run whose taken timestamps are in their windows: the clock is well formed, and it equals what it was last set to or created with + every correction reported since + 10 ms for each timer interrupt since except those that came while a correction was setting it, exactly if and only if that sum is representable, whatever wrapped on the way. |
| `StampRuns.ResponseWindow` | NetX/src/nxd_ptp_client.c:1383-1400 | For every client that can become a slave: some run, with every other timestamp in its window, breaks the clock by a Delay_Resp with a given nanosecond field if and only if that is not from -1 000 000 003 to 2 000 000 002. The runs are constructed for every such field. |
| `StampRuns.SyncWindow` | NetX/src/nxd_ptp_client.c:1383-1400 | Some run with one Sync or Follow_Up that leaves t1 with given nanoseconds, and every other timestamp in its window, breaks the clock if and only if those are not from -1 000 000 000 to 1 999 999 999. |
| `StampRuns.SlaveOnlyCanFollow` | NetX/src/nxd_ptp_client.c:1571-1607 | A slave-only client can become a slave of any node of its domain that prints Announces. |
| `StampWindow.StampWindowOfSync` | NetX/src/nxd_ptp_client.c:1194-1210 | The nanosecond field of a Sync or Follow_Up leaves t1 in that window, whatever the correction field, if and only if it is from -1 000 000 000 to 1 147 483 648: beyond that the sum can wrap at 32 bits. |
| `StampWindow.ResponseKeepsClock` | NetX/src/nxd_ptp_client.c:1355-1438 | From a t1 in its window and a Delay_Resp in its, a correction adds exactly the offset it reports. |
| `Calendar.ConvertTimeToDate` | NetX/src/nxd_ptp_client.c:5692-5791 | An error is returned exactly when seconds + offset is negative; below 2^56 seconds the date is a valid Gregorian date and time of day that counts back, by the closed form, to the same second; below 2^48 the weekday is the true one. |
| `Calendar.FindYear` | NetX/src/nxd_ptp_client.c:5721-5737 | The year loop ends despite the borrow between limbs, and stops at the year whose closed-form day count brackets the input, with the rest of that year left over. |
| `Calendar.FindMonth` | NetX/src/nxd_ptp_client.c:5741-5767 | The month loop finds the month by closed-form day count, and the rest of that month. |
| `Calendar.SecondsOrderDates` | NetX/src/nxd_ptp_client.c:5692-5791 | Counting back orders valid dates exactly as the calendar does, and two dates count to one second only if they are the same. |
| `Calendar.ConvertTwo` | NetX/src/nxd_ptp_client.c:5692-5791 | Of two conversions below 2^56 seconds: the dates are in calendar order if and only if the local times are, and the same if and only if the local times are. The conversion is injective and strictly order-preserving. |
| `Calendar.YearStep` | NetX/src/nxd_ptp_client.c:5725-5736 | The closed form grows by the length of each year, by the leap-year rule the code uses. |
| `Calendar.WeekdayAccumulator` | NetX/src/nxd_ptp_client.c:5724-5739 | The 32-bit weekday sum gives the true weekday if and only if it has wrapped a multiple of seven times. |
| `Calendar.WeekdayOfWireTime` | NetX/src/nxd_ptp_client.c:5724-5739 | So for every 48-bit count of seconds, the most a PTP timestamp carries, the weekday is (4 + days since the epoch) mod 7. |
| `ClockOrder.CompareIsRankOrder` | NetX/src/nxd_ptp_client.c:536-587 | The comparison is zero exactly for equal identities and otherwise has the sign of one strict order of numbers: hence antisymmetric in sign, total and transitive on clocks of different identities. |
| `ClockOrder.RankIsLexicographic` | NetX/src/nxd_ptp_client.c:546-586 | That order is lexicographic on priority1, class, accuracy, variance, priority2, identity (IEEE 1588-2008 section 9.3.4). |
| `ClockOrder.MemCmpComparesNumbers` | NetX/src/nxd_ptp_client.c:539-545 | Comparing identities byte by byte compares them as big-endian numbers. |
| `Wire.AnnounceRoundTrip` | NetX/src/nxd_ptp_client.c:2766-2836 | A printed Announce parses back to the same type, domain, sequence id, port identity, priorities, quality, grandmaster identity and time source, with stepsRemoved and UTC offset 0. |
| `Wire.AnnounceForeignDomain` | NetX/src/nxd_ptp_client.c:364-375 | A printed Announce is dropped exactly by clients of other domains. |
| `Wire.HeaderRoundTrip` | NetX/src/nxd_ptp_client.c:364-436 | Any header written byte by byte, with any flags, correction field, reserved bytes and log interval, and any payload after it, is read back field for field in the domain it was written for. |
| `Wire.PrintedHeaderRoundTrip` | NetX/src/nxd_ptp_client.c:1027-1058 | So are the headers that the client prints. |
| `Layout.HeaderFields` | NetX/src/nxd_ptp_client.c:364-436 | Of arbitrary bytes: exactly the packets of 34 bytes, version 2, the domain and no length below 34 that would cut the header are accepted, and each field is the big-endian number of its bytes; the correction field is the signed 64-bit number of bytes 8 to 15. |
| `Layout.PayloadFollows` | NetX/src/nxd_ptp_client.c:376-436 | The payload is what follows byte 34, up to the declared length if the packet is longer than that. |
| `Layout.FlagBits` | NetX/src/nxd_ptp_client.c:1504-1516 | Two-step is bit 1 of byte 6; UTC reasonable, leap59 and leap61 are bits 2, 1 and 0 of byte 7. |
| `Layout.StampOfPacket` | NetX/src/nxd_ptp_client.c:284-292 | The timestamp of any accepted packet with 10 bytes of payload is 48 bits of seconds at byte 34 and 32 signed bits of nanoseconds at byte 40, big-endian. |
| `Layout.PacketCarriesCorrection` | NetX/src/nxd_ptp_client.c:1194-1210 | From the packet: t1 is the timestamp in bytes 34 to 43 plus the number in bytes 8 to 15 in units of 2^-16 ns, floored, if and only if that is from 0 to below 2^32 ns. |
| `Layout.AnnounceFields` | NetX/src/nxd_ptp_client.c:480-492 | The fields taken from an Announce are the numbers at their places in the packet: UTC offset (signed) at 44, grade from 47, identity at 53, steps removed at 61, time source at 63. |
| `Layout.PrintedAnnounceBytes` | NetX/src/nxd_ptp_client.c:2766-2836 | Every one of the 76 bytes of a printed Announce. |
| `Layout.PrintedDelayReqBytes` | NetX/src/nxd_ptp_client.c:1027-1058 | Every one of the 44 bytes of a printed Delay_Req. |
| `Wire.TimestampRoundTrip` | NetX/src/nxd_ptp_client.c:2434-2442 | A time survives printing and parsing exactly when its seconds are from 0 to below 2^48. |
| `Wire.DelayReqRoundTrip` | NetX/src/nxd_ptp_client.c:1027-1058 | A Delay_Req reads back as ours in our own domain if and only if every bit of the transport nibble is already set in the domain number: the code ors that nibble over the domain byte. |
| `Wire.DelayReqDomainBits` | NetX/src/nxd_ptp_client.c:1040 | The domain byte of a Delay_Req has exactly the bits of the domain and, four places higher, those of the transport nibble. |
| `Wire.CorrectionExactBelow2Pow32` | NetX/src/nxd_ptp_client.c:1194 | The nanoseconds taken from the correction field are its whole nanoseconds if and only if these are from 0 to below 2^32. |
| `Wire.ReadHeader` | NetX/src/nxd_ptp_client.c:338-436 | The walk over the packet with one read pointer, and the length checks, parse the header as specified. |
| `Wire.ReadTimestamp` | NetX/src/nxd_ptp_client.c:284-292 | The limb-by-limb read stores the specified time. |
| `Wire.NewAnnounce` | NetX/src/nxd_ptp_client.c:2766-2836 | Writing field after field at the append pointer, in a packet with room for them, makes the specified 76 bytes. |
| `Wire.NewDelayReq` | NetX/src/nxd_ptp_client.c:1027-1058 | Writing field after field makes the specified 44 bytes. |
| `Wire.LeastRoomFits` | NetX/src/nxd_ptp_client.c:3618-3623 | The least room that creating a client asks of its packets, 64 bytes, holds a Delay_Req (44) and does not hold an Announce (76). |
| `ClientMachine.PtpClient.ReceivePacket` | NetX/src/nxd_ptp_client.c:3328-3360 | One round of the receive loop on the client object does what the step function says: new fields and outputs. |
| `ClientMachine.PtpClient.ProcessEventPacket` | NetX/src/nxd_ptp_client.c:2983-3029 | The handler of event messages does what the step function says. |
| `ClientMachine.PtpClient.ProcessGeneralPacket` | NetX/src/nxd_ptp_client.c:3084-3145 | The handler of general messages does what the step function says. |
| `ClientMachine.PtpClient.InitPacketReceived` | NetX/src/nxd_ptp_client.c:1486-1633 | The Announce handler does what the step function says: comparison, promotion, demotion, following. |
| `ClientMachine.PtpClient.SyncReceived` | NetX/src/nxd_ptp_client.c:1181-1303 | The Sync handler does what the step function says: corrected t1, Delay_Req when one is wanted. |
| `ClientMachine.PtpClient.SendDelayReq` | NetX/src/nxd_ptp_client.c:1006-1132 | Sending a Delay_Req does what the step function says on each of its three ways out. |
| `ClientMachine.PtpClient.DelayRespReceived` | NetX/src/nxd_ptp_client.c:1355-1438 | The Delay_Resp handler does what the step function says, through three differences, one into its own operand, a halving, and the adjustment. |
| `ClientMachine.PtpClient.PacketTimestampNotify` | NetX/src/nxd_ptp_client.c:5138-5149 | A transmit timestamp is stored exactly when it is awaited, for the packet it is awaited for. |
| `ClientMachine.PtpClient.TimerEvent` | NetX/src/nxd_ptp_client.c:3375-3459 | The four countdowns of a timer event do what the step function says, in their order. |
| `ClientMachine.PtpClient.TimerHandler` | NetX/src/nxd_ptp_client.c:702-713 | The timer interrupt advances the soft clock and nothing else. |
| `ClientMachine.PtpClient.ThreadEntry` | NetX/src/nxd_ptp_client.c:3199-3235 | Thread start sets timers and state by role as the step function says. |
| `ClientMachine.PtpClient.TimeSet` | NetX/src/nxd_ptp_client.c:4736-4759 | Setting the clock of a stopped client changes the clock and nothing else; a pending request stays pending. |
| `ClientMachine.PtpClient.Handle` | NetX/src/nxd_ptp_client.c:3245-3460 | Whatever event comes, the object does what the step function says. |
| `ClientMachine.RunClient` | NetX/src/nxd_ptp_client.c:3199-3460 | A created object whose thread starts and then handles any events is in the state where the run of the step function ends, and its log is what the run put out: results about runs hold of it. |
| `OffsetTheorem.OffsetExact` | NetX/src/nxd_ptp_client.c:1355-1400 | Three differences and a halving give exactly ((t4 - t3) - (t2 - t1)) / 2 truncated toward zero, in canonical form (IEEE 1588-2008 section 11.3). |
| `OffsetTheorem.CorrectionError` | NetX/src/nxd_ptp_client.c:1355-1438 | After a Delay_Resp the error left, doubled, is within 1 ns of d2 - d1, and it is zero if and only if the delays are equal or differ by the one nanosecond that truncation hides. |
| `OffsetTheorem.UnequalDelaysCanCancel` | NetX/src/nxd_ptp_client.c:1383-1390 | A concrete measurement with unequal delays whose correction is perfect: "zero error only for equal delays" is false. |
| `OffsetTheorem.CorrectsWhen` | NetX/src/nxd_ptp_client.c:3128-3144 | A packet corrects the clock if and only if it answers the pending Delay_Req and a Sync with nonzero seconds is known. |
| `OffsetTheorem.SyncCarriesCorrection` | NetX/src/nxd_ptp_client.c:1194-1210 | t1 is the master timestamp plus the whole nanoseconds of the correction field if and only if these are from 0 to below 2^32. |
| `Exchange.ExchangeCorrects` | NetX/src/nxd_ptp_client.c:1181-1438 | A whole one-step exchange, with any timer events before the response, even past the announce timeout: the same bound on the error left. |
| `Exchange.TwoStepCorrects` | NetX/src/nxd_ptp_client.c:2999-3012 | A whole two-step exchange, with timer events before the Follow_Up and before the response: t2 is the Sync's, t3 the Follow_Up's, and the same bound holds. |
| `WireExchange.OneStepOnTheWire` | NetX/src/nxd_ptp_client.c:1181-1438 | The one-step exchange in bytes: a Sync of our master's with proper timestamp and correction, the Delay_Req that goes out, and a Delay_Resp that repeats id and port identity of these bytes. With the master's readings in the bytes, the error left, doubled, is within 1 ns of d2 - d1. |
| `WireExchange.TwoStepOnTheWire` | NetX/src/nxd_ptp_client.c:2999-3144 | The same in bytes for a two-step Sync and the Follow_Up that repeats its id, with timer events in between. |
| `Exchange.TimersKeepMeasurement` | NetX/src/nxd_ptp_client.c:3375-3459 | Timer events and interrupts leave a measurement under way as it is and move the clock by 10 ms for each interrupt. |
| `Pairing.TimestampsPair` | NetX/src/nxd_ptp_client.c:2999-3012 | Over every run: which Sync t1 and t2 are each of, by number of arrival; and they are of one Sync if and only if the last packet about a Sync was a one-step Sync, or a Follow_Up while the remembered id was that of the latest Sync since the client became a slave. |
| `Pairing.PairingDecidesError` | NetX/src/nxd_ptp_client.c:1355-1438 | Over every run, whatever answers the pending request next, with errors theta2 of the clock at t2, theta3 at t3 and theta now: the error left, doubled, is within 1 ns of d2 - d1 + (theta - theta2) + (theta - theta3) less the time between the Syncs of t1 and t2. That time is zero if the condition of TimestampsPair holds, and, for Syncs sent at different times, only then. |
| `Drift.MovesDecideError` | NetX/src/nxd_ptp_client.c:1355-1438 | The same with what an observer has counted in place of the errors: the corrections since t2, less 10 ms for each interrupt they lost, and the settings of the clock since t2 and since t3. Between t3 and its response nothing else moves the clock. When t1 and t2 pair, the delays alone decide if and only if these moves cancel; when they cancel, if and only if t1 and t2 pair. |
| `Drift.BooksAlwaysRight` | NetX/src/nxd_ptp_client.c:903-949 | Over every run the clock is t2 plus the interrupts and the moves counted since, and while a response is awaited it is t3 plus those counted since t3. |
| `Pairing.FirstSlaveHoldsNoSync` | NetX/src/nxd_ptp_client.c:1571-1632 | However a run enters SLAVE for the first time, t1 and t2 are then zero and sequence id 0 is remembered, which a Follow_Up may repeat. |
| `ClientRuns.PacketCases` | NetX/src/nxd_ptp_client.c:3328-3360 | What every packet does, by what it is: a followed Announce, the answer to the pending request, the start of a two-step Sync, a one-step Sync or its Follow_Up, a promotion, or nothing. |
| `ClientRuns.PacketCasesExclude` | NetX/src/nxd_ptp_client.c:3328-3360 | No packet is two of these. |
| `ClientRuns.TickEffect` | NetX/src/nxd_ptp_client.c:3411-3458 | What one timer event does to the slave side of a client, all countdowns together. |
| `Hearing.FollowsWhen` | NetX/src/nxd_ptp_client.c:1523-1607 | From the bytes, if and only if: an Announce of our domain (our master's, if we are a slave) with 30 bytes of payload is followed by a slave-only client always, by a master-only one never, and by the others exactly when the clock in bytes 47 to 60 is another and better one. |
| `Hearing.PromotesWhen` | NetX/src/nxd_ptp_client.c:1535-1547 | From the bytes, if and only if: a packet makes a client master when it is such an Announce of a worse clock and the client can be both and is not master yet. |
| `Hearing.AnswersWhen` | NetX/src/nxd_ptp_client.c:3128-3144 | From the bytes, if and only if: a packet answers the pending Delay_Req when it is a Delay_Resp with 20 bytes of payload, its id at 30 and our port identity at 44, and a response is awaited. |
| `Hearing.BeginsWhen` | NetX/src/nxd_ptp_client.c:2999-3018 | From the bytes, if and only if: a two-step Sync of a slave's master. |
| `Hearing.CarriesWhen` | NetX/src/nxd_ptp_client.c:3097-3115 | From the bytes, if and only if: a one-step Sync of a slave's master, or its Follow_Up with the remembered id. |
| `Hearing.OthersAreIgnored` | NetX/src/nxd_ptp_client.c:3328-3347 | A packet that is unusable, malformed, of another domain or, for a slave, from another port than its master (bytes 20 to 29) changes nothing and causes nothing. |
| `Hearing.SlaveHearsOnlyItsMaster` | NetX/src/nxd_ptp_client.c:3339-3347 | Over every run: a packet that changes anything of a slave, or makes it put anything out, bears in bytes 20 to 29 the port identity of its master, which is that of the Announce followed last. |
| `Hearing.PacketReportsMaster` | NetX/src/nxd_ptp_client.c:1571-1600 | A packet that makes a client a slave reports the announced clock, read from the bytes, one that makes it master its own, and no other packet reports a master. |
| `Hearing.OtherEventsReportMaster` | NetX/src/nxd_ptp_client.c:3430-3446 | Apart from packets, a master is reported exactly by an announce timeout of a client that may be master and by the start of a master-only one, and it is the own clock. |
| `Freshness.SlaveIsFresh` | NetX/src/nxd_ptp_client.c:3411-3431 | Over every run: the Announce a slave followed last came from its stored master, fewer than 600 of its timer events ago, and its timeout counts what is left; 600 timer events without one, since the thread started or the last, always end in LISTENING (MASTER for a node with a clock of its own); slave-only timeouts number at most thread starts plus followed Announces. |
| `Freshness.MasterFixedWhileSlave` | NetX/src/nxd_ptp_client.c:1571-1632 | No event changes the stored master while the client stays a slave. |
| `Pacing.NeverStalled` | NetX/src/nxd_ptp_client.c:3452-3458 | Over every run, in SLAVE exactly one holds of "may send" and "timer in 1..200"; within one stay it may send again exactly 200 timer events after its last Delay_Req. |
| `Pacing.RequestsArePaced` | NetX/src/nxd_ptp_client.c:1116-1131 | Over every run, whatever comes next: Delay_Reqs are sent only in SLAVE, one at a time, at least 200 timer events apart within one stay. |
| `Matching.CorrectionsWithinRequests` | NetX/src/nxd_ptp_client.c:3128-3144 | Over every run, whatever is put out contains at most as many corrections as Delay_Reqs. |
| `Matching.CorrectionsMatchRequests` | NetX/src/nxd_ptp_client.c:3128-3144 | Over every run, whatever comes next: a correction is made only by a Delay_Resp for our port with the id of the latest Delay_Req sent (and of no other sent fewer than 65536 ids before), and it uses the transmit timestamp recorded for that one. |
| `Sending.RequestIsAwaited` | NetX/src/nxd_ptp_client.c:1036-1131 | Every Delay_Req a step puts out is 44 bytes of type 1 with our port identity, carries in its bytes the very id that the client then waits for, and is the only output; its t3 is the clock and is what the client keeps. |
| `Sending.RequestsArePrinted` | NetX/src/nxd_ptp_client.c:1036-1131 | Over every run: the Delay_Reqs put out are, one for one and in order, those an observer of the client counts, their ids as printed. |
| `Sending.CorrectionsAnswerWhatWasSent` | NetX/src/nxd_ptp_client.c:3128-3144 | Over every run, whatever comes next: a correction is made only by a Delay_Resp that repeats byte for byte the id and the port identity of the Delay_Req put out last, and it is the offset of the t3 that one was put out with and the timestamp in the response's bytes 34 to 43. |
| `Sending.FirstAwaitedStampIsTaken` | NetX/src/nxd_ptp_client.c:5138-5149 | Of any number of transmit timestamps, before and after, a client that waits for one takes the first that is of its packet, and keeps that. |
| `Sending.OtherStampsAreIgnored` | NetX/src/nxd_ptp_client.c:5138-5149 | Any number of transmit timestamps that are not awaited change nothing. |
| `Calibration.FlagsAlwaysTrue` | NetX/src/nxd_ptp_client.c:1420-1434 | Over every run the flags and UTC offset are those of the last followed Announce, and a slave is marked calibrated exactly if it was corrected since it became one. |
| `Calibration.SyncEvents` | NetX/src/nxd_ptp_client.c:1422-1434 | Over every run, whatever comes next: a SYNC event is reported at most once and only of a calibrated client, for exactly the first correction of a stay in SLAVE, and otherwise exactly when a calibrated slave hears changed announcements. It carries the UTC offset and the announced flags, with CALIBRATED set in the event of a correction and clear in the event of an Announce. |
| `Calibration.FlagsAreAnnouncedBits` | NetX/src/nxd_ptp_client.c:1504-1516 | The three flags are bits 2, 1 and 0 of the flag field, and together determine them. |
| `Unchecked.ListeningIsCorrected` | NetX/src/nxd_ptp_client.c:3418-3430 | A slave-only client that timed out into LISTENING is still corrected by the pending Delay_Resp, from any source: the timeout leaves the delay state as it was. |
| `Unchecked.FollowUpWithoutSync` | NetX/src/nxd_ptp_client.c:3102-3115 | An instance without a Sync: a Follow_Up with the remembered id is taken, and with no delay and no error the response then moves the clock by half of t1. |
| `Unchecked.TwoStepBeforeResponse` | NetX/src/nxd_ptp_client.c:2999-3012 | An instance with two Syncs: a two-step Sync between a Delay_Req and its response replaces t2 only, and with no delays and no error the clock goes back by half of the time since the earlier Sync. |
| `Unchecked.CorrectionBeforeFollowUp` | NetX/src/nxd_ptp_client.c:1295-1301 | An instance with a proper pair: a correction between a two-step Sync and its Follow_Up steps the clock that then stamps t3, and with no delays half of that step stays. |
| `Election.ElectionIsSafe` | NetX/src/nxd_ptp_client.c:1523-1607 | For any number of nodes of all roles, under loss, duplication, delay and reordering of Announces, in every reachable state: each slave follows a node of its domain that may be master, strictly better than its own clock if it has one; the best clock is never a slave; announce and Sync timers run exactly at masters. |
| `Election.FollowingIsAcyclic` | NetX/src/nxd_ptp_client.c:1571-1607 | In every reachable state no chain of slaves and masters returns to its start. |
| `Election.ChainClimbs` | NetX/src/nxd_ptp_client.c:1526-1567 | Along any such chain, of any length, the clocks strictly improve. |
| `Election.Leader` | NetX/src/nxd_ptp_client.c:1571-1607 | Following masters from any node ends, at a node of its domain that is no slave and is better than it. |
| `Election.ExactlyTheWorseDemotes` | NetX/src/nxd_ptp_client.c:1526-1567 | Of two masters that hear each other's Announces exactly the worse becomes the other's slave and stops its Announce and Sync timers; the better stays master with both running. |
| `Election.SendTimersEffect` | NetX/src/nxd_ptp_client.c:3389-3406 | A timer event sends an Announce only when the announce timer runs out, and what it sends is this node's Announce; the send timers then start again. |
| `Sending.DueTick` | NetX/src/nxd_ptp_client.c:3389-3406 | With packets granted and sent, a timer event of a master puts out an Announce, which is its own with the next sequence id, if and only if its announce timer is at 1, and a Sync if and only if its Sync timer is; else what is due comes one timer event nearer. |
| `Sending.MasterSendsWhenDue` | NetX/src/nxd_ptp_client.c:3389-3406 | As long as a client stays master with its packets granted and sent, its next Announce comes with exactly the timer event when it is due, and so does its next Sync: whatever else arrives. |
| `Sending.MastersAnnounce` | NetX/src/nxd_ptp_client.c:3389-3446 | Over every run: in every reachable state a master owes its next Announce within 200 timer events and its next Sync within 12, or, if an announce timeout is left over that ends before, exactly 200 and 12 after that end; and it puts them out exactly then. |
| `Sending.PromotionDelaysAnnounce` | NetX/src/nxd_ptp_client.c:1535-1547 | "An Announce within every 200 timer events of a master" is false: one promoted by a packet with n < 200 timer events of its announce timeout left owes its first Announce after n + 200. |
| `Numbering.MessagesAreNumbered` | NetX/src/nxd_ptp_client.c:2766-2836 | Over any run the Announces (read from their bytes) and Syncs put out bear, in order, the 16-bit numbers of the draws whose packets were sent, counted on from the start; a draw is a send timer that ran out and was granted a packet. A number missing is a message that could not be sent. |
| `Numbering.DrawIsNumbered` | NetX/src/nxd_ptp_client.c:3389-3406 | Draw i of a run, if it is sent, bears i + 1 more than the number counted from, whatever draws failed before it, and comes after exactly as many messages as were sent before it. |
| `Election.PrintedAnnounce` | NetX/src/nxd_ptp_client.c:3339-3347 | Which nodes follow a printed Announce: those of its domain, hearing it, whose role and clock allow it; a slave of another ignores it altogether. |
| `Agreement.DeliveryKeepsAgreement` | NetX/src/nxd_ptp_client.c:3339-3347 | Once the master of a domain is followed by all its other nodes, delivering any Announce ever sent, or any other packet, to any node keeps it so. |
| `Agreement.AgreementLastsWhileHeard` | NetX/src/nxd_ptp_client.c:3411-3448 | Agreement holds throughout a run if and only if no follower goes 600 timer events without the master's Announce, no follower restarts, and the master does not restart (a MASTER_ONLY one may). |
| `Agreement.MasterStays` | NetX/src/nxd_ptp_client.c:1535-1556 | Nothing but a restart moves the agreed master. |
| `Convergence.DomainStabilises` | NetX/src/nxd_ptp_client.c:1523-1632 | From any reachable state whatever: if in the best clock's domain nobody restarts and no other Announce arrives, then after the best clock has had 600 timer events, and every other node 600, an Announce of it, and fewer than 600 since, all of them are its slaves. |
| `Convergence.StatusStep` | NetX/src/nxd_ptp_client.c:1571-1632 | What one event does to a node that hears only the best clock: how long it holds to another master, when it is free, and when it follows. |
| `Eeprom.Write` | general/src/m24c32.c:6-32 | On a device whose writes wrap inside a 32-byte page: memory afterwards holds one flat write of the bytes written, by requests that never cross a page and carry those bytes in order, one for each page touched; all is written if and only if nothing is refused, and otherwise the device's own status is returned and the bytes written end at a page boundary. |
| `Eeprom.ProgressMore` | general/src/m24c32.c:17-28 | One round of the loop extends the flat write by its chunk and the count of pages by one. |
| `Eeprom.FlatWriteAt` | general/src/m24c32.c:6-32 | What a flat write means: each byte at its own cell, all other cells unchanged. |
| `Eeprom.Read` | general/src/m24c32.c:34-42 | A read changes nothing but the count of requests, and returns the device's data and status. |
| `Eeprom.WriteThenRead` | general/src/m24c32.c:6-42 | Data written and read back without error is the same, wherever its pages end. |
| `Eeprom.ReadBack` | general/src/m24c32.c:34-42 | A sequential read of memory after a flat write gives the bytes, for any length up to the whole memory. |
| `Eeprom.WithinPage` | general/src/m24c32.c:17-22 | Inside one page the device's write is a flat write. |
| `Eeprom.PageWriteAt` | general/src/m24c32.c:6-32 | What the device's page write means for up to a page of bytes: each at its own cell of the page, wrapped around inside it, all other cells unchanged. |
| `Eeprom.Clear` | general/src/m24c32.c:44-62 | Clearing makes one request with all its zeros, and is a flat write of zeros when they share a page. |
| `Eeprom.ZerosFlatIffInPage` | general/include/m24c32.h:57-67 | What the header promises of clearing, zeros in the whole section whatever it held, is met if and only if the section stays in one page. |
| `Crc8.CalculateCrc` | general/src/sht30.c:29-43 | The bit loop returns the one byte that division of the data times x^8, with 0xFF added to its first byte, by x^8 + x^5 + x^4 + 1 over GF(2) leaves, for data of any length. |
| `Crc8.RemainderUnique` | general/src/sht30.c:25-28 | Polynomial division leaves one remainder. |
| `Crc8.DatasheetExample` | general/src/sht30.c:25-43 | The word BE EF has checksum 92, the example of the Sensirion SHT3x-DIS datasheet, section 4.12. |
| `Crc8.RemainderShift` | general/src/sht30.c:34-40 | The shift and conditional 0x31 turn the remainder of a polynomial into that of x times it. |
| `Crc8.ResidueIsZero` | general/src/sht30.c:96-104 | Data followed by a byte has checksum 0 if and only if that byte is the data's checksum. |
| `Crc8.BurstIsDetected` | general/src/sht30.c:96-104 | Two accepted frames of one length that differ only inside eight consecutive bits are the same. |
| `Crc8.OddErrorIsDetected` | general/src/sht30.c:96-104 | Two accepted frames of one length differ in an even number of bits. |
| `Crc8Distance.PeriodsAre127` | general/src/sht30.c:34-40 | The register started at 1 returns to 1 after the multiples of 127 shifts and no others. |
| `Crc8Distance.TwoTermMultiple` | general/src/sht30.c:29-43 | An undetected double error has its bits a multiple of 127 apart. |
| `Crc8Distance.ThreeErrorsAreDetected` | general/src/sht30.c:96-104 | Two accepted frames of at most 14 data bytes that differ in at most three bits are the same; the sensor's words have two bytes. |
| `Crc8Distance.FifteenBytesMissTwo` | general/src/sht30.c:29-43 | With 15 data bytes that fails, for every data: its first and last bit inverted, an accepted frame is accepted still. |
| `Sht30.Sensor.GetTempHumid` | general/src/sht30.c:76-108 | Success exactly when the read worked and both words are accepted; temperature is -45 + 175 w / 65535 of the word w = 256 * first byte + second byte once that word is accepted, even if humidity is then refused; humidity is 100 w / 65535 of its own; refused values stay as they were. |
| `Sht30.AcceptedReadingIsIntact` | general/src/sht30.c:96-104 | If each word was damaged in at most three bits on the way and both are accepted, they arrived as sent. |
| `Sht30.Scales` | general/src/sht30.c:99-105 | The scales go from -45 to 130 degrees and from 0 to 100 percent, and one word reads higher than another if and only if it is greater by its first byte or, that being equal, by its second. |
| `Sht30.Sensor.ReadTwice` | general/src/sht30.c:76-108 | So of two accepted readings of the sensor, stored one after the other. |

## Left out

- Election.ElectionIsSafe: assumes that every Announce on the network was sent by one of the nodes, and that clock
  identities are distinct; an Announce forged by a stranger is not excluded by the protocol.
- Agreement.AgreementLastsWhileHeard: speaks of one domain and one agreed master; how often the master's Announces must
  get through is expressed in the follower's own timer events, with no clock common to the nodes.
- Matching.CorrectionsMatchRequests: transmit timestamps come at once, as the software clock callback delivers them; a
  clock that delivers them later is not modelled.
- OffsetTheorem.OffsetExact: times within 2^60 seconds of zero, far more than a PTP timestamp can hold.
- Eeprom.Write: a request the device refuses changes nothing; a torn write is not modelled. The status codes beside OK
  are opaque, as eeprom_status.h is not part of this model.
- Conservation.ClockIsConserved: apart from the one between reading and setting the clock, handlers are not interrupted
  by the timer; in the code a Sync and the Delay_Req it triggers may be stamped an interrupt apart.
- Wire.NewAnnounce: the packet has room for its 76 bytes; what writing past a smaller one would do is not modelled.
- Drift.MovesDecideError: the client's timer is exact, and a stop takes no time; PairingDecidesError assumes neither.
- Pairing.TimestampsPair: a Follow_Up counts as of the Sync whose sequence id the client remembers, even if the master
  has meanwhile used that id again.
- Sht30.Sensor.GetTempHumid: the scales are over the reals; rounding of float is not modelled. `sht30_init` and the heater
  commands, which only forward to the bus, are left out.
- ClientMachine.PtpClient.ReceivePacket: the loop over both sockets and the packet checks before parsing are one event,
  with one flag for whether the packet is usable; ThreadX event flags, queues and thread scheduling become an arbitrary
  order of events.
- ClientMachine.PtpClient.TimerEvent: the Sync messages of a master are counted and numbered but not printed, and its
  Follow_Up messages are left out.
- The application's event callback is taken to be registered, and the clock callback to be the software clock; its
  dispatch on an operation code is replaced by calls of the operation.
- The copies of the previous Sync times, which only gPTP and debug output read, and the master's network address.
- gPTP peer delay, reverse sync, IPv6 and Ethernet transport: compiled out in this configuration.
- Creating and deleting a client, the thread and socket work of starting and stopping one, the time and information
  getters, and the checks of their arguments.
- Signed overflow is modelled as two's complement wrap, and memcmp as the difference of the first differing bytes, of
  which only the sign is used.
- `NetX/src/u_rtc.c`, the other sensor drivers, MQTT and the Python tools: register access, strings and wiring.
