# Verification of the AIRSPY community firmware's core

A Dafny model of the state-keeping and arithmetic core of the tire pressure sensor firmware, with
proofs of what that core promises. `dafny verify dfyconfig.toml` checks the whole project.

| file | models |
|---|---|
| `Words.dfy` | fixed-width integers, truncating conversions, little-endian bytes |
| `Crc32.dfy` | `crc32_ieee`, defined bit by bit as in section 3.2.9 of IEEE 802.3, and its algebra |
| `RamRetention.dfy` | the loop that turns an address range into RAM retention bits |
| `Retained.dfy` | the record that outlives system off, its validation and its update |
| `Lifecycle.dfy` | boot, firmware update, supervision and system off as a state machine over unbounded runs |
| `Sensor.dfy` | the sensor's frame decoder, its checksum, calibration and battery curve |
| `Pages.dfy` | the data page codecs, with their rounding |
| `Scheduler.dfy` | which page goes out next, with requests preempting any slot |
| `Profile.dfy` | messages from a sensor's pages to a display's |
| `Settings.dfy` | load-or-initialise over a store whose writes may fail |
| `Handlers.dfy` | configuration pages, readings and reboots over the shared pages and storage |
| `EndToEnd.dfy` | properties across components: wire to display, record to display, command to reboot |

Code that changes state is modelled by classes and methods, each proved equal to a specification
function on values (`Updated`, `Step`, `Configured`, `Read`, `SetUp`, `Encoded`, `Received`). The
properties of whole runs are lemmas about those functions.

## What the code does that one might not expect

* The range check of `ram_range_retain` subtracts in 32 bits. For a length above the RAM's end
  address it accepts ranges outside RAM (`AcceptsIff`, `AcceptsOutOfRange`), and on those that end
  above 0xFFFF8000 its loop never ends (`LoopEndsIff`, `AcceptedAndEndless`). The only caller passes 28.
* Page 82 is due every 122 calls, not 121, and a request that takes slot 121 costs another 256 calls
  each time, without limit (`Page82Cadence`, `CadenceAttained`).
* Relaying page 82 is lossy: decoding and encoding again lowers the voltage fraction by one unless it
  is a multiple of 32 (`Page82PayloadRoundTripIff`); 4 mV becomes 3 mV and then 0 (`RelayedVoltageDrifts`).
* The reset command works in memory only; storage keeps role and thresholds (`ConfigStoresExactly`,
  `RebootRestores`).
* `doc/ANT_TPMS_profile.md` line 77 lists a message that is to set an alarm. By the code it clears the
  role and the ambient pressure and sets no alarm (`DocumentedMessages`). The model follows the code.
* The comment on the battery curve says 3.0 V returns 100 %; so does 2.999 V (`StatusVoltages`).
* A stored high threshold of the wrong length silently becomes the low one (`WrongLengthHigh`).
* The boot counter wraps, so Bluetooth also starts on boot 2^32 and the one after (`BluetoothGate`).
* Pressure codes from 1972 on wrap to negative pressures (`PressureCurve`).
* The pressure shifted by the ambient pressure wraps too: with an ambient pressure of 40000 hPa, which a
  display can command, 757 hPa is published as 27306 hPa (`AmbientWraps`). `PublishedPressureRange` says
  exactly when.

## Assumptions

* RAM begins at a multiple of 32 KiB, ends at least 32 KiB below 2^32, and its last block number fits
  a byte (`Sram.Valid`). Both supported chips satisfy this.
* System off keeps RAM whose section's retention bit is set. Any other reset keeps the record or
  leaves something that fails the check. The first boot finds a record that fails the check. The
  power registers are clear after a reset.
* Each handler is one atomic step. Uptime, GPIO and driver results and the SPI transfer are parameters.
* The SDK's request controller may report any page any number of times, and nothing once idle. What it
  would report next is part of its state.
* The settings loader hands on the error that its callback returns for an entry of the wrong length. If
  it dropped it, `load_immediate_value` would report the entry missing and the default would replace it.
* Publishing a reading on the bus succeeds, so every accepted frame reaches its handler.
* The role is stored in one byte (short enumerations), as the packed layout of page 16 needs.
* Out-of-range conversions to a signed type wrap, as the compiler in use defines them.

## Model

| member | source | states |
|---|---|---|
| Crc32.ResidueIff | src/retained.c:142-150 | for every message and four bytes, the residue check passes exactly if the bytes are the message's little-endian CRC-32 |
| Crc32.BurstChangesCrc | src/retained.c:147-150 | every change of a message confined to 32 consecutive bits, byte-aligned or not, changes its CRC-32 |
| Crc32.WindowInjective | src/retained.c:147-149 | from one register state, different inputs of at most 32 bits lead to different states |
| Crc32.OnesClockToResidue | src/retained.c:147 | the constant 0x2144df1c is the residue: the complement of all ones clocked 32 times |
| Crc32.LeadingZeroCounts | src/retained.c:147-149 | the register starts with all ones: a leading zero byte changes the CRC of every message, and one zero byte alone has the CRC 0xD202EF8D |
| RamRetention.RamPower.RangeRetain | src/retained.c:68-130 | on every input for which the loop ends, it sets or clears the bits of its passes, which for a range within RAM are exactly the retention bits of the sections that hold the range's bytes; a rejected range changes nothing |
| RamRetention.LoopEndsIff | src/retained.c:87-127 | with RAM of 64 KiB or more the 32-bit stepping loop ends exactly if the end address is at most 0xFFFF8000 |
| RamRetention.AcceptedAndEndless | src/retained.c:75-127 | a range that the check accepts and the loop never finishes |
| RamRetention.VisitedIsRange | src/retained.c:84-127 | on a range within RAM the loop's passes mark exactly the bits of the range's bytes |
| RamRetention.LocateSection | src/retained.c:88-117 | block and section computed for any address in 32 bits, with the 8-bit block number; within RAM they are those holding the byte, in both section geometries |
| RamRetention.RangeBitsAreSpans | src/retained.c:84-86 | marking byte by byte is marking exactly the block and section pairs whose span meets the range, across the change of section size |
| RamRetention.BitOfOffset | src/retained.c:88-119 | in numbers, the register and bit of every byte of RAM |
| RamRetention.OnlyRetentionBits | src/retained.c:87-127 | whatever range the loop runs over, it touches only bits 16 to 31 of registers below 256 |
| RamRetention.AcceptsIff | src/retained.c:75-82 | exactly which ranges the 32-bit check accepts, including the wrongly accepted ones |
| RamRetention.AcceptsOutOfRange | src/retained.c:75-82 | a range outside RAM that the check accepts |
| Retained.RetainedData.Validate | src/retained.c:140-169 | accepts exactly the checked records, zeroes any other, restarts the session's uptime and retains the record's sections |
| Retained.RetainedData.Update | src/retained.c:171-182 | accrues the uptime since the last update in 64 bits and seals the record with its CRC |
| Retained.ImageFields | include/retained.h:14-36 | each field of the record is the number in its own bytes of the checked image, least significant first |
| Retained.ImageInjective | include/retained.h:14-36 | the image determines the record, so no field escapes the check |
| Retained.CheckedIff | src/retained.c:140-150 | validation accepts exactly the records that store the CRC of the 24 bytes before it |
| Retained.UpdatedIsChecked | src/retained.c:171-182 | whatever the record held, an update leaves one that validates |
| Retained.BurstIsRejected | src/retained.c:147-155 | every other record whose image differs from a valid one only within 32 consecutive bits is rejected and zeroed |
| Retained.FourBytesAreBurst | src/retained.c:137-149 | any change of four consecutive bytes is such a corruption |
| Lifecycle.Firmware.BootSequence | src/main.c:117-195 | one boot takes the device from any retained record to the specified state, on success and on both failures |
| Lifecycle.Firmware.DfuPendingCb | src/main.c:53-66 | a pending firmware update resets the boot count, and no other event changes anything |
| Lifecycle.Firmware.SuperviseWork | src/main.c:102-115 | supervision schedules power-off on a low wake signal and itself otherwise |
| Lifecycle.Firmware.PoweroffWork | src/main.c:73-100 | power-off counts and seals the record, or on failure goes back to supervision without counting |
| Lifecycle.UpdatedFields | src/retained.c:171-182 | an update accrues the uptime since the last one in 64 bits, keeps the counts and leaves a record that validates |
| Lifecycle.RecordTracksHistory | src/main.c:117-137 | in every state of every run the record passes the check, is retained, and its boots, off count and uptimes are those of the run's history since the latest failed validation or firmware update |
| Lifecycle.BluetoothGate | src/main.c:150-158 | Bluetooth starts on a boot exactly if it is the first since the latest failed validation or firmware update, up to the counter's wrap |
| Lifecycle.ReportedUptime | src/ant.c:190 | the reported operating time is the uptime carried from earlier sessions plus this session's, at any instant of any run |
| Lifecycle.ReportIgnoresUpdates | src/retained.c:171-176 | within a session the report depends on the instant alone, not on how many updates happened or when, and never decreases |
| Lifecycle.OneWorkItemPending | src/main.c:73-115 | while the device is up exactly one of supervision and power-off is pending, and otherwise neither |
| Lifecycle.PendingFollowsLatestWork | src/main.c:73-195 | over all runs, what is pending and how far the device is follow from the latest boot, supervision or power-off: power-off after a wake signal of 0, supervision after any other, after a power-off that failed and after a boot that set up the wake pin; any other boot ends failed |
| Lifecycle.SystemOffFollowsLowSample | src/main.c:73-115 | system off is entered exactly by a power-off that does not fail, and every power-off follows a latest wake signal of 0 |
| Lifecycle.WakeKeepsRecord | src/retained.c:160-166 | a wake from system off finds the record as it was left, so boots and uptime go on counting |
| Sensor.ShiftDoubles | src/sensor.c:19-27 | the shift doubles the 48-bit big-endian frame modulo 2^48 |
| Sensor.ShiftBuffer | src/sensor.c:19-27 | the in-place loop computes that shift |
| Sensor.DecodeSensorBuffer | src/sensor.c:17-51 | the buffer is shifted in place, every field is the stated number of its bytes, and the result code is the checksum's verdict |
| Sensor.AcceptedIffEvenColumns | src/sensor.c:42-48 | a frame is accepted exactly if after the shift each of bit columns 7 to 1 has even parity |
| Sensor.CorruptionAcceptedIff | src/sensor.c:42-48 | corruption of an accepted frame passes exactly if it flips an even number of bits in each such column |
| Sensor.LateFrameRecovered | src/sensor.c:8-15 | decoding a frame sent one bit late, after any stale bit, restores the five data bytes, and accepts exactly if bits 7 to 1 of their exclusive or were sent |
| Sensor.PressureCodeIsBigEndian | src/sensor.c:30 | the byte-swapped little-endian load is the signed big-endian word of the first two bytes |
| Sensor.PressureCurve | src/sensor.c:29-30 | the convertible codes, and on them the calibrated pressure: the curve rounded down for codes 0 to 1971, and off by 2^16 beyond |
| Sensor.PressureIncreases | src/sensor.c:29-30 | within the range the pressure is strictly increasing in the code |
| Sensor.BatteryFollowsCurve | src/sensor.c:53-91 | in each documented section the level is the straight line between the section's ends, rounded up |
| Sensor.BatteryLevelMonotone | src/sensor.c:66-91 | the level is at most 100 and never falls as the voltage rises |
| Pages.UintRoundTrips | include/ant_profiles/tpms/ant_tpms_utils.h:50-125 | decoding undoes 16, 24 and 32 bit encoding, modulo the width |
| Pages.UintBytesRoundTrip | include/ant_profiles/tpms/ant_tpms_utils.h:50-125 | encoding undoes decoding |
| Pages.Uint24Encode | include/ant_profiles/tpms/ant_tpms_utils.h:76-82 | writes the three low bytes, least significant first, and nothing else |
| Pages.Page1RoundTrip | src/ant_profiles/ant_tpms/pages/ant_tpms_page_1.c:41-66 | page 1 survives its codec |
| Pages.Page1Layout | doc/ANT_TPMS_profile.md:33-42 | page 1 byte by byte, with the three reserved bytes of ones |
| Pages.Page16Encode | src/ant_profiles/ant_tpms/pages/ant_tpms_page_16.c:44-56 | writes the payload in place, whatever the buffer held |
| Pages.Page16RoundTrip | src/ant_profiles/ant_tpms/pages/ant_tpms_page_16.c:44-72 | page 16 survives its codec but for the bits of role and command above the lowest four |
| Pages.Page16PayloadRoundTrip | src/ant_profiles/ant_tpms/pages/ant_tpms_page_16.c:44-72 | every payload is the encoding of the page it decodes to |
| Pages.Page16Layout | doc/ANT_TPMS_profile.md:49-59 | page 16 byte by byte, with command and role in the nibbles of the first |
| Pages.Page82Encode | src/ant_profiles/ant_common/pages/ant_common_page_82.c:76-107 | writes the payload in place, whatever the buffer held |
| Pages.Page82RoundTrip | src/ant_profiles/ant_common/pages/ant_common_page_82.c:76-130 | decoding an encoded page 82 keeps count, id and status, and rounds time and voltage |
| Pages.Page82Layout | src/ant_profiles/ant_common/pages/ant_common_page_82.c:76-110 | page 82 byte by byte, for a valid and an invalid voltage |
| Pages.Page82Decoded | src/ant_profiles/ant_common/pages/ant_common_page_82.c:113-130 | every payload's fields, at both resolutions of the time |
| Pages.VoltageError | src/ant_profiles/ant_common/pages/ant_common_page_82.c:95-107 | rounding costs 0 to 4 mV exactly for voltages below 16 V, and beyond loses multiples of 16 V |
| Pages.VoltageMonotone | src/ant_profiles/ant_common/pages/ant_common_page_82.c:95-107 | rounding is monotone below 16 V |
| Pages.Page82PayloadRoundTripIff | src/ant_profiles/ant_common/pages/ant_common_page_82.c:76-130 | exactly which payloads encode again to themselves |
| Pages.RelayedVoltageDrifts | src/ant_profiles/ant_common/pages/ant_common_page_82.c:95-125 | a voltage that loses again on every relay |
| Pages.ReencodedFraction | src/ant_profiles/ant_common/pages/ant_common_page_82.c:97-125 | encoding a decoded fraction loses one unless it is a multiple of 32 |
| Scheduler.RequestController.NextPageNumberGet | src/ant_profiles/ant_tpms/ant_tpms.c:112-154 | the polling loop serves a pending known page, discards an unknown one and leaves the controller idle, and page and counter are those the runs are built from |
| Scheduler.PagesOfSlots | src/ant_profiles/ant_tpms/ant_tpms.c:121-151 | in every run a request for page 1, 16, 80, 81 or 82 is served, and any other call sends 80, 81 or 82 exactly in slots 119, 120 and 121, and else page 1 |
| Scheduler.Page82Cadence | src/ant_profiles/ant_tpms/ant_tpms.c:117-151 | consecutive unrequested messages of page 82 are 122 + 256 k calls apart, k being how often a request took slot 121 in between |
| Scheduler.FirstPage82 | src/ant_profiles/ant_tpms/ant_tpms.c:99-151 | the first one after start-up comes after 121 + 256 k calls |
| Scheduler.CadenceAttained | src/ant_profiles/ant_tpms/ant_tpms.c:119-148 | every such delay occurs |
| Scheduler.EveryPageHasItsTurn | src/ant_profiles/ant_tpms/ant_tpms.c:117-151 | in any 256 consecutive calls each of the pages 80, 81 and 82 has its slot and goes out in it unless a request takes that very slot |
| Scheduler.UnrequestedCycle | src/ant_profiles/ant_tpms/ant_tpms.c:137-151 | unless requests are served the pages repeat every 122 calls: 119 times page 1, then 80, 81 and 82 |
| Profile.TpmsProfile.SensMessageEncode | src/ant_profiles/ant_tpms/ant_tpms.c:161-198 | the message is the pending known request's or else the slot's page, as its payload under its number, the handler is called once with it, and the default branch is never reached |
| Profile.TpmsProfile.DispMessageDecode | src/ant_profiles/ant_tpms/ant_tpms.c:229-263 | a message changes the page it names and calls the handler once; an unknown one changes nothing |
| Profile.DisplayShowsPage | src/ant_profiles/ant_tpms/ant_tpms.c:161-263 | what a sensor sends a display shows: exactly that page, up to its codec's rounding, and no other |
| Settings.Store.LoadImmediateValue | src/settings.c:58-76 | an entry of the right length is loaded, of another length is an error, and a missing one is reported |
| Settings.Store.LoadImmediateValueInitDefault | src/settings.c:83-116 | an existing entry is kept, a missing one becomes the default after exactly the failing writes and one that succeeds, for any finite number of failures, and a wrong length is reported with entry and destination untouched |
| Settings.FirstSuccess | src/settings.c:87-101 | the writes counted there are the leading failures of the store's faults and the first success after them |
| Handlers.TpmsApp.constructor | src/ant.c:195-270 | start-up leaves default pages with the stored role and thresholds, and sends a first message of page 1 |
| Handlers.TpmsApp.Restore | src/ant.c:233-260 | the settings are read in the code's order through its shared buffer |
| Handlers.TpmsApp.ConfigHandler | src/ant.c:56-127 | a configuration page has the specified effect on pages and storage, each write succeeding or failing as the store's faults have it |
| Handlers.TpmsApp.SensMessageDecode | src/ant_profiles/ant_tpms/ant_tpms.c:205-222 | only page 16 is acted on, as a configuration page |
| Handlers.TpmsApp.SensorDataHandler | src/ant.c:129-193 | a reading has the specified effect on pages 1 and 82 |
| Handlers.ConfigChangesExactly | src/ant.c:56-127 | exactly the fields change whose bit of the command is set, bit by bit, or all return to default on the empty command; pressure and alarms stay |
| Handlers.ConfigStoresExactly | src/ant.c:70-123 | a configuration page writes exactly the entries role, alL and alH whose bit of the command is set, in little-endian order, and every other entry stays |
| Handlers.WritesInOrder | src/ant.c:70-123 | role, low and high threshold are written in this order, each if its bit is set |
| Handlers.StartUp | src/ant.c:233-260 | start-up restores the stored role and thresholds, writes the defaults of those missing, and leaves pages 1 and 82 at their defaults |
| Handlers.StorageHoldsLatest | src/ant.c:70-123 | from any initial storage, storage always holds the latest saved role and thresholds, or what was there first, or the default, whatever resets came between |
| Handlers.RebootRestores | src/ant.c:233-252 | from any initial storage, after a reboot role and thresholds are the latest saved ones, what was there first, or the defaults, and ambient is its default |
| Handlers.RolesAgree | src/ant.c:125-126 | between steps page 1 shows page 16's role and page 16 carries no command |
| Handlers.WrongLengthHigh | src/ant.c:242-252 | a stored high threshold of the wrong length becomes the low one |
| Handlers.PublishedPressureRange | src/ant.c:137-144 | the published pressure is 0 or 76 to 32767, and the compensated one, cut off at 75 hPa, exactly if that is -32768 to 32767 or at most -65461 |
| Handlers.AmbientWraps | src/ant.c:138-144 | an ambient pressure that turns 757 hPa into 27306 hPa |
| Handlers.AlarmBits | src/ant.c:146-164 | each OK bit is its comparison; both alarms are raised exactly if the pressure lies between a high threshold below and a low one above it |
| Handlers.StatusVoltages | src/ant.c:167-188 | the voltage at which each battery status begins |
| Handlers.BatteryStatusMonotone | src/ant.c:167-188 | the status is one of the five and never worse at a higher voltage |
| EndToEnd.SpimReceive | src/spi.c:112-142 | an accepted frame reaches the pages as decoded; a failed transfer or checksum leaves them unchanged |
| EndToEnd.SentBytesAreDecoded | src/sensor.c:17-51 | pressure, temperature, voltage and flags of an accepted late frame, as numbers of the bytes the sensor sent |
| EndToEnd.FrameToPage82 | src/ant.c:166-192 | from frame to display: voltage at most 4 mV below 10 mV times the byte plus 1220 mV, status by the unrounded voltage, time rounded to even |
| EndToEnd.FrameToPage1 | src/ant.c:137-164 | from frame to display: the calibration curve shifted by the ambient pressure and cut off at 75 hPa, exactly if the shifted value fits, and alarms by the shown pressure |
| EndToEnd.UptimeToDisplay | src/ant.c:190 | the displayed operating time is the uptime carried over all sessions plus now, rounded to even modulo 2^25 |
| EndToEnd.CommandSurvivesReboot | src/ant.c:70-123 | role and thresholds of a received message that were saved are restored by a reboot, from the message's own bits and bytes, unless others were saved since and whatever storage held at first |
| EndToEnd.ConfigurationShown | src/ant_profiles/ant_tpms/ant_tpms.c:176-178 | in every state of every run with four-bit roles a display shows page 16 without loss |
| EndToEnd.PayloadConfigures | src/ant.c:56-127 | what every payload of page 16 does to page 16 and to storage, from its own bits and bytes |
| EndToEnd.ThresholdCommands | include/ant_profiles/tpms/pages/ant_tpms_page_16.h:37-44 | a first byte of 64 or 128 plus any role sets and saves exactly the low or the high threshold, to any value |
| EndToEnd.DocumentedMessages | doc/ANT_TPMS_profile.md:75-78 | what the documented configuration messages do by the code |

## Left out

- RamRetention.RamPower.RangeRetain: requires that an accepted range ends no higher than 0xFFFF8000, because otherwise the loop does not end (`LoopEndsIff`).
- Sensor.DecodeSensorBuffer: leaves the pressure open for codes that C cannot convert to 16 unsigned bits (negative ones and those above 3912).
- Scheduler.RequestController.PendingGet: stands for the SDK's request controller, of which only its idle behaviour is known; what is pending after a call is open.
- Profile.CopyPayload: stands for the SDK's codecs of pages 80 and 81, whose pages are held as payloads; the software version and serial number put into page 81 are not computed.
- The four padding bytes after the CRC in the retained record, which no check covers.
- Interrupts between the statements of a handler, and a reset in the middle of one.
- Read errors of the settings storage, and the deletion of an entry by writing an empty value.
- Bluetooth services, the management transport and the device ID they set: thin sequences of system calls.
- ANT channel setup, message transmission and channel events: only calls into the SDK.
- GPIO, SPI and work queue drivers, logging and hardware ID.
- The simulator, which refers to fields that do not exist and is not built.
