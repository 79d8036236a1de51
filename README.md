# FluxLED driver core, modelled in Dafny

This project models the byte-level core of the FluxLED Wi-Fi bulb driver
(the C# library `libFluxLED`) and proves properties of it.

- **Utils** (`utils.dfy`) holds the integer conversions between raw device
  bytes and 0-100 percentages, and between preset-pattern delay bytes
  (1-31) and speed percentages. Each has the range checks that throw
  `ArgumentOutOfRangeException`. The module proves bounds, end points,
  monotonicity and the round trips, including the one that loses
  information.
- **Enums** (`enums.dfy`) holds the `BuiltInTimer` and `PresetPattern`
  code tables. `Enum.IsDefined` on them becomes a membership predicate.
- **DateTimes** (`datetime.dfy`) holds the parts of .NET's `DateTime`
  the driver relies on:
  - a field record;
  - the validity check its constructor performs;
  - the day of the week, which `SetClock` sends ISO-style (Monday 1 …
    Sunday 7).
- **LedTimers** (`led_timer.dfy`) holds one slot of the bulb's six-slot
  timer table.
  - The class hierarchy (`LedTimer` and its five subclasses) becomes one
    record whose `kind` says which class it is and carries that class's
    stored bytes.
  - `FromBytes` keeps the source's dispatch order: the terminator byte 13
    first, then the pattern code at byte 8, then the warm-white byte 12.
  - `ToBytes` is a method that fills a fresh 14-byte array. Each
    subclass's override patches its own offsets.
  - The property getters and setters convert through `Utils`.
- **Messages** (`messages.dfy`) holds the wire messages:
  - checksum framing;
  - the fixed message tables;
  - the colour, white, clock, preset and timer-table encoders;
  - the decision tables applied to a state reply (`DetermineMode`, the
    power byte).
- **Sessions** (`sessions.dfy`) gives one function per `WifiLedBulb`
  operation. It maps a session (the bulb's fields plus the transport) to
  the operation's result and the session afterwards. **SessionProperties**
  (`session_properties.dfy`) proves what these operations guarantee.
- **Bulbs** (`bulbs.dfy`) is the class `WifiLedBulb` with the source's
  fields (`m_protocol`, `m_useChecksum`, `m_queryLen`, `m_rgbwprotocol`,
  `RGBWCapable`, `m_mode`, `IsOn`, `m_rawState`). Its methods update
  those fields in place and are each proved to agree with the matching
  `Sessions` function.
  - The retry recursions of `DetermineQueryLength`, `QueryState` and
    `UpdateState` run as loops.
  - Message buffers are arrays filled index by index.
  - `SendTimers` pads the caller's list (a `TimerList` object) in place.

**Transport.** The socket is replaced by a script of replies and a ghost
log of the messages sent.
- Each reply is either some bytes or a socket failure.
- `ReadMsg(n)` takes the next reply and cuts it to `n` bytes.
- An exhausted script behaves like a receive time-out.
- Connection and send failures are folded into the reply that follows
  them.

**Exceptions.** Every exception the code can raise is a case of the
`Error` datatype, returned in a `Result`. This includes the .NET
`NullReferenceException` and `IndexOutOfRangeException` that the code
raises by dereferencing a missing or short state.

Where the comments in the source and its code disagree, the model follows
the code:

- The comment on the state reply says 0x23 is off and 0x24 is on. The
  code treats 0x23 as on and 0x24 as off (`PowerAfter`).
- Device types 0x25, 0x27 and 0x35 are commented as "8-byte protocol",
  but the code selects the 9-byte colour message (`ApplyDeviceType`).
- `SendTimers` computes an ordering with the active timers first and
  never uses it. The table goes out in the caller's list order
  (`SendTimersKeepsListOrder`).
- `UpdateState` dereferences the state that `QueryState` returns, which
  is null for an unreachable bulb. The model throws `NullReference` there
  (`UpdateStateUnreachable`).
- `GetTimers` throws on the first slot that fails to decode, so one bad
  slot loses the whole table (`DecodeSlotsStops`).
- `ColorLedTimer` and `WarmWhiteLedTimer` never write the pattern byte,
  and a repeating timer encodes zeros for its date and for its hour and
  minute. As a result only one-off Plain, BuiltIn, Preset and TurnOff
  timers survive an encode/decode round trip (`RoundTrip`,
  `RepeatingTimerDoesNotDecode`).

## Model

| member | source | states |
|---|---|---|
| `Utils.ConvertByteToPercent` | libFluxLED/Utils.cs:13-16 | The result is the percentage rounded down (255p <= 100v < 255(p+1)), always within 0-100, with 0 giving 0 and 255 giving 100. |
| `Utils.ConvertPercentToByte` | libFluxLED/Utils.cs:18-24 | It fails with ArgumentOutOfRange exactly when the percentage is outside 0-100. Otherwise it gives the byte rounded down from p*255/100, with 0 giving 0 and 100 giving 255. |
| `Utils.ConvertDelayToSpeed` | libFluxLED/Utils.cs:26-37 | It fails with ArgumentOutOfRange exactly for a delay outside 1-31. Otherwise the speed lies in 0-100, with delay 1 giving 100 and delay 31 giving 0. |
| `Utils.ConvertSpeedToDelay` | libFluxLED/Utils.cs:39-50 | It fails with ArgumentOutOfRange exactly for a speed outside 0-100. Otherwise the delay lies in 1-31, with speed 100 giving 1 and speed 0 giving 31. |
| `Utils.PercentRoundTrip` | libFluxLED/Utils.cs:13-24 | For every p in 0-100, converting to a byte and back gives p or p-1, never more than p. |
| `Utils.PercentByteExceedsPercent` | libFluxLED/Utils.cs:18-24 | A percentage 1-100 stored as a byte gives a strictly larger byte, so the byte differs from the percentage. |
| `Utils.DelayToSpeedMonotone` | libFluxLED/Utils.cs:26-37 | A longer delay never gives a higher speed. |
| `Utils.SpeedToDelayMonotone` | libFluxLED/Utils.cs:39-50 | A higher speed never gives a longer delay. |
| `Utils.SpeedRoundTrip` | libFluxLED/Utils.cs:26-50 | For every speed s in 0-100, converting to a delay and back succeeds and gives a speed in s..s+3. |
| `Utils.DelayRoundTripLoses` | libFluxLED/Utils.cs:26-50 | The other composition is not the identity: delay 2 reads as speed 97, which converts back to delay 1. |
| `Enums.BuiltInTimerCode` | libFluxLED/Enums.cs:4-8 | The built-in programs are coded 0xA1 (Sunrise) and 0xA2 (Sunset). |
| `Enums.BuiltInTimerFromCode` | libFluxLED/Enums.cs:4-8 | Casting a defined built-in code to the enum and back gives the same byte. |
| `Enums.IsPresetPatternCode` | libFluxLED/Enums.cs:10-32 | No preset code equals 0x00, 0x41, 0x60, 0x61, 0x62, 0xA1 or 0xA2, so the dispatch branches on these bytes are disjoint. |
| `Enums.PresetPatternFromCode` | libFluxLED/Enums.cs:10-32 | Casting a defined preset code to the enum and back gives the same byte. |
| `Enums.PresetPatternRoundTrip` | libFluxLED/Enums.cs:10-32 | Every pattern's code is defined, and casting it back gives the same pattern. |
| `Enums.PresetPatternCodes` | libFluxLED/Enums.cs:10-32 | A byte is a preset code exactly when some pattern has it as its code, so `IsDefined` is the range check 0x25-0x38. |
| `Enums.PresetPatternCodeInjective` | libFluxLED/Enums.cs:10-32 | Distinct patterns have distinct codes. |
| `DateTimes.DaysInMonth` | libFluxLED/LedTimer.cs:120 | A month has 28 to 31 days. This is the day bound of the date check that the decode constructor relies on. |
| `DateTimes.DayOfWeek` | libFluxLED/WifiLedBulb.cs:364 | The .NET weekday number lies in 0-6, counted from Sunday = 0. |
| `DateTimes.YearLength` | libFluxLED/LedTimer.cs:120 | The months of a year add up to 366 days in a leap year and 365 otherwise. |
| `DateTimes.LeapDaysStep` | libFluxLED/WifiLedBulb.cs:364 | The Gregorian leap-day count grows by one across the end of a year exactly when that year is a leap year. |
| `DateTimes.DayNumberNextDay` | libFluxLED/WifiLedBulb.cs:364 | The day after a date is one day later, including across month and year ends. |
| `DateTimes.DayOfWeekNextDay` | libFluxLED/WifiLedBulb.cs:364 | The weekday of the next day is the next weekday, with Saturday (6) followed by Sunday (0). |
| `DateTimes.FirstDayIsMonday` | libFluxLED/WifiLedBulb.cs:364 | 1 January of year 1 is weekday 1 (Monday). |
| `DateTimes.UnixEpochIsThursday` | libFluxLED/WifiLedBulb.cs:364 | 1 January 1970 is weekday 4 (Thursday). |
| `DateTimes.MillenniumIsSaturday` | libFluxLED/WifiLedBulb.cs:364 | 1 January 2000 is weekday 6 (Saturday). |
| `DateTimes.IsoWeekday` | libFluxLED/WifiLedBulb.cs:364 | The weekday `SetClock` sends lies in 1-7 and agrees with the .NET weekday modulo 7, so Sunday is 7. |
| `LedTimers.FromBytes` | libFluxLED/LedTimer.cs:46-86 | A terminator byte 13 of 0x0f decodes as TurnOff whatever byte 8 holds. Otherwise pattern 0x00 gives the base kind, 0x61 Color, 0xA1/0xA2 BuiltIn and a preset code Preset, each with its payload bytes. Any other code with a non-zero byte 12 gives WarmWhite through the percent setter, and the rest fails with UnrecognizedTimer. In every kind, the active flag is byte 0 == 0xf0, the repeat mask is byte 7 and the schedule is (2000+b1, b2, b3, b4, b5); an invalid schedule fails. It succeeds exactly when the schedule is a valid date and the slot is recognised with, for WarmWhite, a byte 12 of at most 100. Every other failure is ArgumentOutOfRange. |
| `LedTimers.DecodeHeader` | libFluxLED/LedTimer.cs:94-121 | The base constructor succeeds exactly when (2000+b1, b2, b3, b4, b5) is a valid date, and otherwise throws ArgumentOutOfRange. The active flag is byte 0 == 0xf0, the repeat mask is byte 7, and the kind is the caller's. |
| `LedTimers.Encoding` | libFluxLED/LedTimer.cs:124-149 | `ToBytes` is 14 bytes. Byte 0 is the active flag, byte 7 the mask, and byte 13 is 0x0f for TurnOff and 0xf0 otherwise. |
| `LedTimers.ScheduleBytes` | libFluxLED/LedTimer.cs:133-140 | The one-off schedule bytes are the year offset from 2000 (exact for years 2000-2255), then month, day, hour and minute. |
| `LedTimers.EncodingLayout` | libFluxLED/LedTimer.cs:124-149 | Byte 0 is 0xf0 if active, else 0x0f. Bytes 1-5 are the schedule for a one-off timer and zero for a repeating one. Byte 6 is 0 and byte 7 is the mask. Byte 13 is 0xf0, or 0x0f for TurnOff. Every offset a kind does not override keeps the base bytes: Color leaves byte 8 at 0, and WarmWhite writes only byte 12. |
| `LedTimers.HeaderToBytes` | libFluxLED/LedTimer.cs:124-149 | The base `ToBytes` fills a fresh 14-byte array with the base encoding. |
| `LedTimers.ToBytes` | libFluxLED/LedTimer.cs:196-361 | Each subclass's `ToBytes` override, patching the base array, yields exactly that timer's encoding in a fresh array. |
| `LedTimers.NewTimer` | libFluxLED/LedTimer.cs:88-92 | The default constructor gives an inactive, non-repeating timer at `default(DateTime)`. |
| `LedTimers.NewColorTimer` | libFluxLED/LedTimer.cs:181-184 | `new ColorLedTimer(color)` is an inactive Color timer with that colour. |
| `LedTimers.NewBuiltinTimer` | libFluxLED/LedTimer.cs:233-236 | `new BuiltinTimerLedTimer()` is an inactive Sunrise with brightness 0 to 0. |
| `LedTimers.NewPresetTimer` | libFluxLED/LedTimer.cs:282-286 | `new PresetPatternLedTimer()` is pattern 0x25 with delay byte 22, which reads back as speed 30. |
| `LedTimers.NewWarmWhiteTimer` | libFluxLED/LedTimer.cs:319-322 | `new WarmWhiteLedTimer()` stores level byte 127, which reads back as 49 percent. |
| `LedTimers.NewTurnOffTimer` | libFluxLED/LedTimer.cs:346-349 | `new TurnOffLedTimer()` is inactive. Its encoding is `0f 31 01 01 00 … 00 0f`, because year 1 wraps to byte 49. |
| `LedTimers.Speed` | libFluxLED/LedTimer.cs:276-280 | The `Speed` getter fails exactly for a stored delay outside 1-31, and otherwise lies in 0-100. |
| `LedTimers.SetSpeed` | libFluxLED/LedTimer.cs:276-280 | The setter fails exactly for a speed outside 0-100. Otherwise it changes only the delay, to one in 1-31 that reads back as the speed set or up to 3 more. |
| `LedTimers.BrightnessStart` | libFluxLED/LedTimer.cs:220-224 | The getter lies in 0-100. |
| `LedTimers.BrightnessEnd` | libFluxLED/LedTimer.cs:227-231 | The getter lies in 0-100. |
| `LedTimers.SetBrightnessStart` | libFluxLED/LedTimer.cs:220-224 | The setter fails exactly outside 0-100. Otherwise it changes only the start byte, which reads back as the percentage or one less. |
| `LedTimers.SetBrightnessEnd` | libFluxLED/LedTimer.cs:227-231 | The setter fails exactly outside 0-100. Otherwise it changes only the end byte, which reads back as the percentage or one less. |
| `LedTimers.WarmthLevel` | libFluxLED/LedTimer.cs:313-317 | The getter lies in 0-100. |
| `LedTimers.SetWarmthLevel` | libFluxLED/LedTimer.cs:313-317 | The setter fails exactly outside 0-100. Otherwise it changes only the level, which reads back as the percentage or one less. |
| `LedTimers.RoundTrip` | libFluxLED/LedTimer.cs:46-149 | A one-off timer in years 2000-2255 decodes from its own encoding with the same active flag and mask and the schedule to the minute. BuiltIn, Preset, TurnOff and base timers keep their kind and payload; Color and WarmWhite come back as the base kind. |
| `LedTimers.RepeatingTimerDoesNotDecode` | libFluxLED/LedTimer.cs:115-149 | A repeating timer's encoding fails to decode with ArgumentOutOfRange, because its month and day are 0. |
| `LedTimers.WarmWhiteDecodeRescales` | libFluxLED/LedTimer.cs:324-334 | A warm-white slot whose byte 12 is above 100 fails to decode. One at most 100 decodes to level p*255/100, which re-encodes as a different byte 12. |
| `Messages.Frame` | libFluxLED/WifiLedBulb.cs:453-464 | With checksums on, the wire message is the input plus exactly one byte, the sum of all bytes mod 256. Without them it is the input unchanged. |
| `Messages.QueryMessage` | libFluxLED/WifiLedBulb.cs:509-515 | The query is 3 bytes, and starts with 0xef (the old query) exactly on the original protocol. |
| `Messages.OnOffMessage` | libFluxLED/WifiLedBulb.cs:573-583 | The message is `cc 23/24 33` on the original protocol and `71 23/24 0f` otherwise, with 0x23 for on. |
| `Messages.DetermineMode` | libFluxLED/WifiLedBulb.cs:539-571 | Each mode is characterised in both directions. Color is 0x41, or 0x61/0x62 when RGBW-capable or ww_level is 0. WW is 0x61/0x62 when neither holds. Custom is 0x60, Preset a preset code, Sunrise 0xA1 and Sunset 0xA2. Unknown is everything else. |
| `Messages.PowerAfter` | libFluxLED/WifiLedBulb.cs:200-208 | Power byte 0x23 means on and 0x24 means off. Any other value leaves the flag unchanged. |
| `Messages.ColorSetMessage` | libFluxLED/WifiLedBulb.cs:241-272 | It fails with InvalidOperation exactly on the original protocol. Otherwise the frame is 7 bytes with the mask at 5 (8-byte variant) or 8 bytes with the mask at 6 (9-byte variant). Byte 0 is 0x31 when persisting, else 0x41. The mask is written only without the RGBW protocol, 0x0f follows it, and the rest is zero. |
| `Messages.RgbMessage` | libFluxLED/WifiLedBulb.cs:274-297 | On the original protocol `SetRGB` sends exactly `56 r g b aa`. Otherwise it sends the colour-only frame with r, g, b at 1-3 and every other byte as in the frame. |
| `Messages.WhiteMessage` | libFluxLED/WifiLedBulb.cs:299-318 | It fails with InvalidOperation exactly on the original protocol. Otherwise it sends the white-only frame with bytes 1-4 = 0 0 0 warm, cold at 5 on the 9-byte variant, and the mask and terminator kept. |
| `Messages.RgbwMessage` | libFluxLED/WifiLedBulb.cs:320-344 | It fails with InvalidOperation exactly on the original protocol or without the RGBW protocol. Otherwise it sends the colour-and-white frame with bytes 1-4 = r g b warm, cold at 5 on the 9-byte variant, and the last two bytes kept. |
| `Messages.ClockMessage` | libFluxLED/WifiLedBulb.cs:353-368 | The message is `10 14 (year-2000) month day hour minute second weekday 00 0f`, 11 bytes. The year offset is exact for years 2000-2255, and the weekday is ISO, Sunday being 7. |
| `Messages.ClockFromReply` | libFluxLED/WifiLedBulb.cs:346-351 | Reply bytes 3-8 give year-2000, month, day, hour, minute and second. It fails exactly when the reply is too short or the date is invalid. |
| `Messages.PresetMessage` | libFluxLED/WifiLedBulb.cs:370-380 | It fails exactly for a speed outside 0-100. Otherwise it is `61 pattern delay 0f`, where the pattern byte casts back to the pattern and the delay is the speed converted. |
| `Messages.Encodings` | libFluxLED/WifiLedBulb.cs:425-431 | There is one 14-byte `ToBytes` block per timer, in list order. |
| `Messages.TimerTableMessage` | libFluxLED/WifiLedBulb.cs:419-435 | The timer table is 87 bytes: `21`, then the blocks, then `00 f0`. |
| `Messages.TimerTableSlot` | libFluxLED/WifiLedBulb.cs:424-431 | Timer i of the list occupies bytes 1+14i to 15+14i of the table. |
| `Messages.Slot` | libFluxLED/WifiLedBulb.cs:394-398 | Slot i of a reply is its 14 bytes starting at 2+14i. |
| `Messages.DecodeSlots` | libFluxLED/WifiLedBulb.cs:391-400 | It succeeds exactly when every slot decodes, and then holds each slot's timer in order. |
| `Messages.DecodeSlotsStops` | libFluxLED/WifiLedBulb.cs:394-398 | Once a slot fails to decode, the whole table fails with that slot's error. |
| `Sessions.NewSession` | libFluxLED/WifiLedBulb.cs:17-41 | A new bulb is consistent, with the 8-byte protocol, checksums on, query length 0, no state and an empty log. |
| `Sessions.Send` | libFluxLED/WifiLedBulb.cs:453-464 | Sending appends the framed message to the log and changes nothing else. |
| `Sessions.Receive` | libFluxLED/WifiLedBulb.cs:466-473 | Receiving consumes one reply. It fails with a socket error exactly when that reply is a failure or none is left. Otherwise it yields the reply cut to the expected length. |
| `Sessions.DetermineQueryLength` | libFluxLED/WifiLedBulb.cs:475-507 | Detection sends at least one probe and only appends to the log. It throws only a socket error or UnknownProtocol, and success sets query length 11 or 14. |
| `Sessions.QueryState` | libFluxLED/WifiLedBulb.cs:517-537 | A query sends at least one message. It can throw only while detecting an unknown protocol, with a socket error or UnknownProtocol. Success means a non-zero query length. |
| `Sessions.UpdateState` | libFluxLED/WifiLedBulb.cs:121-211 | An update sends at least one message. Success leaves a known mode and a stored state of at least 10 bytes. Failure is a socket error, UnknownProtocol, NullReference, IndexOutOfRange or UnknownMode. |
| `Sessions.ApplyDeviceType` | libFluxLED/WifiLedBulb.cs:163-187 | Type 0x04/0x33/0x81 sets the RGBW protocol, and 0x04/0x25/0x33/0x81 sets RGBW-capable. 0x25/0x27/0x35 selects the 9-byte protocol. 0x01 selects the original protocol and clears the checksum. No flag is cleared and nothing else changes. |
| `Sessions.TurnOnOff` | libFluxLED/WifiLedBulb.cs:213-223 | TurnOn and TurnOff send the protocol's on/off message and set `IsOn` accordingly, changing nothing else. |
| `Sessions.SetRgb` | libFluxLED/WifiLedBulb.cs:274-297 | The framed colour message is sent first, before the state refresh. Success leaves a known mode. |
| `Sessions.SetWhite` | libFluxLED/WifiLedBulb.cs:299-318 | On the original protocol it throws InvalidOperation before anything is sent. |
| `Sessions.SetRgbw` | libFluxLED/WifiLedBulb.cs:320-344 | On the original protocol, or without the RGBW protocol, it throws InvalidOperation before anything is sent. |
| `Sessions.GetClock` | libFluxLED/WifiLedBulb.cs:346-351 | It sends the clock query and leaves the bulb's fields alone. With no reply or a socket failure it fails with a socket error. Otherwise the result is `ClockFromReply` of the reply cut to 12 bytes. |
| `Sessions.SetClock` | libFluxLED/WifiLedBulb.cs:353-368 | It sends the clock message and changes nothing else. |
| `Sessions.SetPresetPattern` | libFluxLED/WifiLedBulb.cs:370-380 | A speed outside 0-100 throws before anything is sent. |
| `Sessions.GetTimers` | libFluxLED/WifiLedBulb.cs:382-401 | On success the reply had at least 88 bytes, and the six timers are the slots at 2+14i decoded by `FromBytes`. The fields are unchanged and the timer query is logged. With no reply or a socket failure it fails with a socket error. A reply shorter than 88 bytes gives ResponseTooShort, and a longer one gives `DecodeSlots` of its first 88 bytes. |
| `Sessions.CountActive` | libFluxLED/WifiLedBulb.cs:406 | The count is at most the list length. It is 0 exactly when no timer is active, and the full length exactly when every timer is active. |
| `Sessions.PadTimers` | libFluxLED/WifiLedBulb.cs:409-413 | The padded list keeps the caller's timers as a prefix and adds new TurnOff timers up to six. |
| `Sessions.SendTimers` | libFluxLED/WifiLedBulb.cs:403-442 | More than six active timers throw ArgumentError, with the list untouched and nothing sent. Otherwise the list is padded, and the one message sent is the table of the padded list's first six. |
| `Sessions.WhiteColor` | libFluxLED/WifiLedBulb.cs:233-239 | Outside colour mode the result is (255, 255). In colour mode it is bytes 9 and 10 of the last state, which must hold 11 bytes. |
| `Sessions.WarmWhiteBrightness` | libFluxLED/WifiLedBulb.cs:86-95 | In warm-white mode the brightness is byte 9 of the last state. |
| `SessionProperties.DetectSettles` | libFluxLED/WifiLedBulb.cs:475-507 | Detection ends in one of three ways. It fails with a socket or unknown-protocol error and leaves the bulb as it was. It sets query length 14. Or it selects the original protocol without checksum and query length 11. |
| `SessionProperties.DetectOutcome` | libFluxLED/WifiLedBulb.cs:475-507 | Detection keeps the bulb consistent. It succeeds exactly when the query length becomes non-zero, and the length is 11 exactly for the original protocol. |
| `SessionProperties.DetectProbeCount` | libFluxLED/WifiLedBulb.cs:475-507 | Detection only appends to the log, at most two probes per round, for at most retries+1 rounds. |
| `SessionProperties.DetectNewProtocol` | libFluxLED/WifiLedBulb.cs:477-483 | A 2-byte answer to the new query sets query length 14 after one probe. |
| `SessionProperties.DetectOriginalProtocol` | libFluxLED/WifiLedBulb.cs:485-495 | A short answer to the new query, then an answer to the old query with byte 1 equal to 0x01, selects the original protocol with the checksum cleared and query length 11. |
| `SessionProperties.DetectGivesUp` | libFluxLED/WifiLedBulb.cs:477-506 | Detection throws UnknownProtocol after retries+1 rounds of two probes when, every round, the answer to the new query is shorter than 2 bytes and the answer to the old query is not at least 2 bytes with byte 1 equal to 0x01. |
| `SessionProperties.QueryDetected` | libFluxLED/WifiLedBulb.cs:517-537 | With the protocol known, a query never throws. It returns a state no longer than the query length with the bulb unchanged, or no state with the bulb marked off. |
| `SessionProperties.QueryAfterDetect` | libFluxLED/WifiLedBulb.cs:517-520 | After successful detection, the query continues as the query of the detected bulb. |
| `SessionProperties.QueryStateOutcome` | libFluxLED/WifiLedBulb.cs:517-537 | A query leaves the flags, mode and raw state alone, and a thrown error leaves the bulb unchanged. Success means a non-zero query length. A returned state keeps `IsOn`, and no state means `IsOn` is false. |
| `SessionProperties.QueryStateKeepsConsistent` | libFluxLED/WifiLedBulb.cs:517-537 | A query keeps the bulb consistent: the original protocol never uses checksums, and the query length is 0, 11 or 14. |
| `SessionProperties.QueryStateGivesUp` | libFluxLED/WifiLedBulb.cs:528-536 | After retries+1 socket failures the query returns no state and marks the bulb off, having sent one query per attempt. |
| `SessionProperties.QueryAnswered` | libFluxLED/WifiLedBulb.cs:522-527 | With the protocol known and a reply waiting, the query returns that reply cut to the query length. |
| `SessionProperties.UpdateStateKeepsConsistent` | libFluxLED/WifiLedBulb.cs:121-211 | An update keeps the bulb consistent, and the RGBW flags are only ever set, never cleared. |
| `SessionProperties.UpdateStateFailure` | libFluxLED/WifiLedBulb.cs:121-211 | A failed update leaves the raw state as it was, and `IsOn` unchanged or cleared. |
| `SessionProperties.UpdateStateSuccess` | libFluxLED/WifiLedBulb.cs:189-210 | After a successful update, the stored state determines a known mode, and `IsOn` follows that state's power byte. |
| `SessionProperties.UpdateStateGivesUpOnUnknownMode` | libFluxLED/WifiLedBulb.cs:189-198 | If every reply shows an unknown pattern, the update runs retries+1 rounds, one query each, and throws UnknownMode. It never writes `IsOn` or the raw state. |
| `SessionProperties.UpdateStateUnreachable` | libFluxLED/WifiLedBulb.cs:121-167 | A bulb that never answers is marked off, and the update then throws NullReference on the missing state. |
| `SessionProperties.SetRgbOriginal` | libFluxLED/WifiLedBulb.cs:274-297 | On the original protocol `SetRGB` puts exactly `56 r g b aa` on the wire, without a checksum, before refreshing. |
| `SessionProperties.WhiteCommandsSend` | libFluxLED/WifiLedBulb.cs:299-344 | `SetWhite` and `SetRGBW` send their framed message before refreshing the state. A refused call leaves the session untouched. |
| `SessionProperties.PresetPatternSend` | libFluxLED/WifiLedBulb.cs:370-380 | With a speed in range, `61 pattern delay 0f` is sent, framed. |
| `SessionProperties.ColorCommandsKeepConsistent` | libFluxLED/WifiLedBulb.cs:274-344 | `SetRGB`, `SetWhite` and `SetRGBW` keep the bulb consistent. |
| `SessionProperties.PresetPatternKeepsConsistent` | libFluxLED/WifiLedBulb.cs:370-380 | `SetPresetPattern` keeps the bulb consistent. |
| `SessionProperties.CountActiveAppend` | libFluxLED/WifiLedBulb.cs:406 | The active count of a concatenation is the sum of the parts' counts. |
| `SessionProperties.CountActiveSingle` | libFluxLED/WifiLedBulb.cs:406 | A single timer counts one exactly when it is active. |
| `SessionProperties.PadTimersKeepsActiveCount` | libFluxLED/WifiLedBulb.cs:406-413 | Padding adds no active timer, so the padded list has the caller's active count. |
| `SessionProperties.SendTimersKeepsListOrder` | libFluxLED/WifiLedBulb.cs:415-431 | The table holds the caller's timers in the caller's order, with active ones not moved first, followed by TurnOff timers up to six. |
| `SessionProperties.OnOffMatchesPowerByte` | libFluxLED/WifiLedBulb.cs:200-223 | The power byte of an on/off command, read back in a state reply, gives the power state the command asked for. |
| `Bulbs.WifiLedBulb.constructor` | libFluxLED/WifiLedBulb.cs:102-108 | A new bulb holds the initial session and is consistent. |
| `Bulbs.WifiLedBulb.SendMsg` | libFluxLED/WifiLedBulb.cs:453-464 | The checksum loop sums the message, and the framed message is logged. |
| `Bulbs.WifiLedBulb.ReadMsg` | libFluxLED/WifiLedBulb.cs:466-473 | It consumes one reply and returns it cut to the expected length, or fails. |
| `Bulbs.WifiLedBulb.ProbeRound` | libFluxLED/WifiLedBulb.cs:477-506 | One round either settles detection as a whole, or leaves it to the remaining retries with the same final outcome. |
| `Bulbs.WifiLedBulb.DetermineQueryLength` | libFluxLED/WifiLedBulb.cs:475-507 | The retry loop ends with the outcome of the recursive detection: a settled query length, or UnknownProtocol. |
| `Bulbs.WifiLedBulb.QueryState` | libFluxLED/WifiLedBulb.cs:517-537 | The retry loop agrees with the recursive query, including detection and marking the bulb off when it gives up. |
| `Bulbs.WifiLedBulb.ApplyDeviceType` | libFluxLED/WifiLedBulb.cs:163-187 | The flag updates in place equal `Sessions.ApplyDeviceType`, and the transport is untouched. |
| `Bulbs.WifiLedBulb.UpdateRound` | libFluxLED/WifiLedBulb.cs:121-211 | One attempt either settles the update as a whole, or leaves it to the remaining retries with the same final outcome. |
| `Bulbs.WifiLedBulb.UpdateState` | libFluxLED/WifiLedBulb.cs:121-211 | The retry loop agrees with the recursive update and keeps the bulb consistent. |
| `Bulbs.WifiLedBulb.TurnOn` | libFluxLED/WifiLedBulb.cs:213-217 | It sends the on message, sets `IsOn`, and keeps consistency. |
| `Bulbs.WifiLedBulb.TurnOff` | libFluxLED/WifiLedBulb.cs:219-223 | It sends the off message, clears `IsOn`, and keeps consistency. |
| `Bulbs.WifiLedBulb.GetColorSetMsg` | libFluxLED/WifiLedBulb.cs:241-272 | The fresh buffer holds exactly the colour frame, or the call fails with InvalidOperation on the original protocol. |
| `Bulbs.WifiLedBulb.SetRGB` | libFluxLED/WifiLedBulb.cs:274-297 | The buffer filled in place is the RGB message. It is sent and the state refreshed, keeping consistency. |
| `Bulbs.WifiLedBulb.SetWhite` | libFluxLED/WifiLedBulb.cs:299-318 | It refuses the original protocol before any I/O. Otherwise the buffer filled in place is the white message, and it is sent and the state refreshed. |
| `Bulbs.WifiLedBulb.SetRGBW` | libFluxLED/WifiLedBulb.cs:320-344 | It refuses before any I/O on the original protocol or without the RGBW protocol. Otherwise the buffer is the RGBW message, and it is sent and the state refreshed. |
| `Bulbs.WifiLedBulb.GetClock` | libFluxLED/WifiLedBulb.cs:346-351 | The call equals `Sessions.GetClock`: the clock query is sent, then bytes 3-8 of the reply cut to 12 bytes are decoded, or a socket error is returned. |
| `Bulbs.WifiLedBulb.ClockBuffer` | libFluxLED/WifiLedBulb.cs:355-366 | The 11-byte buffer filled in place is the clock message. |
| `Bulbs.WifiLedBulb.SetClock` | libFluxLED/WifiLedBulb.cs:353-368 | It sends the clock message and changes nothing else. |
| `Bulbs.WifiLedBulb.SetPresetPattern` | libFluxLED/WifiLedBulb.cs:370-380 | It throws on a bad speed before sending. Otherwise it sends `61 pattern delay 0f` and refreshes the state, keeping consistency. |
| `Bulbs.WifiLedBulb.GetTimers` | libFluxLED/WifiLedBulb.cs:382-401 | The call equals `Sessions.GetTimers`: the slot loop decodes the six slots of the 88-byte reply in order and stops at the first that fails. A short reply gives ResponseTooShort, and a socket failure a socket error. |
| `Bulbs.WifiLedBulb.CopyInto` | libFluxLED/WifiLedBulb.cs:429 | `Array.Copy` puts the source at the offset and leaves the bytes before and after it unchanged. |
| `Bulbs.WifiLedBulb.BuildTimerTable` | libFluxLED/WifiLedBulb.cs:419-435 | The copy loop with its moving index builds exactly the timer table of the list's first six timers. |
| `Bulbs.WifiLedBulb.SendTimers` | libFluxLED/WifiLedBulb.cs:403-442 | It refuses more than six active timers before any I/O. Otherwise it pads the caller's list in place, sends the table and reads the two acknowledgements. |

## Left out

- `libFluxLED/Colors.cs` is not part of this model. It is floating-point
  colour arithmetic (HSV conversion, brightness, `AsBytes` scaling). A
  colour is the byte triple `AsBytes` would return, and a white setting is
  a (warm, cold) byte pair.
- The float branch of `Brightness` and `GetRGBColor` is float colour
  math. Only the warm-white branch of `Brightness` is modelled.
- `libFluxLED/BulbScanner.cs` is not part of this model. It is
  asynchronous UDP discovery with cancellation and callbacks.
- `Connect`, `Dispose`, `Connected`, the receive time-out value and the
  inside of `ReadMsg` are socket mechanics. They are replaced by the
  scripted transport:
  - a failed connect or send surfaces as the failure of the next receive.
    So `TurnOn`, `TurnOff` and `SetClock`, which only send, always succeed
    in the model, and `TurnOn`/`TurnOff` always write `IsOn`. In the
    driver, a failed send throws before `IsOn` is written;
  - bytes beyond the requested length are dropped rather than left in
    the socket.
- `ID`, `Model` and the IP address are identification strings with no
  logic.
- The `ToString` overrides in `LedTimer.cs` are string formatting only.
- The `TurnOn` property of `LedTimer` is never read or written by the
  codec.
- `DateTime` is a field record with the constructor's validity check and
  the day of the week. Its other behaviour (time zones, ticks, and the
  `DateTime` that `GetClock` builds beyond which bytes feed which field)
  is outside the driver.
- `Bulbs.WifiLedBulb.GetTimers` returns the six timers as a sequence
  rather than a `LedTimer[]` array.
- The exception types of `Exceptions.cs` are cases of `Error`, without
  their messages.
