/** The wire messages of the control protocol (libFluxLED/WifiLedBulb.cs):
    checksum framing, the fixed message tables, the command encoders and
    the decision tables applied to a state reply. */
module Messages {
  import opened Wrappers
  import opened Enums
  import opened DateTimes
  import opened Utils
  import opened LedTimers

  /** The wire-protocol variants a bulb may speak. */
  datatype Protocol = Ledenet9Byte | Ledenet8Byte | LedenetOriginal

  /** The operating modes a state reply can show. */
  datatype LedMode =
    | ModeUnknown | ModeColor | ModeWarmWhite | ModeCustom | ModePreset | ModeSunrise | ModeSunset

  /** A white setting: the warm and cold channel bytes. */
  datatype White = White(warm: Byte, cold: Byte)

  const NewQueryMsg: Bytes := [0x81, 0x8a, 0x8b]
  const OldQueryMsg: Bytes := [0xef, 0x01, 0x77]
  const OldOnMsg: Bytes := [0xcc, 0x23, 0x33]
  const NewOnMsg: Bytes := [0x71, 0x23, 0x0f]
  const OldOffMsg: Bytes := [0xcc, 0x24, 0x33]
  const NewOffMsg: Bytes := [0x71, 0x24, 0x0f]
  const GetClockMsg: Bytes := [0x11, 0x1a, 0x1b, 0x0f]
  const GetTimersMsg: Bytes := [0x22, 0x2a, 0x2b, 0x0f]

  const ColorOnlyWriteMask: Byte := 0xf0
  const WhiteOnlyWriteMask: Byte := 0x0f
  const ColorAndWhiteWriteMask: Byte := 0x00

  /** Power-state byte values; a reply's byte 2 and the on/off commands' byte 1. */
  const PowerOn: Byte := 0x23
  const PowerOff: Byte := 0x24

  // ---------------------------------------------------------------- framing

  /** What `SendMsg` puts on the wire: the message, followed by the low byte
      of its sum when checksums are in use. */
  function Frame(msg: Bytes, useChecksum: bool): (r: Bytes)
    ensures useChecksum ==> |r| == |msg| + 1 && r[..|msg|] == msg && r[|msg|] == Sum(msg) % 256
    ensures !useChecksum ==> r == msg
  {
    if useChecksum then msg + [Sum(msg) % 256] else msg
  }

  // ------------------------------------------------------------ fixed tables

  /** `GetQueryMsg`: the state query of the session's protocol. */
  function QueryMessage(protocol: Protocol): (r: Bytes)
    ensures |r| == 3
    ensures r[0] == 0xef <==> protocol == LedenetOriginal
  {
    if protocol == LedenetOriginal then OldQueryMsg else NewQueryMsg
  }

  /** `GetOnOffMessage`: `cc 23/24 33` on the original protocol and
      `71 23/24 0f` otherwise. */
  function OnOffMessage(protocol: Protocol, turnOn: bool): (r: Bytes)
    ensures |r| == 3 && r[1] == (if turnOn then PowerOn else PowerOff)
    ensures protocol == LedenetOriginal ==> r[0] == 0xcc && r[2] == 0x33
    ensures protocol != LedenetOriginal ==> r[0] == 0x71 && r[2] == 0x0f
  {
    if protocol == LedenetOriginal then (if turnOn then OldOnMsg else OldOffMsg)
    else (if turnOn then NewOnMsg else NewOffMsg)
  }

  // ---------------------------------------------------------- state replies

  /** `DetermineMode`: the operating mode shown by a reply's pattern byte and
      warm-white level. */
  function DetermineMode(wwLevel: Byte, patternCode: Byte, rgbwCapable: bool): (m: LedMode)
    ensures m == ModeColor <==>
              patternCode == 0x41 || ((patternCode == 0x61 || patternCode == 0x62) && (rgbwCapable || wwLevel == 0))
    ensures m == ModeWarmWhite <==>
              (patternCode == 0x61 || patternCode == 0x62) && !rgbwCapable && wwLevel != 0
    ensures m == ModeCustom <==> patternCode == 0x60
    ensures m == ModePreset <==> IsPresetPatternCode(patternCode)
    ensures m == ModeSunrise <==> patternCode == 0xA1
    ensures m == ModeSunset <==> patternCode == 0xA2
    ensures m == ModeUnknown <==>
              patternCode !in {0x41, 0x60, 0x61, 0x62, 0xA1, 0xA2} && !IsPresetPatternCode(patternCode)
  {
    if patternCode == 0x61 || patternCode == 0x62 then
      if rgbwCapable then ModeColor
      else if wwLevel != 0 then ModeWarmWhite
      else ModeColor
    else if patternCode == 0x60 then ModeCustom
    else if patternCode == 0x41 then ModeColor
    else if IsPresetPatternCode(patternCode) then ModePreset
    else if IsBuiltInTimerCode(patternCode) then
      (if patternCode == BuiltInTimerCode(Sunrise) then ModeSunrise else ModeSunset)
    else ModeUnknown
  }

  /** The on/off flag after a reply with power byte `power`: 0x23 means on,
      0x24 off, anything else leaves the flag as it was. */
  function PowerAfter(power: Byte, isOn: bool): (on: bool)
    ensures power == PowerOn ==> on
    ensures power == PowerOff ==> !on
    ensures power != PowerOn && power != PowerOff ==> on == isOn
  {
    if power == PowerOn then true
    else if power == PowerOff then false
    else isOn
  }

  // ---------------------------------------------------- colour and white

  /** Length and write-mask index of a colour message, by protocol. */
  function ColorSetLayout(protocol: Protocol): (nat, nat)
    requires protocol != LedenetOriginal
  {
    if protocol == Ledenet8Byte then (7, 5) else (8, 6)
  }

  /** `GetColorSetMsg`: the frame of a colour/white message, before the
      channel bytes go in. */
  function ColorSetMessage(protocol: Protocol, rgbwProtocol: bool, persist: bool, writeMask: Byte)
    : (r: Result<Bytes>)
    ensures r.Failure? <==> protocol == LedenetOriginal
    ensures r.Failure? ==> r.error == InvalidOperation
    ensures r.Success? ==>
      var maskAt := if protocol == Ledenet8Byte then 5 else 6;
      && |r.value| == maskAt + 2
      && r.value[0] == (if persist then 0x31 else 0x41)
      && r.value[maskAt] == (if rgbwProtocol then 0 else writeMask)
      && r.value[maskAt + 1] == 0x0f
      && forall i | 0 < i < maskAt :: r.value[i] == 0
  {
    if protocol == LedenetOriginal then Failure(InvalidOperation)
    else
      var (len, maskAt) := ColorSetLayout(protocol);
      Success(seq(len, i requires 0 <= i < len =>
        if i == 0 then (if persist then 0x31 else 0x41)
        else if i == maskAt && !rgbwProtocol then writeMask
        else if i == maskAt + 1 then 0x0f
        else 0))
  }

  /** The message `SetRGB` sends: `56 r g b aa` on the original protocol,
      the colour-only frame with the channels at 1-3 otherwise. */
  function RgbMessage(protocol: Protocol, rgbwProtocol: bool, persist: bool, color: Rgb): (r: Bytes)
    ensures protocol == LedenetOriginal ==> r == [0x56, color.r, color.g, color.b, 0xaa]
    ensures protocol != LedenetOriginal ==>
      var frame := ColorSetMessage(protocol, rgbwProtocol, persist, ColorOnlyWriteMask).value;
      && |r| == |frame| && r[1..4] == [color.r, color.g, color.b]
      && r[0] == frame[0] && r[4..] == frame[4..]
  {
    if protocol == LedenetOriginal then [0x56, color.r, color.g, color.b, 0xaa]
    else
      ColorSetMessage(protocol, rgbwProtocol, persist, ColorOnlyWriteMask).value
        [1 := color.r][2 := color.g][3 := color.b]
  }

  /** The message `SetWhite` sends; the original protocol has none. */
  function WhiteMessage(protocol: Protocol, rgbwProtocol: bool, persist: bool, white: White)
    : (r: Result<Bytes>)
    ensures r.Failure? <==> protocol == LedenetOriginal
    ensures r.Failure? ==> r.error == InvalidOperation
    ensures r.Success? ==>
      var frame := ColorSetMessage(protocol, rgbwProtocol, persist, WhiteOnlyWriteMask).value;
      && |r.value| == |frame| && r.value[0] == frame[0]
      && r.value[1..5] == [0, 0, 0, white.warm]
      && (protocol == Ledenet9Byte ==> r.value[5] == white.cold)
      && r.value[|frame| - 2..] == frame[|frame| - 2..]
  {
    var frame :- ColorSetMessage(protocol, rgbwProtocol, persist, WhiteOnlyWriteMask);
    var msg := frame[1 := 0][2 := 0][3 := 0][4 := white.warm];
    Success(if protocol == Ledenet9Byte then msg[5 := white.cold] else msg)
  }

  /** The message `SetRGBW` sends; it needs a device that takes colour and
      white in one write. */
  function RgbwMessage(protocol: Protocol, rgbwProtocol: bool, persist: bool, color: Rgb, white: White)
    : (r: Result<Bytes>)
    ensures r.Failure? <==> protocol == LedenetOriginal || !rgbwProtocol
    ensures r.Failure? ==> r.error == InvalidOperation
    ensures r.Success? ==>
      var frame := ColorSetMessage(protocol, rgbwProtocol, persist, ColorAndWhiteWriteMask).value;
      && |r.value| == |frame| && r.value[0] == frame[0]
      && r.value[1..5] == [color.r, color.g, color.b, white.warm]
      && (protocol == Ledenet9Byte ==> r.value[5] == white.cold)
      && r.value[|frame| - 2..] == frame[|frame| - 2..]
  {
    if protocol == LedenetOriginal || !rgbwProtocol then Failure(InvalidOperation)
    else
      var frame := ColorSetMessage(protocol, rgbwProtocol, persist, ColorAndWhiteWriteMask).value;
      var msg := frame[1 := color.r][2 := color.g][3 := color.b][4 := white.warm];
      Success(if protocol == Ledenet9Byte then msg[5 := white.cold] else msg)
  }

  // --------------------------------------------------- clock and patterns

  /** The message `SetClock` sends: `10 14`, the date and time with the year
      as an offset from 2000, the ISO weekday (Sunday = 7), `00 0f`. */
  function ClockMessage(d: Date): (r: Bytes)
    ensures |r| == 11
    ensures r[..2] == [0x10, 0x14] && r[9..] == [0x00, 0x0f]
    ensures 2000 <= d.year <= 2255 ==> r[2] as int == d.year - 2000
    ensures r[3..8] == [d.month, d.day, d.hour, d.minute, d.second]
    ensures 1 <= r[8] <= 7 && r[8] % 7 == DayOfWeek(d)
  {
    [0x10, 0x14, (d.year - 2000) % 256, d.month, d.day, d.hour, d.minute, d.second,
     IsoWeekday(d), 0x00, 0x0f]
  }

  /** The clock a `GetClock` reply carries in bytes 3-8. */
  function ClockFromReply(reply: Bytes): (r: Result<Date>)
    ensures r.Failure? <==> |reply| < 9 || !Valid(DateTime(2000 + reply[3] as int, reply[4], reply[5], reply[6], reply[7], reply[8]))
    ensures r.Success? ==> r.value == DateTime(2000 + reply[3] as int, reply[4], reply[5], reply[6], reply[7], reply[8])
  {
    if |reply| < 9 then Failure(IndexOutOfRange)
    else
      var d := DateTime(2000 + reply[3] as int, reply[4], reply[5], reply[6], reply[7], reply[8]);
      if Valid(d) then Success(d) else Failure(ArgumentOutOfRange)
  }

  /** The message `SetPresetPattern` sends: `61 pattern delay 0f`. */
  function PresetMessage(pattern: PresetPattern, speed: int): (r: Result<Bytes>)
    ensures r.Failure? <==> speed < 0 || speed > 100
    ensures r.Success? ==>
      && |r.value| == 4 && r.value[0] == 0x61 && r.value[3] == 0x0f
      && IsPresetPatternCode(r.value[1]) && PresetPatternFromCode(r.value[1]) == pattern
      && ConvertSpeedToDelay(speed) == Success(r.value[2])
  {
    var delay :- ConvertSpeedToDelay(speed);
    PresetPatternRoundTrip(pattern);
    Success([0x61, PresetPatternCode(pattern), delay, 0x0f])
  }

  // ------------------------------------------------------------ timer table

  /** Byte strings laid end to end. */
  function Concat(blocks: seq<Bytes>): (r: Bytes)
  {
    if blocks == [] then [] else blocks[0] + Concat(blocks[1..])
  }

  /** Blocks of 14 bytes concatenate to 14 bytes per block. */
  lemma {:induction false} ConcatLength(blocks: seq<Bytes>)
    requires forall j | 0 <= j < |blocks| :: |blocks[j]| == 14
    ensures |Concat(blocks)| == 14 * |blocks|
  {
    if blocks != [] {
      ConcatLength(blocks[1..]);
    }
  }

  /** Block i of 14-byte blocks sits at offsets 14i .. 14i+14. */
  lemma {:induction false} ConcatSlot(blocks: seq<Bytes>, i: nat)
    requires i < |blocks| && forall j | 0 <= j < |blocks| :: |blocks[j]| == 14
    ensures |Concat(blocks)| == 14 * |blocks|
    ensures Concat(blocks)[14 * i .. 14 * i + 14] == blocks[i]
  {
    ConcatLength(blocks);
    ConcatLength(blocks[1..]);
    var rest := Concat(blocks[1..]);
    if i > 0 {
      ConcatSlot(blocks[1..], i - 1);
      assert (blocks[0] + rest)[14 * i .. 14 * i + 14] == rest[14 * (i - 1) .. 14 * (i - 1) + 14];
    }
  }

  /** Concatenating one more block appends it. */
  lemma {:induction false} ConcatPrefix(blocks: seq<Bytes>, k: nat)
    requires k < |blocks|
    ensures Concat(blocks[..k + 1]) == Concat(blocks[..k]) + blocks[k]
    decreases k
  {
    if k > 0 {
      assert blocks[..k + 1][1..] == blocks[1..][..k];
      assert blocks[..k][1..] == blocks[1..][..k - 1];
      ConcatPrefix(blocks[1..], k - 1);
    }
  }

  /** Each timer's `ToBytes`, in list order. */
  function Encodings(timers: seq<LedTimer>): (r: seq<Bytes>)
    ensures |r| == |timers| && forall i | 0 <= i < |timers| :: |r[i]| == 14
  {
    seq(|timers|, i requires 0 <= i < |timers| => Encoding(timers[i]))
  }

  /** The message `SendTimers` sends: `21`, the first six timers' encodings
      in list order, `00 f0`. */
  function TimerTableMessage(timers: seq<LedTimer>): (r: Bytes)
    requires |timers| >= 6
    ensures |r| == 87 && r[0] == 0x21 && r[85..] == [0x00, 0xf0]
  {
    ConcatLength(Encodings(timers[..6]));
    [0x21] + Concat(Encodings(timers[..6])) + [0x00, 0xf0]
  }

  /** Timer i of the list sits at offsets 1+14i .. 15+14i of the table. */
  lemma TimerTableSlot(timers: seq<LedTimer>, i: nat)
    requires |timers| >= 6 && i < 6
    ensures TimerTableMessage(timers)[1 + 14 * i .. 15 + 14 * i] == Encoding(timers[i])
  {
    var blocks := Encodings(timers[..6]);
    var body := Concat(blocks);
    ConcatSlot(blocks, i);
    assert blocks[i] == Encoding(timers[i]);
    assert TimerTableMessage(timers)[1 + 14 * i .. 15 + 14 * i] == body[14 * i .. 14 * i + 14];
  }

  /** The six slots of a timer-table reply: slot i is bytes 2+14i .. 16+14i. */
  function Slot(reply: Bytes, i: nat): (r: Bytes)
    requires 16 + 14 * i <= |reply|
    ensures |r| == 14
  {
    reply[2 + 14 * i .. 16 + 14 * i]
  }

  /** The first `n` slots of a reply decoded in order; the first slot that
      fails to decode fails the whole table. */
  function DecodeSlots(reply: Bytes, n: nat): (r: Result<seq<LedTimer>>)
    requires 2 + 14 * n <= |reply|
    ensures r.Success? ==> |r.value| == n && forall i | 0 <= i < n :: FromBytes(Slot(reply, i)) == Success(r.value[i])
    ensures r.Failure? <==> exists i | 0 <= i < n :: FromBytes(Slot(reply, i)).Failure?
  {
    if n == 0 then Success([])
    else
      var init :- DecodeSlots(reply, n - 1);
      var last :- FromBytes(Slot(reply, n - 1));
      Success(init + [last])
  }

  /** Once slot `i` fails to decode, every longer decode fails with its
      error. */
  lemma {:induction false} DecodeSlotsStops(reply: Bytes, i: nat, n: nat)
    requires i < n && 2 + 14 * n <= |reply|
    requires DecodeSlots(reply, i).Success? && FromBytes(Slot(reply, i)).Failure?
    ensures DecodeSlots(reply, n) == Failure(FromBytes(Slot(reply, i)).error)
    decreases n
  {
    if n > i + 1 {
      DecodeSlotsStops(reply, i, n - 1);
    }
  }
}
