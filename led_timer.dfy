/** One slot of the bulb's six-slot timer table (libFluxLED/LedTimer.cs).
    The C# class hierarchy (LedTimer and its five subclasses) becomes one
    record whose `kind` field is the subclass, carrying that subclass's
    stored fields as raw bytes. */
module LedTimers {
  import opened Wrappers
  import opened Enums
  import opened DateTimes
  import opened Utils

  /** The `Days` repeat mask: one bit per weekday, Monday = 0x02 ... Sunday = 0x80. */
  const DaysNone: Byte := 0x00
  const Monday: Byte := 0x02
  const Tuesday: Byte := 0x04
  const Wednesday: Byte := 0x08
  const Thursday: Byte := 0x10
  const Friday: Byte := 0x20
  const Saturday: Byte := 0x40
  const Sunday: Byte := 0x80
  const Everyday: Byte := 0xFE
  const Weekdays: Byte := 0x3E
  const Weekend: Byte := 0xC0

  /** A colour as the byte triple `RGBColor.AsBytes` yields. */
  datatype Rgb = Rgb(r: Byte, g: Byte, b: Byte)

  /** Which class a timer is, with the fields that class stores. */
  datatype TimerKind =
    | Plain                                    // the base class LedTimer
    | Color(color: Rgb)                        // ColorLedTimer
    | BuiltIn(program: BuiltInTimer, duration: Byte,
              brightnessStart: Byte, brightnessEnd: Byte)   // BuiltinTimerLedTimer
    | Preset(pattern: PresetPattern, delay: Byte)           // PresetPatternLedTimer
    | WarmWhite(warmthLevel: Byte)             // WarmWhiteLedTimer
    | TurnOff                                  // TurnOffLedTimer

  datatype LedTimer = LedTimer(isActive: bool, repeatDays: Byte, schedule: Date, kind: TimerKind)

  // ---------------------------------------------------------------- decoding

  /** The schedule bytes 1-5 of a slot denote, seconds zero. */
  function SlotSchedule(bytes: Bytes): DateTime
    requires |bytes| >= 14
  {
    DateTime(2000 + bytes[1] as int, bytes[2], bytes[3], bytes[4], bytes[5], 0)
  }

  /** The pattern codes `FromBytes` dispatches on before looking at the
      warm-white byte. */
  predicate IsDispatchedCode(code: Byte)
  {
    code == 0x00 || code == 0x61 || IsBuiltInTimerCode(code) || IsPresetPatternCode(code)
  }

  /** The `LedTimer(byte[])` constructor, which every subclass runs first. */
  function DecodeHeader(bytes: Bytes, kind: TimerKind): (r: Result<LedTimer>)
    requires |bytes| >= 14
    // the `DateTime` constructor is the only thing that can throw
    ensures r.Success? <==> Valid(SlotSchedule(bytes))
    ensures r.Failure? ==> r.error == ArgumentOutOfRange
    ensures r.Success? ==> && r.value.isActive == (bytes[0] == 0xf0)
                           && r.value.repeatDays == bytes[7]
                           && r.value.schedule == SlotSchedule(bytes)
                           && r.value.kind == kind
  {
    var schedule := SlotSchedule(bytes);
    if !Valid(schedule) then Failure(ArgumentOutOfRange)
    else Success(LedTimer(bytes[0] == 0xf0, bytes[7], schedule, kind))
  }

  /** `LedTimer.FromBytes`: the terminator byte 13 is looked at first, then
      the pattern code at byte 8, then the warm-white byte 12. */
  function FromBytes(bytes: Bytes): (r: Result<LedTimer>)
    requires |bytes| >= 14
    // the header every kind shares
    ensures r.Success? ==> && r.value.isActive == (bytes[0] == 0xf0)
                           && r.value.repeatDays == bytes[7]
                           && r.value.schedule == SlotSchedule(bytes)
    // an unrecognised layout is rejected before the schedule is looked at
    ensures r == Failure(UnrecognizedTimer) <==>
              bytes[13] != 0x0f && !IsDispatchedCode(bytes[8]) && bytes[12] == 0
    ensures r.Failure? && r.error != UnrecognizedTimer ==> r.error == ArgumentOutOfRange
    // a recognised slot decodes exactly when its schedule is a date and,
    // for a warm-white slot, its level is a percentage
    ensures r.Success? <==>
              && Valid(SlotSchedule(bytes))
              && (bytes[13] == 0x0f || IsDispatchedCode(bytes[8]) || 1 <= bytes[12] <= 100)
    // the off marker wins over any pattern code
    ensures bytes[13] == 0x0f ==> (r.Success? <==> Valid(SlotSchedule(bytes)))
    ensures r.Success? ==> (r.value.kind.TurnOff? <==> bytes[13] == 0x0f)
    ensures r.Success? && bytes[13] != 0x0f ==>
      match r.value.kind
      case Plain => bytes[8] == 0x00
      case Color(c) => bytes[8] == 0x61 && c == Rgb(bytes[9], bytes[10], bytes[11])
      case BuiltIn(p, d, s, e) =>
        BuiltInTimerCode(p) == bytes[8] && d == bytes[9] && s == bytes[10] && e == bytes[11]
      case Preset(p, d) => PresetPatternCode(p) == bytes[8] && d == bytes[9]
      case WarmWhite(w) =>
        !IsDispatchedCode(bytes[8]) && 0 < bytes[12] <= 100 && ConvertPercentToByte(bytes[12]) == Success(w)
      case TurnOff => false
  {
    if bytes[13] == 0x0f then DecodeHeader(bytes, TurnOff)
    else
      var code := bytes[8];
      if code == 0x00 then DecodeHeader(bytes, Plain)
      else if code == 0x61 then DecodeHeader(bytes, Color(Rgb(bytes[9], bytes[10], bytes[11])))
      else if code == 0xA1 || code == 0xA2 then
        DecodeHeader(bytes, BuiltIn(BuiltInTimerFromCode(code), bytes[9], bytes[10], bytes[11]))
      else if IsPresetPatternCode(code) then
        DecodeHeader(bytes, Preset(PresetPatternFromCode(code), bytes[9]))
      else if bytes[12] != 0 then
        // the base constructor runs before the WarmthLevel setter
        var header :- DecodeHeader(bytes, Plain);
        var level :- ConvertPercentToByte(bytes[12]);
        Success(header.(kind := WarmWhite(level)))
      else Failure(UnrecognizedTimer)
  }

  // ---------------------------------------------------------------- encoding

  /** The bytes of a one-off schedule: year offset (wrapped to a byte, as
      the C# cast does), month, day, hour, minute. */
  function ScheduleBytes(d: Date): (r: Bytes)
    ensures |r| == 5
    ensures 2000 <= d.year <= 2255 ==> r[0] as int + 2000 == d.year
    ensures r[1..] == [d.month, d.day, d.hour, d.minute]
  {
    [(d.year - 2000) % 256, d.month, d.day, d.hour, d.minute]
  }

  /** Base `LedTimer.ToBytes`. A repeating timer keeps only its mask: the
      schedule bytes 1-5, hour and minute included, stay zero. */
  function HeaderEncoding(t: LedTimer): (r: Bytes)
    ensures |r| == 14
  {
    var when := if t.repeatDays == DaysNone then ScheduleBytes(t.schedule) else [0, 0, 0, 0, 0];
    [if t.isActive then 0xf0 else 0x0f] + when + [0, t.repeatDays, 0, 0, 0, 0, 0, 0xf0]
  }

  /** The byte offsets a subclass's `ToBytes` override writes. */
  predicate IsKindOffset(kind: TimerKind, i: int)
  {
    match kind
    case Plain => false
    case Color(_) => 9 <= i <= 11
    case BuiltIn(_, _, _, _) => 8 <= i <= 11
    case Preset(_, _) => 8 <= i <= 9
    case WarmWhite(_) => i == 12
    case TurnOff => i == 13
  }

  /** `ToBytes` of each class: the base encoding patched by the override. */
  function Encoding(t: LedTimer): (r: Bytes)
    ensures |r| == 14
    // the active flag, the repeat mask and the terminator every class writes
    ensures r[0] == (if t.isActive then 0xf0 else 0x0f) && r[7] == t.repeatDays
    ensures r[13] == if t.kind.TurnOff? then 0x0f else 0xf0
  {
    var h := HeaderEncoding(t);
    match t.kind
    case Plain => h
    case Color(c) => h[9 := c.r][10 := c.g][11 := c.b]
    case BuiltIn(p, d, s, e) => h[8 := BuiltInTimerCode(p)][9 := d][10 := s][11 := e]
    case Preset(p, d) => h[8 := PresetPatternCode(p)][9 := d]
    case WarmWhite(w) => h[12 := w]
    case TurnOff => h[13 := 0x0f]
  }

  /** The layout of a timer's 14 bytes: active flag, schedule (zero for a
      repeating timer), repeat mask, the kind's payload at 8-12 and the
      terminator; the offsets a kind does not override keep the base
      bytes. */
  lemma EncodingLayout(t: LedTimer)
    ensures var r := Encoding(t);
      && r[0] == (if t.isActive then 0xf0 else 0x0f)
      && (t.repeatDays == DaysNone ==> r[1..6] == ScheduleBytes(t.schedule))
      && (t.repeatDays != DaysNone ==> r[1..6] == [0, 0, 0, 0, 0])
      && r[6] == 0 && r[7] == t.repeatDays
      && r[13] == (if t.kind.TurnOff? then 0x0f else 0xf0)
      && (forall i | 0 <= i < 14 && !IsKindOffset(t.kind, i) :: r[i] == HeaderEncoding(t)[i])
      && match t.kind
         case Plain => true
         case Color(c) => r[8] == 0 && r[9..12] == [c.r, c.g, c.b]
         case BuiltIn(p, d, s, e) => r[8..12] == [BuiltInTimerCode(p), d, s, e]
         case Preset(p, d) => r[8..10] == [PresetPatternCode(p), d]
         case WarmWhite(w) => r[8] == 0 && r[12] == w
         case TurnOff => r[8] == 0
  {
  }

  /** Base `LedTimer.ToBytes`: a fresh zeroed 14-byte array, filled in. */
  method HeaderToBytes(t: LedTimer) returns (bytes: array<Byte>)
    ensures fresh(bytes) && bytes[..] == HeaderEncoding(t)
  {
    bytes := new Byte[14](_ => 0);
    if t.isActive {
      bytes[0] := 0xf0;
    } else {
      bytes[0] := 0x0f;
    }
    if t.repeatDays == DaysNone {
      bytes[1] := (t.schedule.year - 2000) % 256;
      bytes[2] := t.schedule.month;
      bytes[3] := t.schedule.day;
      bytes[4] := t.schedule.hour;
      bytes[5] := t.schedule.minute;
    } else {
      bytes[7] := t.repeatDays;
    }
    bytes[13] := 0xf0;
  }

  /** `ToBytes` with each subclass's override applied to the base bytes. */
  method ToBytes(t: LedTimer) returns (bytes: array<Byte>)
    ensures fresh(bytes) && bytes[..] == Encoding(t)
  {
    bytes := HeaderToBytes(t);
    match t.kind {
      case Plain =>
      case Color(c) =>
        bytes[9] := c.r;
        bytes[10] := c.g;
        bytes[11] := c.b;
      case BuiltIn(p, d, s, e) =>
        bytes[8] := BuiltInTimerCode(p);
        bytes[9] := d;
        bytes[10] := s;
        bytes[11] := e;
      case Preset(p, d) =>
        bytes[8] := PresetPatternCode(p);
        bytes[9] := d;
      case WarmWhite(w) =>
        bytes[12] := w;
      case TurnOff =>
        bytes[13] := 0x0f;
    }
  }

  // ------------------------------------------------- constructors and views

  /** The protected `LedTimer()` constructor as each subclass's default
      constructor runs it: inactive, `default(DateTime)`, no repeat. */
  function NewTimer(kind: TimerKind): (t: LedTimer)
    ensures !t.isActive && t.repeatDays == DaysNone && t.schedule == MinValue && t.kind == kind
  {
    LedTimer(false, DaysNone, MinValue, kind)
  }

  /** `new ColorLedTimer(color)`. */
  function NewColorTimer(color: Rgb): (t: LedTimer)
    ensures !t.isActive && t.kind == Color(color)
  {
    NewTimer(Color(color))
  }

  /** `new BuiltinTimerLedTimer()`: a sunrise with zero duration and brightness. */
  function NewBuiltinTimer(): (t: LedTimer)
    ensures !t.isActive && t.kind.BuiltIn? && t.kind.program == Sunrise
    ensures BrightnessStart(t) == 0 && BrightnessEnd(t) == 0
  {
    NewTimer(BuiltIn(Sunrise, 0, 0, 0))
  }

  /** `new PresetPatternLedTimer()`: the seven-colour cross fade at speed 30,
      stored as delay byte 22. */
  function NewPresetTimer(): (t: LedTimer)
    ensures !t.isActive && t.kind == Preset(SevenColorCrossFade, 22)
    ensures Speed(t) == Success(30)
  {
    NewTimer(Preset(SevenColorCrossFade, ConvertSpeedToDelay(30).value))
  }

  /** `new WarmWhiteLedTimer()`: warmth 50 percent, stored as byte 127. */
  function NewWarmWhiteTimer(): (t: LedTimer)
    ensures !t.isActive && t.kind == WarmWhite(127)
    ensures WarmthLevel(t) == 49
  {
    NewTimer(WarmWhite(ConvertPercentToByte(50).value))
  }

  /** `new TurnOffLedTimer()`. */
  function NewTurnOffTimer(): (t: LedTimer)
    ensures !t.isActive && t.schedule == MinValue && t.kind == TurnOff
    ensures Encoding(t) == [0x0f, 49, 1, 1, 0, 0, 0, 0, 0, 0, 0, 0, 0, 0x0f]
  {
    NewTimer(TurnOff)
  }

  /** The `Speed` getter of a preset timer: fails for a delay outside 1-31,
      which only a decoded slot can hold. */
  function Speed(t: LedTimer): (r: Result<int>)
    requires t.kind.Preset?
    ensures r.Success? <==> 1 <= t.kind.delay <= 31
    ensures r.Success? ==> 0 <= r.value <= 100
  {
    ConvertDelayToSpeed(t.kind.delay)
  }

  /** The `Speed` setter: stores the delay byte; reading it back gives the
      speed set or up to three points more. */
  function SetSpeed(t: LedTimer, speed: int): (r: Result<LedTimer>)
    requires t.kind.Preset?
    ensures r.Success? <==> 0 <= speed <= 100
    ensures r.Success? ==> r.value.kind.Preset? && r.value == t.(kind := r.value.kind)
    ensures r.Success? ==> r.value.kind.pattern == t.kind.pattern && 1 <= r.value.kind.delay <= 31
    ensures r.Success? ==> Speed(r.value).Success? && speed <= Speed(r.value).value <= speed + 3
  {
    var delay :- ConvertSpeedToDelay(speed);
    SpeedRoundTrip(speed);
    Success(t.(kind := t.kind.(delay := delay)))
  }

  /** The `BrightnessStart` getter of a built-in timer, in percent. */
  function BrightnessStart(t: LedTimer): (p: int)
    requires t.kind.BuiltIn?
    ensures 0 <= p <= 100
  {
    ConvertByteToPercent(t.kind.brightnessStart)
  }

  /** The `BrightnessEnd` getter of a built-in timer, in percent. */
  function BrightnessEnd(t: LedTimer): (p: int)
    requires t.kind.BuiltIn?
    ensures 0 <= p <= 100
  {
    ConvertByteToPercent(t.kind.brightnessEnd)
  }

  /** The `BrightnessStart` setter. */
  function SetBrightnessStart(t: LedTimer, percent: int): (r: Result<LedTimer>)
    requires t.kind.BuiltIn?
    ensures r.Success? <==> 0 <= percent <= 100
    ensures r.Success? ==> r.value.kind.BuiltIn? && r.value.kind == t.kind.(brightnessStart := r.value.kind.brightnessStart)
    ensures r.Success? ==> r.value == t.(kind := r.value.kind)
    ensures r.Success? ==> BrightnessStart(r.value) in {percent - 1, percent}
  {
    var level :- ConvertPercentToByte(percent);
    PercentRoundTrip(percent);
    Success(t.(kind := t.kind.(brightnessStart := level)))
  }

  /** The `BrightnessEnd` setter. */
  function SetBrightnessEnd(t: LedTimer, percent: int): (r: Result<LedTimer>)
    requires t.kind.BuiltIn?
    ensures r.Success? <==> 0 <= percent <= 100
    ensures r.Success? ==> r.value.kind.BuiltIn? && r.value.kind == t.kind.(brightnessEnd := r.value.kind.brightnessEnd)
    ensures r.Success? ==> r.value == t.(kind := r.value.kind)
    ensures r.Success? ==> BrightnessEnd(r.value) in {percent - 1, percent}
  {
    var level :- ConvertPercentToByte(percent);
    PercentRoundTrip(percent);
    Success(t.(kind := t.kind.(brightnessEnd := level)))
  }

  /** The `WarmthLevel` getter of a warm-white timer, in percent. */
  function WarmthLevel(t: LedTimer): (p: int)
    requires t.kind.WarmWhite?
    ensures 0 <= p <= 100
  {
    ConvertByteToPercent(t.kind.warmthLevel)
  }

  /** The `WarmthLevel` setter. */
  function SetWarmthLevel(t: LedTimer, percent: int): (r: Result<LedTimer>)
    requires t.kind.WarmWhite?
    ensures r.Success? <==> 0 <= percent <= 100
    ensures r.Success? ==> r.value.kind.WarmWhite? && r.value == t.(kind := r.value.kind)
    ensures r.Success? ==> WarmthLevel(r.value) in {percent - 1, percent}
  {
    var level :- ConvertPercentToByte(percent);
    PercentRoundTrip(percent);
    Success(t.(kind := WarmWhite(level)))
  }

  // ------------------------------------------------------------ round trips

  /** The kind a decoded encoding has: Color and WarmWhite never write the
      pattern byte, so their encodings read back as the base class. */
  function DecodedKind(kind: TimerKind): TimerKind
  {
    match kind
    case Color(_) => Plain
    case WarmWhite(_) => Plain
    case _ => kind
  }

  /** A one-off timer in years 2000-2255 decodes from its encoding with its
      active flag, its schedule to the minute, and (except for Color and
      WarmWhite, which read back as the base class) its kind and payload. */
  lemma RoundTrip(t: LedTimer)
    requires t.repeatDays == DaysNone
    requires 2000 <= t.schedule.year <= 2255
    ensures FromBytes(Encoding(t)).Success?
    ensures FromBytes(Encoding(t)).value ==
            t.(schedule := t.schedule.(second := 0), kind := DecodedKind(t.kind))
  {
    var bytes := Encoding(t);
    EncodingLayout(t);
    assert SlotSchedule(bytes) == t.schedule.(second := 0);
    match t.kind
    case BuiltIn(p, _, _, _) =>
      assert BuiltInTimerFromCode(bytes[8]) == p;
    case Preset(p, _) =>
      PresetPatternRoundTrip(p);
    case _ =>
  }

  /** A repeating timer does not survive the trip: its encoding carries
      month 0 and day 0, which the DateTime constructor rejects. */
  lemma RepeatingTimerDoesNotDecode(t: LedTimer)
    requires t.repeatDays != DaysNone
    ensures FromBytes(Encoding(t)) == Failure(ArgumentOutOfRange)
  {
    var bytes := Encoding(t);
    EncodingLayout(t);
    assert bytes[2] == 0;
    match t.kind
    case Preset(p, _) =>
      PresetPatternRoundTrip(p);
    case _ =>
  }

  /** A slot that decodes as warm white holds its byte 12 run through the
      percent setter: values above 100 fail, and a value p <= 100 is stored
      as p*255/100, which re-encodes as a different byte. */
  lemma WarmWhiteDecodeRescales(bytes: Bytes)
    requires |bytes| >= 14 && bytes[13] != 0x0f
    requires !IsDispatchedCode(bytes[8]) && bytes[12] != 0
    requires Valid(SlotSchedule(bytes))
    ensures bytes[12] > 100 ==> FromBytes(bytes) == Failure(ArgumentOutOfRange)
    ensures bytes[12] <= 100 ==>
              && FromBytes(bytes).Success?
              && FromBytes(bytes).value.kind.WarmWhite?
              && FromBytes(bytes).value.kind.warmthLevel == bytes[12] as int * 255 / 100
              && Encoding(FromBytes(bytes).value)[12] != bytes[12]
  {
    if bytes[12] <= 100 {
      PercentByteExceedsPercent(bytes[12]);
    }
  }
}
