/** The code tables of the driver (libFluxLED/Enums.cs): the two built-in
    sunrise/sunset programs and the twenty preset colour patterns, each
    identified on the wire by one byte. */
module Enums {
  import opened Wrappers

  datatype BuiltInTimer = Sunrise | Sunset

  function BuiltInTimerCode(t: BuiltInTimer): (b: Byte)
    ensures b == 0xA1 || b == 0xA2
  {
    match t
    case Sunrise => 0xA1
    case Sunset => 0xA2
  }

  /** `Enum.IsDefined(typeof(BuiltInTimer), b)`. */
  predicate IsBuiltInTimerCode(b: Byte)
  {
    b == 0xA1 || b == 0xA2
  }

  /** The cast `(BuiltInTimer)b` of a defined code. */
  function BuiltInTimerFromCode(b: Byte): (t: BuiltInTimer)
    requires IsBuiltInTimerCode(b)
    ensures BuiltInTimerCode(t) == b
  {
    if b == 0xA1 then Sunrise else Sunset
  }

  datatype PresetPattern =
    | SevenColorCrossFade
    | RedGradualChange
    | GreenGradualChange
    | BlueGradualChange
    | YellowGradualChange
    | CyanGradualChange
    | PurpleGradualChange
    | WhiteGradualChange
    | RedGreenCrossFade
    | RedBlueCrossFade
    | GreenBlueCrossFade
    | SevenColorStrobeFlash
    | RedStrobeFlash
    | GreenStrobeFlash
    | BlueStrobeFlash
    | YellowStrobeFlash
    | CyanStrobeFlash
    | PurpleStrobeFlash
    | WhiteStrobeFlash
    | SevenColorJumping

  /** The wire code of a preset pattern. */
  function PresetPatternCode(p: PresetPattern): Byte
  {
    match p
    case SevenColorCrossFade => 0x25
    case RedGradualChange => 0x26
    case GreenGradualChange => 0x27
    case BlueGradualChange => 0x28
    case YellowGradualChange => 0x29
    case CyanGradualChange => 0x2a
    case PurpleGradualChange => 0x2b
    case WhiteGradualChange => 0x2c
    case RedGreenCrossFade => 0x2d
    case RedBlueCrossFade => 0x2e
    case GreenBlueCrossFade => 0x2f
    case SevenColorStrobeFlash => 0x30
    case RedStrobeFlash => 0x31
    case GreenStrobeFlash => 0x32
    case BlueStrobeFlash => 0x33
    case YellowStrobeFlash => 0x34
    case CyanStrobeFlash => 0x35
    case PurpleStrobeFlash => 0x36
    case WhiteStrobeFlash => 0x37
    case SevenColorJumping => 0x38
  }

  /** `Enum.IsDefined(typeof(PresetPattern), b)`, which for these codes is a
      range check; no code collides with the other pattern bytes the driver
      dispatches on. */
  predicate IsPresetPatternCode(b: Byte)
    ensures IsPresetPatternCode(b) ==> b !in {0x00, 0x41, 0x60, 0x61, 0x62, 0xA1, 0xA2}
  {
    0x25 <= b <= 0x38
  }

  /** The cast `(PresetPattern)b` of a defined code. */
  function PresetPatternFromCode(b: Byte): (p: PresetPattern)
    requires IsPresetPatternCode(b)
    ensures PresetPatternCode(p) == b
  {
    if b == 0x25 then SevenColorCrossFade
    else if b == 0x26 then RedGradualChange
    else if b == 0x27 then GreenGradualChange
    else if b == 0x28 then BlueGradualChange
    else if b == 0x29 then YellowGradualChange
    else if b == 0x2a then CyanGradualChange
    else if b == 0x2b then PurpleGradualChange
    else if b == 0x2c then WhiteGradualChange
    else if b == 0x2d then RedGreenCrossFade
    else if b == 0x2e then RedBlueCrossFade
    else if b == 0x2f then GreenBlueCrossFade
    else if b == 0x30 then SevenColorStrobeFlash
    else if b == 0x31 then RedStrobeFlash
    else if b == 0x32 then GreenStrobeFlash
    else if b == 0x33 then BlueStrobeFlash
    else if b == 0x34 then YellowStrobeFlash
    else if b == 0x35 then CyanStrobeFlash
    else if b == 0x36 then PurpleStrobeFlash
    else if b == 0x37 then WhiteStrobeFlash
    else SevenColorJumping
  }

  /** Casting a pattern to its byte and back gives the same pattern. */
  lemma {:induction false} PresetPatternRoundTrip(p: PresetPattern)
    ensures IsPresetPatternCode(PresetPatternCode(p))
    ensures PresetPatternFromCode(PresetPatternCode(p)) == p
  {
    match p
    case SevenColorCrossFade =>
    case RedGradualChange =>
    case GreenGradualChange =>
    case BlueGradualChange =>
    case YellowGradualChange =>
    case CyanGradualChange =>
    case PurpleGradualChange =>
    case WhiteGradualChange =>
    case RedGreenCrossFade =>
    case RedBlueCrossFade =>
    case GreenBlueCrossFade =>
    case SevenColorStrobeFlash =>
    case RedStrobeFlash =>
    case GreenStrobeFlash =>
    case BlueStrobeFlash =>
    case YellowStrobeFlash =>
    case CyanStrobeFlash =>
    case PurpleStrobeFlash =>
    case WhiteStrobeFlash =>
    case SevenColorJumping =>
  }

  /** The defined preset codes are exactly the twenty bytes 0x25..0x38. */
  lemma PresetPatternCodes(b: Byte)
    ensures IsPresetPatternCode(b) <==> exists p :: PresetPatternCode(p) == b
  {
    if IsPresetPatternCode(b) {
      assert PresetPatternCode(PresetPatternFromCode(b)) == b;
    }
    forall p | PresetPatternCode(p) == b
      ensures IsPresetPatternCode(b)
    {
      PresetPatternRoundTrip(p);
    }
  }

  /** Distinct patterns have distinct codes. */
  lemma PresetPatternCodeInjective(p: PresetPattern, q: PresetPattern)
    ensures PresetPatternCode(p) == PresetPatternCode(q) ==> p == q
  {
    PresetPatternRoundTrip(p);
    PresetPatternRoundTrip(q);
  }
}
