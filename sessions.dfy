/** The session with one bulb (libFluxLED/WifiLedBulb.cs), as values: the
    bulb's fields, the transport, and one function per operation giving the
    operation's result and the session afterwards. The class
    `Bulbs.WifiLedBulb` runs these operations in place and is proved to
    agree with them. */
module Sessions {
  import opened Wrappers
  import opened Enums
  import opened DateTimes
  import opened Utils
  import opened LedTimers
  import opened Messages

  /** What one socket receive delivers: bytes (possibly fewer than asked
      for), or a SocketException (including a time-out). */
  datatype Reply = Data(bytes: Bytes) | SocketFailure

  /** The fields of a `WifiLedBulb` that the session updates. */
  datatype Bulb = Bulb(
    protocol: Protocol,
    useChecksum: bool,
    queryLen: nat,
    rgbwProtocol: bool,
    rgbwCapable: bool,
    mode: LedMode,
    isOn: bool,
    rawState: Option<Bytes>)

  /** The transport: the replies the device will give, in order, and the log
      of messages sent. */
  datatype Link = Link(replies: seq<Reply>, sent: seq<Bytes>)

  datatype Session = Session(bulb: Bulb, link: Link)

  /** An operation's result together with the session after it. */
  datatype Outcome<+T> = Outcome(result: Result<T>, after: Session)

  /** A freshly constructed `WifiLedBulb`. */
  function NewSession(replies: seq<Reply>): (s: Session)
    ensures Consistent(s.bulb) && s.bulb.queryLen == 0 && s.bulb.rawState == None
    ensures s.link == Link(replies, [])
  {
    Session(Bulb(Ledenet8Byte, true, 0, false, false, ModeUnknown, false, None), Link(replies, []))
  }

  /** What every operation preserves: the protocol variant, checksum flag and
      query length are fixed together (the original protocol never uses
      checksums), and a known mode always comes with the state it was read
      from. */
  predicate Consistent(b: Bulb)
  {
    && (b.queryLen == 0 || b.queryLen == 11 || b.queryLen == 14)
    && (b.queryLen == 0 ==> b.protocol == Ledenet8Byte && b.useChecksum)
    && (b.protocol == LedenetOriginal ==> !b.useChecksum)
    && (b.rawState.Some? ==> |b.rawState.value| >= 10)
    && (b.mode != ModeUnknown ==> b.rawState.Some?)
  }

  // -------------------------------------------------------------- transport

  /** `SendMsg`: the framed message joins the log. */
  function Send(s: Session, msg: Bytes): (s': Session)
    ensures s'.bulb == s.bulb && s'.link.replies == s.link.replies
    ensures s'.link.sent == s.link.sent + [Frame(msg, s.bulb.useChecksum)]
  {
    Session(s.bulb, Link(s.link.replies, s.link.sent + [Frame(msg, s.bulb.useChecksum)]))
  }

  /** `ReadMsg(expected)`: the next reply, cut to `expected` bytes; with no
      reply left the receive times out. */
  function Receive(s: Session, expected: nat): (o: Outcome<Bytes>)
    ensures o.after.bulb == s.bulb && o.after.link.sent == s.link.sent
    ensures o.after.link.replies == if s.link.replies == [] then [] else s.link.replies[1..]
    ensures o.result.Failure? <==> s.link.replies == [] || s.link.replies[0].SocketFailure?
    ensures o.result.Failure? ==> o.result.error == SocketError
    ensures o.result.Success? ==>
      var b := s.link.replies[0].bytes;
      o.result.value == if |b| <= expected then b else b[..expected]
  {
    if s.link.replies == [] then Outcome(Failure(SocketError), s)
    else
      var rest := Session(s.bulb, Link(s.link.replies[1..], s.link.sent));
      match s.link.replies[0]
      case SocketFailure => Outcome(Failure(SocketError), rest)
      case Data(b) => Outcome(Success(if |b| <= expected then b else b[..expected]), rest)
  }

  // ---------------------------------------------------- protocol detection

  /** `DetermineQueryLength(retries)`: a 2-byte answer to the new query
      means the 14-byte state reply; an answer to the old query whose second
      byte is 0x01 means the original protocol, without checksums, with an
      11-byte state reply; anything else retries up to `retries` times. */
  function DetermineQueryLength(s: Session, retries: int): (o: Outcome<()>)
    // every round sends at least the new query
    ensures s.link.sent < o.after.link.sent
    // detection throws only on a socket error or after the last round
    ensures o.result.Failure? ==> o.result.error == SocketError || o.result.error == UnknownProtocol
    ensures o.result.Success? ==> o.after.bulb.queryLen == 11 || o.after.bulb.queryLen == 14
    decreases retries
  {
    var o1 := Receive(Send(s, NewQueryMsg), 2);
    if o1.result.Failure? then Outcome(Failure(o1.result.error), o1.after)
    else if |o1.result.value| == 2 then
      Outcome(Success(()), Session(o1.after.bulb.(queryLen := 14), o1.after.link))
    else
      var o2 := Receive(Send(o1.after, OldQueryMsg), 2);
      if o2.result.Failure? then Outcome(Failure(o2.result.error), o2.after)
      else
        var response := o2.result.value;
        if |response| >= 2 && response[1] == 0x01 then
          var b := o2.after.bulb.(protocol := LedenetOriginal, useChecksum := false, queryLen := 11);
          Outcome(Success(()), Session(b, o2.after.link))
        else
          var s' := if |response| >= 2 then Session(o2.after.bulb.(useChecksum := true), o2.after.link)
                    else o2.after;
          if retries > 0 then DetermineQueryLength(s', retries - 1)
          else Outcome(Failure(UnknownProtocol), s')
  }

  // ------------------------------------------------------------ state query

  /** `QueryState(retries)`: detect the protocol if not yet known (a failure
      there propagates), then send the query and read the state reply; a
      socket failure is retried `retries` more times, after which the bulb
      counts as off and no state is returned. */
  function QueryState(s: Session, retries: int): (o: Outcome<Option<Bytes>>)
    ensures s.link.sent < o.after.link.sent
    // only detection can throw; the state query itself gives up quietly
    ensures o.result.Failure? ==>
              s.bulb.queryLen == 0 && (o.result.error == SocketError || o.result.error == UnknownProtocol)
    ensures o.result.Success? ==> o.after.bulb.queryLen != 0
    decreases retries
  {
    var d := if s.bulb.queryLen == 0 then DetermineQueryLength(s, 2) else Outcome(Success(()), s);
    if d.result.Failure? then Outcome(Failure(d.result.error), d.after)
    else
      var s1 := d.after;
      var o := Receive(Send(s1, QueryMessage(s1.bulb.protocol)), s1.bulb.queryLen);
      if o.result.Success? then Outcome(Success(Some(o.result.value)), o.after)
      else if retries < 1 then Outcome(Success(None), Session(o.after.bulb.(isOn := false), o.after.link))
      else QueryState(o.after, retries - 1)
  }

  /** The flags a reply's device-type byte (state[1]) sets; a flag once set
      is never cleared here. */
  function ApplyDeviceType(b: Bulb, deviceType: Byte): (b': Bulb)
    ensures b'.rgbwProtocol <==> b.rgbwProtocol || deviceType in {0x04, 0x33, 0x81}
    ensures b'.rgbwCapable <==> b.rgbwCapable || deviceType in {0x04, 0x25, 0x33, 0x81}
    ensures b'.protocol == if deviceType == 0x01 then LedenetOriginal
                           else if deviceType in {0x25, 0x27, 0x35} then Ledenet9Byte
                           else b.protocol
    ensures b'.useChecksum <==> b.useChecksum && deviceType != 0x01
    ensures b' == b.(rgbwProtocol := b'.rgbwProtocol, rgbwCapable := b'.rgbwCapable,
                     protocol := b'.protocol, useChecksum := b'.useChecksum)
  {
    // devices that take colour and white in one write
    var b1 := if deviceType == 0x04 || deviceType == 0x33 || deviceType == 0x81
              then b.(rgbwProtocol := true) else b;
    // devices that have a white channel
    var b2 := if deviceType == 0x04 || deviceType == 0x25 || deviceType == 0x33 || deviceType == 0x81
              then b1.(rgbwCapable := true) else b1;
    // devices on the 9-byte colour message
    var b3 := if deviceType == 0x25 || deviceType == 0x27 || deviceType == 0x35
              then b2.(protocol := Ledenet9Byte) else b2;
    // the original LEDENET protocol
    if deviceType == 0x01 then b3.(protocol := LedenetOriginal, useChecksum := false) else b3
  }

  /** `UpdateState(retries)`: query, apply the device-type flags, decide the
      mode; an unknown mode re-runs the whole update with one retry fewer,
      and throws once none is left. Power and raw state are written only
      when the mode is known. A missing state (unreachable bulb) is
      dereferenced, and a reply too short for the bytes read throws. */
  function UpdateState(s: Session, retries: int): (o: Outcome<()>)
    ensures s.link.sent < o.after.link.sent
    // a successful update leaves a known mode and the state it came from
    ensures o.result.Success? ==>
              && o.after.bulb.mode != ModeUnknown
              && o.after.bulb.rawState.Some? && |o.after.bulb.rawState.value| >= 10
    ensures o.result.Failure? ==> o.result.error in {SocketError, UnknownProtocol, NullReference, IndexOutOfRange, UnknownMode}
    decreases retries
  {
    var q := QueryState(s, retries);
    if q.result.Failure? then Outcome(Failure(q.result.error), q.after)
    else if q.result.value.None? then Outcome(Failure(NullReference), q.after)
    else
      var state := q.result.value.value;
      if |state| < 2 then Outcome(Failure(IndexOutOfRange), q.after)
      else
        var b1 := ApplyDeviceType(q.after.bulb, state[1]);
        if |state| < 10 then Outcome(Failure(IndexOutOfRange), Session(b1, q.after.link))
        else
          var b2 := b1.(mode := DetermineMode(state[9], state[3], b1.rgbwCapable));
          if b2.mode == ModeUnknown then
            if retries < 1 then Outcome(Failure(UnknownMode), Session(b2, q.after.link))
            else UpdateState(Session(b2, q.after.link), retries - 1)
          else
            var b3 := b2.(isOn := PowerAfter(state[2], b2.isOn), rawState := Some(state));
            Outcome(Success(()), Session(b3, q.after.link))
  }

  // -------------------------------------------------------------- commands

  /** `TurnOn` / `TurnOff`. */
  function TurnOnOff(s: Session, turnOn: bool): (s': Session)
    ensures s'.bulb == s.bulb.(isOn := turnOn)
    ensures s'.link == s.link.(sent := s.link.sent + [Frame(OnOffMessage(s.bulb.protocol, turnOn), s.bulb.useChecksum)])
  {
    var s1 := Send(s, OnOffMessage(s.bulb.protocol, turnOn));
    Session(s1.bulb.(isOn := turnOn), s1.link)
  }

  /** `SetRGB`: send the colour, then refresh the state. */
  function SetRgb(s: Session, color: Rgb, persist: bool): (o: Outcome<()>)
    ensures s.link.sent + [Frame(RgbMessage(s.bulb.protocol, s.bulb.rgbwProtocol, persist, color), s.bulb.useChecksum)]
              <= o.after.link.sent
    ensures o.result.Success? ==> o.after.bulb.mode != ModeUnknown
  {
    UpdateState(Send(s, RgbMessage(s.bulb.protocol, s.bulb.rgbwProtocol, persist, color)), 2)
  }

  /** `SetWhite`: rejected before any I/O on the original protocol. */
  function SetWhite(s: Session, white: White, persist: bool): (o: Outcome<()>)
    ensures s.bulb.protocol == LedenetOriginal ==> o == Outcome(Failure(InvalidOperation), s)
  {
    match WhiteMessage(s.bulb.protocol, s.bulb.rgbwProtocol, persist, white)
    case Failure(e) => Outcome(Failure(e), s)
    case Success(msg) => UpdateState(Send(s, msg), 2)
  }

  /** `SetRGBW`: rejected before any I/O on the original protocol and on a
      device that needs a write mask. */
  function SetRgbw(s: Session, color: Rgb, white: White, persist: bool): (o: Outcome<()>)
    ensures s.bulb.protocol == LedenetOriginal || !s.bulb.rgbwProtocol ==>
              o == Outcome(Failure(InvalidOperation), s)
  {
    match RgbwMessage(s.bulb.protocol, s.bulb.rgbwProtocol, persist, color, white)
    case Failure(e) => Outcome(Failure(e), s)
    case Success(msg) => UpdateState(Send(s, msg), 2)
  }

  /** `GetClock`: the clock query, then a 12-byte read. */
  function GetClock(s: Session): (o: Outcome<Date>)
    ensures o.after.bulb == s.bulb
    ensures o.after.link.sent == s.link.sent + [Frame(GetClockMsg, s.bulb.useChecksum)]
    ensures s.link.replies == [] || s.link.replies[0].SocketFailure? ==> o.result == Failure(SocketError)
    // the reply, cut to 12 bytes, is decoded as a date
    ensures s.link.replies != [] && s.link.replies[0].Data? ==>
              var b := s.link.replies[0].bytes;
              o.result == ClockFromReply(if |b| <= 12 then b else b[..12])
  {
    var o := Receive(Send(s, GetClockMsg), 12);
    match o.result
    case Failure(e) => Outcome(Failure(e), o.after)
    case Success(reply) => Outcome(ClockFromReply(reply), o.after)
  }

  /** `SetClock`. */
  function SetClock(s: Session, d: Date): (s': Session)
    ensures s'.bulb == s.bulb && s'.link.replies == s.link.replies
    ensures s'.link.sent == s.link.sent + [Frame(ClockMessage(d), s.bulb.useChecksum)]
  {
    Send(s, ClockMessage(d))
  }

  /** `SetPresetPattern`: a speed outside 0-100 throws before anything is
      sent. */
  function SetPresetPattern(s: Session, pattern: PresetPattern, speed: int): (o: Outcome<()>)
    ensures speed < 0 || speed > 100 ==> o == Outcome(Failure(ArgumentOutOfRange), s)
  {
    match PresetMessage(pattern, speed)
    case Failure(e) => Outcome(Failure(e), s)
    case Success(msg) => UpdateState(Send(s, msg), 2)
  }

  // ------------------------------------------------------------ timer table

  /** `GetTimers`: read the 88-byte table and decode its six slots. */
  function GetTimers(s: Session): (o: Outcome<seq<LedTimer>>)
    ensures o.after.bulb == s.bulb
    ensures o.after.link.sent == s.link.sent + [Frame(GetTimersMsg, s.bulb.useChecksum)]
    ensures o.result.Success? ==> |o.result.value| == 6
    ensures o.result.Success? ==>
      && s.link.replies != [] && s.link.replies[0].Data? && |s.link.replies[0].bytes| >= 88
      && forall i | 0 <= i < 6 :: FromBytes(Slot(s.link.replies[0].bytes, i)) == Success(o.result.value[i])
    ensures s.link.replies == [] || s.link.replies[0].SocketFailure? ==> o.result == Failure(SocketError)
    ensures s.link.replies != [] && s.link.replies[0].Data? ==>
              var b := s.link.replies[0].bytes;
              o.result == if |b| < 88 then Failure(ResponseTooShort) else DecodeSlots(b[..88], 6)
  {
    var o := Receive(Send(s, GetTimersMsg), 88);
    if o.result.Failure? then Outcome(Failure(o.result.error), o.after)
    else if |o.result.value| < 88 then Outcome(Failure(ResponseTooShort), o.after)
    else
      var reply := o.result.value;
      assert reply == s.link.replies[0].bytes[..88];
      assert forall i | 0 <= i < 6 :: Slot(reply, i) == Slot(s.link.replies[0].bytes, i);
      Outcome(DecodeSlots(reply, 6), o.after)
  }

  /** How many of `timers` are active. */
  function CountActive(timers: seq<LedTimer>): (n: nat)
    ensures n <= |timers|
    ensures n == 0 <==> forall i | 0 <= i < |timers| :: !timers[i].isActive
    ensures n == |timers| <==> forall i | 0 <= i < |timers| :: timers[i].isActive
  {
    if timers == [] then 0
    else CountActive(timers[..|timers| - 1]) + (if timers[|timers| - 1].isActive then 1 else 0)
  }

  /** The caller's list after `SendTimers` appended TurnOff timers to it
      until it holds six. */
  function PadTimers(timers: seq<LedTimer>): (r: seq<LedTimer>)
    decreases 6 - |timers|
    ensures |r| == if |timers| < 6 then 6 else |timers|
    ensures r[..|timers|] == timers
    ensures forall i | |timers| <= i < |r| :: r[i] == NewTurnOffTimer()
  {
    if |timers| < 6 then PadTimers(timers + [NewTurnOffTimer()]) else timers
  }

  /** `SendTimers`: more than six active timers throw before any I/O;
      otherwise the caller's list is padded, its first six entries are sent
      in list order, and two acknowledgements are read. Returns the outcome
      and the caller's list afterwards. */
  function SendTimers(s: Session, timers: seq<LedTimer>): (r: (Outcome<()>, seq<LedTimer>))
    ensures CountActive(timers) > 6 ==> r == (Outcome(Failure(ArgumentError), s), timers)
    ensures CountActive(timers) <= 6 ==>
      && r.1 == PadTimers(timers)
      && r.0.after.bulb == s.bulb
      && r.0.after.link.sent == s.link.sent + [Frame(TimerTableMessage(PadTimers(timers)), s.bulb.useChecksum)]
  {
    if CountActive(timers) > 6 then (Outcome(Failure(ArgumentError), s), timers)
    else
      var padded := PadTimers(timers);
      var ack1 := Receive(Send(s, TimerTableMessage(padded)), 1);
      if ack1.result.Failure? then (Outcome(Failure(ack1.result.error), ack1.after), padded)
      else
        var ack2 := Receive(ack1.after, 3);
        if ack2.result.Failure? then (Outcome(Failure(ack2.result.error), ack2.after), padded)
        else (Outcome(Success(()), ack2.after), padded)
  }

  // ------------------------------------------------------------ read-outs

  /** The integer part of `GetWhiteColor`: (255, 255) unless in colour mode,
      else the warm and cold bytes 9 and 10 of the last state. */
  function WhiteColor(b: Bulb): (r: Result<White>)
    requires Consistent(b)
    ensures b.mode != ModeColor ==> r == Success(White(255, 255))
    ensures b.mode == ModeColor ==>
      var raw := b.rawState.value;
      (r.Success? <==> |raw| >= 11) && (r.Success? ==> r.value == White(raw[9], raw[10]))
  {
    if b.mode != ModeColor then Success(White(255, 255))
    else
      var raw := b.rawState.value;
      if |raw| < 11 then Failure(IndexOutOfRange) else Success(White(raw[9], raw[10]))
  }

  /** The warm-white branch of `Brightness`: byte 9 of the last state. */
  function WarmWhiteBrightness(b: Bulb): (r: Option<Byte>)
    requires Consistent(b)
    ensures r.Some? <==> b.mode == ModeWarmWhite
    ensures r.Some? ==> r.value == b.rawState.value[9]
  {
    if b.mode == ModeWarmWhite then Some(b.rawState.value[9]) else None
  }
}
