/** `WifiLedBulb` (libFluxLED/WifiLedBulb.cs) as a class whose fields the
    operations update in place. The socket is replaced by the `replies`
    script and the ghost log `sent`; each operation is proved to do what the
    corresponding function of `Sessions` says. */
module Bulbs {
  import opened Wrappers
  import opened Enums
  import opened DateTimes
  import opened Utils
  import opened LedTimers
  import opened Messages
  import opened Sessions
  import SessionProperties

  /** The caller's `List<LedTimer>`, which `SendTimers` pads in place. */
  class TimerList {
    var timers: seq<LedTimer>

    constructor (timers: seq<LedTimer>)
      ensures this.timers == timers
    {
      this.timers := timers;
    }
  }

  class WifiLedBulb {
    var protocol: Protocol
    var useChecksum: bool
    var queryLen: nat
    var rgbwProtocol: bool
    var rgbwCapable: bool
    var mode: LedMode
    var isOn: bool
    var rawState: Option<Bytes>
    /** What the socket will deliver, in order. */
    var replies: seq<Reply>
    /** Every message put on the wire so far. */
    ghost var sent: seq<Bytes>

    /** The bulb's fields as a value. */
    function State(): Bulb
      reads this
    {
      Bulb(protocol, useChecksum, queryLen, rgbwProtocol, rgbwCapable, mode, isOn, rawState)
    }

    /** The whole session as a value. */
    ghost function Snapshot(): Session
      reads this
    {
      Session(State(), Link(replies, sent))
    }

    /** The invariant every public operation keeps. */
    predicate Valid()
      reads this
    {
      Consistent(State())
    }

    constructor (replies: seq<Reply>)
      ensures Snapshot() == NewSession(replies)
      ensures Valid()
    {
      protocol := Ledenet8Byte;
      useChecksum := true;
      queryLen := 0;
      rgbwProtocol := false;
      rgbwCapable := false;
      mode := ModeUnknown;
      isOn := false;
      rawState := None;
      this.replies := replies;
      sent := [];
    }

    // ------------------------------------------------------------ transport

    /** `SendMsg`: append the checksum when in use, then send. */
    method SendMsg(msg: Bytes)
      modifies this
      ensures Snapshot() == Send(old(Snapshot()), msg)
    {
      var bytes := msg;
      if useChecksum {
        var sum: int := 0;
        for i := 0 to |msg|
          invariant sum == Sum(msg[..i])
        {
          assert msg[..i + 1][..i] == msg[..i];
          sum := sum + msg[i];
        }
        assert msg[..|msg|] == msg;
        bytes := msg + [sum % 256];
      }
      sent := sent + [bytes];
    }

    /** `ReadMsg(expected)`: at most `expected` bytes of the next reply. */
    method ReadMsg(expected: nat) returns (r: Result<Bytes>)
      modifies this
      ensures Outcome(r, Snapshot()) == Receive(old(Snapshot()), expected)
    {
      if replies == [] {
        return Failure(SocketError);
      }
      var reply := replies[0];
      replies := replies[1..];
      match reply {
        case SocketFailure =>
          r := Failure(SocketError);
        case Data(b) =>
          r := Success(if |b| <= expected then b else b[..expected]);
      }
    }

    // --------------------------------------------------- protocol detection

    /** One round of `DetermineQueryLength`: the new-style query, then the
        old-style one. `done` is false when the round left the protocol
        undecided and a retry is left. */
    method ProbeRound(retries: int) returns (r: Result<()>, done: bool)
      modifies this
      ensures done ==> Outcome(r, Snapshot()) == Sessions.DetermineQueryLength(old(Snapshot()), retries)
      ensures !done ==> retries > 0 && Sessions.DetermineQueryLength(Snapshot(), retries - 1) == Sessions.DetermineQueryLength(old(Snapshot()), retries)
    {
      done := true;
      SendMsg(NewQueryMsg);
      var response :- ReadMsg(2);
      if |response| == 2 {
        queryLen := 14;
        return Success(()), true;
      }
      SendMsg(OldQueryMsg);
      response :- ReadMsg(2);
      if |response| >= 2 {
        if response[1] == 0x01 {
          protocol := LedenetOriginal;
          useChecksum := false;
          queryLen := 11;
          return Success(()), true;
        } else {
          useChecksum := true;
        }
      }
      if retries <= 0 {
        return Failure(UnknownProtocol), true;
      }
      return Success(()), false;
    }

    /** `DetermineQueryLength(retries)`, its tail recursion run as a loop. */
    method DetermineQueryLength(retries: int) returns (r: Result<()>)
      modifies this
      ensures Outcome(r, Snapshot()) == Sessions.DetermineQueryLength(old(Snapshot()), retries)
    {
      var n := retries;
      var done := false;
      while true
        invariant Sessions.DetermineQueryLength(Snapshot(), n) == Sessions.DetermineQueryLength(old(Snapshot()), retries)
        decreases n
      {
        r, done := ProbeRound(n);
        if done {
          return;
        }
        n := n - 1;
      }
    }

    // ---------------------------------------------------------- state query

    /** `QueryState(retries)`: its retry recursion run as a loop. */
    method QueryState(retries: int) returns (r: Result<Option<Bytes>>)
      modifies this
      ensures Outcome(r, Snapshot()) == Sessions.QueryState(old(Snapshot()), retries)
    {
      var n := retries;
      while true
        invariant Sessions.QueryState(Snapshot(), n) == Sessions.QueryState(old(Snapshot()), retries)
        decreases n
      {
        if queryLen == 0 {
          var detected :- DetermineQueryLength(2);
        }
        SendMsg(QueryMessage(protocol));
        var response := ReadMsg(queryLen);
        if response.Success? {
          return Success(Some(response.value));
        }
        if n < 1 {
          isOn := false;
          return Success(None);
        }
        n := n - 1;
      }
    }

    /** The device-type byte's effect on the protocol flags. */
    method ApplyDeviceType(deviceType: Byte)
      modifies this
      ensures State() == Sessions.ApplyDeviceType(old(State()), deviceType)
      ensures replies == old(replies) && sent == old(sent)
    {
      // devices that take colour and white in one write
      if deviceType == 0x04 || deviceType == 0x33 || deviceType == 0x81 {
        rgbwProtocol := true;
      }
      // devices that have a white channel
      if deviceType == 0x04 || deviceType == 0x25 || deviceType == 0x33 || deviceType == 0x81 {
        rgbwCapable := true;
      }
      // devices on the 9-byte colour message
      if deviceType == 0x25 || deviceType == 0x27 || deviceType == 0x35 {
        protocol := Ledenet9Byte;
      }
      // the original LEDENET protocol
      if deviceType == 0x01 {
        protocol := LedenetOriginal;
        useChecksum := false;
      }
    }

    /** One attempt of `UpdateState`: `done` is false when the mode came
        out unknown and a retry is left. */
    method UpdateRound(retries: int) returns (r: Result<()>, done: bool)
      modifies this
      ensures done ==> Outcome(r, Snapshot()) == Sessions.UpdateState(old(Snapshot()), retries)
      ensures !done ==> retries > 0 && Sessions.UpdateState(Snapshot(), retries - 1) == Sessions.UpdateState(old(Snapshot()), retries)
    {
      done := true;
      var reply :- QueryState(retries);
      if reply.None? {
        return Failure(NullReference), true;
      }
      var state := reply.value;
      if |state| < 2 {
        return Failure(IndexOutOfRange), true;
      }
      ApplyDeviceType(state[1]);
      if |state| < 10 {
        return Failure(IndexOutOfRange), true;
      }
      mode := DetermineMode(state[9], state[3], rgbwCapable);
      if mode != ModeUnknown {
        if state[2] == PowerOn {
          isOn := true;
        } else if state[2] == PowerOff {
          isOn := false;
        }
        rawState := Some(state);
        return Success(()), true;
      }
      if retries < 1 {
        return Failure(UnknownMode), true;
      }
      return Success(()), false;
    }

    /** `UpdateState(retries)`: its retry recursion run as a loop. */
    method UpdateState(retries: int) returns (r: Result<()>)
      requires Valid()
      modifies this
      ensures Outcome(r, Snapshot()) == Sessions.UpdateState(old(Snapshot()), retries)
      ensures Valid()
    {
      SessionProperties.UpdateStateKeepsConsistent(Snapshot(), retries);
      var n := retries;
      var done := false;
      while true
        invariant Sessions.UpdateState(Snapshot(), n) == Sessions.UpdateState(old(Snapshot()), retries)
        decreases n
      {
        r, done := UpdateRound(n);
        if done {
          return;
        }
        n := n - 1;
      }
    }

    // ------------------------------------------------------------- commands

    /** `TurnOn`. */
    method TurnOn()
      modifies this
      ensures Snapshot() == TurnOnOff(old(Snapshot()), true)
      ensures Valid() <==> old(Valid())
    {
      SendMsg(OnOffMessage(protocol, true));
      isOn := true;
    }

    /** `TurnOff`. */
    method TurnOff()
      modifies this
      ensures Snapshot() == TurnOnOff(old(Snapshot()), false)
      ensures Valid() <==> old(Valid())
    {
      SendMsg(OnOffMessage(protocol, false));
      isOn := false;
    }

    /** `GetColorSetMsg`: a fresh buffer holding the frame of a
        colour/white message. */
    method GetColorSetMsg(persist: bool, writeMask: Byte) returns (r: Result<array<Byte>>)
      ensures r.Failure? <==> ColorSetMessage(protocol, rgbwProtocol, persist, writeMask).Failure?
      ensures r.Failure? ==> r.error == InvalidOperation
      ensures r.Success? ==> fresh(r.value) && r.value[..] == ColorSetMessage(protocol, rgbwProtocol, persist, writeMask).value
    {
      var msg: array<Byte>;
      var maskAt: nat;
      if protocol == Ledenet8Byte {
        msg := new Byte[7](_ => 0);
        maskAt := 5;
      } else if protocol == Ledenet9Byte {
        msg := new Byte[8](_ => 0);
        maskAt := 6;
      } else {
        return Failure(InvalidOperation);
      }
      msg[0] := if persist then 0x31 else 0x41;
      if !rgbwProtocol {
        msg[maskAt] := writeMask;
      }
      msg[maskAt + 1] := 0x0f;
      return Success(msg);
    }

    /** `SetRGB`. */
    method SetRGB(color: Rgb, persist: bool) returns (r: Result<()>)
      requires Valid()
      modifies this
      ensures Outcome(r, Snapshot()) == SetRgb(old(Snapshot()), color, persist)
      ensures Valid()
    {
      var msg: array<Byte>;
      if protocol == LedenetOriginal {
        msg := new Byte[5](_ => 0);
        msg[0] := 0x56;
        msg[1] := color.r;
        msg[2] := color.g;
        msg[3] := color.b;
        msg[4] := 0xaa;
      } else {
        var frame := GetColorSetMsg(persist, ColorOnlyWriteMask);
        msg := frame.value;
        msg[1] := color.r;
        msg[2] := color.g;
        msg[3] := color.b;
      }
      assert msg[..] == RgbMessage(protocol, rgbwProtocol, persist, color);
      SendMsg(msg[..]);
      r := UpdateState(2);
    }

    /** `SetWhite`. */
    method SetWhite(white: White, persist: bool) returns (r: Result<()>)
      requires Valid()
      modifies this
      ensures Outcome(r, Snapshot()) == Sessions.SetWhite(old(Snapshot()), white, persist)
      ensures Valid()
    {
      if protocol == LedenetOriginal {
        return Failure(InvalidOperation);
      }
      var frame := GetColorSetMsg(persist, WhiteOnlyWriteMask);
      var msg := frame.value;
      msg[1] := 0;
      msg[2] := 0;
      msg[3] := 0;
      msg[4] := white.warm;
      if protocol == Ledenet9Byte {
        msg[5] := white.cold;
      }
      SendMsg(msg[..]);
      r := UpdateState(2);
    }

    /** `SetRGBW`. */
    method SetRGBW(color: Rgb, white: White, persist: bool) returns (r: Result<()>)
      requires Valid()
      modifies this
      ensures Outcome(r, Snapshot()) == SetRgbw(old(Snapshot()), color, white, persist)
      ensures Valid()
    {
      if protocol == LedenetOriginal || !rgbwProtocol {
        return Failure(InvalidOperation);
      }
      var frame := GetColorSetMsg(persist, ColorAndWhiteWriteMask);
      var msg := frame.value;
      msg[1] := color.r;
      msg[2] := color.g;
      msg[3] := color.b;
      msg[4] := white.warm;
      if protocol == Ledenet9Byte {
        msg[5] := white.cold;
      }
      SendMsg(msg[..]);
      r := UpdateState(2);
    }

    /** `GetClock`. */
    method GetClock() returns (r: Result<Date>)
      modifies this
      ensures Outcome(r, Snapshot()) == Sessions.GetClock(old(Snapshot()))
    {
      SendMsg(GetClockMsg);
      var response :- ReadMsg(12);
      r := ClockFromReply(response);
    }

    /** The 11-byte buffer `SetClock` fills in. */
    static method ClockBuffer(d: Date) returns (msg: array<Byte>)
      ensures fresh(msg) && msg[..] == ClockMessage(d)
    {
      msg := new Byte[11](_ => 0);
      msg[0] := 0x10;
      msg[1] := 0x14;
      msg[2] := (d.year - 2000) % 256;
      msg[3] := d.month;
      msg[4] := d.day;
      msg[5] := d.hour;
      msg[6] := d.minute;
      msg[7] := d.second;
      assert msg[..8] == ClockMessage(d)[..8];
      msg[8] := IsoWeekday(d);
      msg[9] := 0x00;
      msg[10] := 0x0f;
      assert msg[..] == msg[..8] + [msg[8], msg[9], msg[10]];
    }

    /** `SetClock`. */
    method SetClock(d: Date)
      modifies this
      ensures Snapshot() == Sessions.SetClock(old(Snapshot()), d)
    {
      var msg := ClockBuffer(d);
      SendMsg(msg[..]);
    }

    /** `SetPresetPattern`. */
    method SetPresetPattern(pattern: PresetPattern, speed: int) returns (r: Result<()>)
      requires Valid()
      modifies this
      ensures Outcome(r, Snapshot()) == Sessions.SetPresetPattern(old(Snapshot()), pattern, speed)
      ensures Valid()
    {
      var msg := new Byte[4](_ => 0);
      msg[0] := 0x61;
      msg[1] := PresetPatternCode(pattern);
      var delay :- ConvertSpeedToDelay(speed);
      msg[2] := delay;
      msg[3] := 0x0f;
      assert msg[..] == PresetMessage(pattern, speed).value;
      SendMsg(msg[..]);
      r := UpdateState(2);
    }

    // ---------------------------------------------------------- timer table

    /** `GetTimers`: the six slots of the 88-byte reply, decoded in order. */
    method GetTimers() returns (r: Result<seq<LedTimer>>)
      modifies this
      ensures Outcome(r, Snapshot()) == Sessions.GetTimers(old(Snapshot()))
    {
      SendMsg(GetTimersMsg);
      var response :- ReadMsg(88);
      if |response| < 88 {
        return Failure(ResponseTooShort);
      }
      var timers: seq<LedTimer> := [];
      for i := 0 to 6
        invariant DecodeSlots(response, i) == Success(timers)
      {
        var timerBytes := response[i * 14 + 2 .. i * 14 + 16];
        assert timerBytes == Slot(response, i);
        var decoded := FromBytes(timerBytes);
        if decoded.Failure? {
          DecodeSlotsStops(response, i, 6);
          return Failure(decoded.error);
        }
        timers := timers + [decoded.value];
      }
      return Success(timers);
    }

    /** `Array.Copy(src, 0, dst, at, src.Length)`. */
    static method CopyInto(src: array<Byte>, dst: array<Byte>, at: nat)
      requires src != dst && at + src.Length <= dst.Length
      modifies dst
      ensures dst[..at + src.Length] == old(dst[..at]) + src[..]
      ensures dst[at + src.Length..] == old(dst[at + src.Length..])
    {
      forall j | 0 <= j < src.Length {
        dst[at + j] := src[j];
      }
    }

    /** The table-building part of `SendTimers`: `21`, the first six
        timers' `ToBytes` copied in at 14-byte steps, `00 f0`. */
    static method BuildTimerTable(timers: seq<LedTimer>) returns (msg: array<Byte>)
      requires |timers| >= 6
      ensures fresh(msg) && msg[..] == TimerTableMessage(timers)
    {
      ghost var blocks := Encodings(timers[..6]);
      msg := new Byte[6 * 14 + 3](_ => 0);
      msg[0] := 0x21;
      var idx := 1;
      for k := 0 to 6
        invariant idx == 1 + 14 * k
        invariant msg[..idx] == [0x21] + Concat(blocks[..k])
      {
        var timerBytes := ToBytes(timers[k]);
        ghost var before := msg[..idx];
        CopyInto(timerBytes, msg, idx);
        TableStep(blocks, k, before, timerBytes[..], msg[..idx + 14]);
        idx := idx + 14;
      }
      ghost var body := msg[..idx];
      msg[idx] := 0x00;
      msg[idx + 1] := 0xf0;
      TableEnd(timers, blocks, body, msg[..]);
    }

    /** One step of `BuildTimerTable`'s loop, on values. */
    static lemma TableStep(blocks: seq<Bytes>, k: nat, before: Bytes, block: Bytes, after: Bytes)
      requires k < |blocks| && before == [0x21] + Concat(blocks[..k])
      requires block == blocks[k] && after == before + block
      ensures after == [0x21] + Concat(blocks[..k + 1])
    {
      ConcatPrefix(blocks, k);
    }

    /** The end of `BuildTimerTable`, on values. */
    static lemma TableEnd(timers: seq<LedTimer>, blocks: seq<Bytes>, body: Bytes, whole: Bytes)
      requires |timers| >= 6 && blocks == Encodings(timers[..6])
      requires body == [0x21] + Concat(blocks[..6])
      requires |whole| == 87 && whole[..85] == body && whole[85..] == [0x00, 0xf0]
      ensures whole == TimerTableMessage(timers)
    {
      assert blocks[..6] == blocks;
      assert whole == whole[..85] + whole[85..];
    }

    /** `SendTimers`: refuses more than six active timers, pads the
        caller's list in place to six, sends the first six in list order and
        reads the two acknowledgements. */
    method SendTimers(list: TimerList) returns (r: Result<()>)
      modifies this, list
      ensures (Outcome(r, Snapshot()), list.timers) == Sessions.SendTimers(old(Snapshot()), old(list.timers))
    {
      if CountActive(list.timers) > 6 {
        return Failure(ArgumentError);
      }
      while |list.timers| < 6
        invariant PadTimers(list.timers) == PadTimers(old(list.timers))
        invariant Snapshot() == old(Snapshot())
        decreases 6 - |list.timers|
      {
        list.timers := list.timers + [NewTurnOffTimer()];
      }
      var msg := BuildTimerTable(list.timers);
      SendMsg(msg[..]);
      var ack :- ReadMsg(1);
      ack :- ReadMsg(3);
      return Success(());
    }
  }
}
