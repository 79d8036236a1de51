/** What the session operations of `Sessions` guarantee: protocol detection
    settles the variant, checksum flag and query length together; queries
    and updates retry a bounded number of times; the device-type flags are
    only ever set; commands send what the protocol prescribes. */
module SessionProperties {
  import opened Wrappers
  import opened Enums
  import opened LedTimers
  import opened Messages
  import opened Sessions

  // ---------------------------------------------------- protocol detection

  /** Detection ends in one of three ways: it fails with a socket or
      unknown-protocol error and leaves the bulb as it was; it selects the
      14-byte state reply; or it selects the original protocol, without
      checksum, with the 11-byte state reply. Nothing else of the bulb
      changes. */
  lemma {:induction false} DetectSettles(s: Session, retries: int)
    requires s.bulb.useChecksum
    ensures var o := DetermineQueryLength(s, retries);
      || (o.result.Failure? && o.after.bulb == s.bulb
          && (o.result.error == SocketError || o.result.error == UnknownProtocol))
      || (o.result.Success? && o.after.bulb == s.bulb.(queryLen := 14))
      || (o.result.Success? && o.after.bulb == s.bulb.(protocol := LedenetOriginal, useChecksum := false, queryLen := 11))
    decreases retries
  {
    var o1 := Receive(Send(s, NewQueryMsg), 2);
    if o1.result.Success? && |o1.result.value| != 2 {
      var o2 := Receive(Send(o1.after, OldQueryMsg), 2);
      if o2.result.Success? {
        var response := o2.result.value;
        if !(|response| >= 2 && response[1] == 0x01) {
          var s' := if |response| >= 2 then Session(o2.after.bulb.(useChecksum := true), o2.after.link) else o2.after;
          if retries > 0 {
            DetectSettles(s', retries - 1);
          }
        }
      }
    }
  }

  /** From an undetected, consistent bulb, detection keeps the bulb
      consistent; it succeeds exactly when it fixes a non-zero query length,
      and the length is 11 exactly for the original protocol. */
  lemma DetectOutcome(s: Session, retries: int)
    requires Consistent(s.bulb) && s.bulb.queryLen == 0
    ensures var o := DetermineQueryLength(s, retries);
      && Consistent(o.after.bulb)
      && (o.result.Success? <==> o.after.bulb.queryLen != 0)
      && (o.result.Success? ==> (o.after.bulb.queryLen == 11 <==> o.after.bulb.protocol == LedenetOriginal))
  {
    DetectSettles(s, retries);
  }

  /** Detection sends one or two probes per round, for at most `retries` + 1
      rounds, and only appends to the log. */
  lemma {:induction false} DetectProbeCount(s: Session, retries: int)
    ensures var o := DetermineQueryLength(s, retries);
      && s.link.sent <= o.after.link.sent
      && |s.link.sent| < |o.after.link.sent| <= |s.link.sent| + 2 * (if retries < 0 then 1 else retries + 1)
    decreases retries
  {
    var o1 := Receive(Send(s, NewQueryMsg), 2);
    if o1.result.Success? && |o1.result.value| != 2 {
      var o2 := Receive(Send(o1.after, OldQueryMsg), 2);
      if o2.result.Success? {
        var response := o2.result.value;
        if !(|response| >= 2 && response[1] == 0x01) {
          var s' := if |response| >= 2 then Session(o2.after.bulb.(useChecksum := true), o2.after.link) else o2.after;
          if retries > 0 {
            DetectProbeCount(s', retries - 1);
          }
        }
      }
    }
  }

  /** A two-byte answer to the new query settles the 14-byte state reply at
      once. */
  lemma DetectNewProtocol(s: Session, retries: int)
    requires s.link.replies != [] && s.link.replies[0].Data? && |s.link.replies[0].bytes| >= 2
    ensures var o := DetermineQueryLength(s, retries);
      && o.result.Success?
      && o.after.bulb == s.bulb.(queryLen := 14)
      && o.after.link.sent == s.link.sent + [Frame(NewQueryMsg, s.bulb.useChecksum)]
  {
  }

  /** A short answer to the new query followed by an answer to the old query
      whose second byte is 0x01 selects the original protocol, without
      checksum, with the 11-byte state reply. */
  lemma DetectOriginalProtocol(s: Session, retries: int)
    requires |s.link.replies| >= 2
    requires s.link.replies[0].Data? && |s.link.replies[0].bytes| < 2
    requires s.link.replies[1].Data? && |s.link.replies[1].bytes| >= 2 && s.link.replies[1].bytes[1] == 0x01
    ensures var o := DetermineQueryLength(s, retries);
      && o.result.Success?
      && o.after.bulb == s.bulb.(protocol := LedenetOriginal, useChecksum := false, queryLen := 11)
  {
  }

  /** A reply to the new query that does not announce it: too short. */
  predicate NoNewAnswer(r: Reply)
  {
    r.Data? && |r.bytes| < 2
  }

  /** A reply to the old query that does not announce the original
      protocol: too short, or its second byte is not 0x01. */
  predicate NoOldAnswer(r: Reply)
  {
    r.Data? && !(|r.bytes| >= 2 && r.bytes[1] == 0x01)
  }

  /** A bulb that answers neither query recognisably, round after round:
      after `retries` + 1 rounds of two probes each, detection throws
      UnknownProtocol. */
  lemma {:induction false} DetectGivesUp(s: Session, retries: int)
    requires retries >= 0 && |s.link.replies| >= 2 * (retries + 1)
    requires forall k | 0 <= k < 2 * (retries + 1) ::
               if k % 2 == 0 then NoNewAnswer(s.link.replies[k]) else NoOldAnswer(s.link.replies[k])
    ensures var o := DetermineQueryLength(s, retries);
      && o.result == Failure(UnknownProtocol)
      && |o.after.link.sent| == |s.link.sent| + 2 * (retries + 1)
    decreases retries
  {
    assert NoNewAnswer(s.link.replies[0]) && NoOldAnswer(s.link.replies[1]);
    if retries > 0 {
      var o2 := Receive(Send(Receive(Send(s, NewQueryMsg), 2).after, OldQueryMsg), 2);
      var response := o2.result.value;
      var s' := if |response| >= 2 then Session(o2.after.bulb.(useChecksum := true), o2.after.link)
                else o2.after;
      assert s'.link.replies == s.link.replies[2..];
      forall k | 0 <= k < 2 * retries
        ensures if k % 2 == 0 then NoNewAnswer(s'.link.replies[k]) else NoOldAnswer(s'.link.replies[k])
      {
        assert s'.link.replies[k] == s.link.replies[k + 2] && (k + 2) % 2 == k % 2;
      }
      DetectGivesUp(s', retries - 1);
    }
  }

  // ------------------------------------------------------------ state query

  /** Once the protocol is known, a state query never throws: it returns a
      state of at most the query length and leaves the bulb alone, or, when
      every attempt fails, returns no state and marks the bulb off. */
  lemma {:induction false} QueryDetected(s: Session, retries: int)
    requires s.bulb.queryLen != 0
    ensures var o := QueryState(s, retries);
      && o.result.Success?
      && (o.result.value.Some? ==> o.after.bulb == s.bulb && |o.result.value.value| <= s.bulb.queryLen)
      && (o.result.value.None? ==> o.after.bulb == s.bulb.(isOn := false))
    decreases retries
  {
    var o := Receive(Send(s, QueryMessage(s.bulb.protocol)), s.bulb.queryLen);
    if o.result.Failure? && retries >= 1 {
      QueryDetected(o.after, retries - 1);
    }
  }

  /** Once detection has succeeded, the rest of a state query is the query
      of the detected bulb. */
  lemma QueryAfterDetect(s: Session, retries: int)
    requires s.bulb.queryLen == 0
    requires DetermineQueryLength(s, 2).result.Success?
    requires DetermineQueryLength(s, 2).after.bulb.queryLen != 0
    ensures QueryState(s, retries) == QueryState(DetermineQueryLength(s, 2).after, retries)
  {
  }

  /** A state query keeps the bulb consistent and leaves its flags, mode and
      raw state alone; a returned state is at most the query length long
      and leaves the power flag as it was; no state means the bulb was
      marked off; a thrown error (from detection) leaves the bulb as it
      was. */
  lemma QueryStateOutcome(s: Session, retries: int)
    requires Consistent(s.bulb)
    ensures var o := QueryState(s, retries);
      && o.after.bulb.rgbwProtocol == s.bulb.rgbwProtocol && o.after.bulb.rgbwCapable == s.bulb.rgbwCapable
      && o.after.bulb.mode == s.bulb.mode && o.after.bulb.rawState == s.bulb.rawState
      && (o.result.Failure? ==> o.after.bulb == s.bulb)
      && (o.result.Success? ==> o.after.bulb.queryLen != 0)
      && (o.result.Success? && o.result.value.Some? ==>
            |o.result.value.value| <= o.after.bulb.queryLen && o.after.bulb.isOn == s.bulb.isOn)
      && (o.result == Success(None) ==> !o.after.bulb.isOn)
      && (s.bulb.queryLen != 0 ==>
            o.after.bulb.protocol == s.bulb.protocol && o.after.bulb.useChecksum == s.bulb.useChecksum
            && o.after.bulb.queryLen == s.bulb.queryLen)
  {
    if s.bulb.queryLen == 0 {
      DetectSettles(s, 2);
      var d := DetermineQueryLength(s, 2);
      if d.result.Success? {
        QueryAfterDetect(s, retries);
        QueryDetected(d.after, retries);
      }
    } else {
      QueryDetected(s, retries);
    }
  }

  /** A state query keeps the bulb consistent. */
  lemma QueryStateKeepsConsistent(s: Session, retries: int)
    requires Consistent(s.bulb)
    ensures Consistent(QueryState(s, retries).after.bulb)
  {
    if s.bulb.queryLen == 0 {
      DetectSettles(s, 2);
      var d := DetermineQueryLength(s, 2);
      if d.result.Success? {
        QueryAfterDetect(s, retries);
        QueryDetected(d.after, retries);
      }
    } else {
      QueryDetected(s, retries);
    }
  }

  /** A bulb that does not answer: after `retries` + 1 socket failures the
      query gives up, marks the bulb off and returns no state, having sent
      one query per attempt. */
  lemma {:induction false} QueryStateGivesUp(s: Session, retries: int)
    requires s.bulb.queryLen != 0 && retries >= 0
    requires forall k | 0 <= k <= retries && k < |s.link.replies| :: s.link.replies[k] == SocketFailure
    ensures var o := QueryState(s, retries);
      && o.result == Success(None)
      && o.after.bulb == s.bulb.(isOn := false)
      && |o.after.link.sent| == |s.link.sent| + retries + 1
    decreases retries
  {
    var o := Receive(Send(s, QueryMessage(s.bulb.protocol)), s.bulb.queryLen);
    if retries >= 1 {
      var s' := o.after;
      assert forall k | 0 <= k <= retries - 1 && k < |s'.link.replies| :: s'.link.replies[k] == s.link.replies[k + 1];
      QueryStateGivesUp(s', retries - 1);
    }
  }

  // ----------------------------------------------------------- state update

  /** An update keeps the bulb consistent, and the device-type flags are
      only ever set, never cleared. */
  lemma {:induction false} UpdateStateKeepsConsistent(s: Session, retries: int)
    requires Consistent(s.bulb)
    ensures var o := UpdateState(s, retries);
      && Consistent(o.after.bulb)
      && (s.bulb.rgbwProtocol ==> o.after.bulb.rgbwProtocol)
      && (s.bulb.rgbwCapable ==> o.after.bulb.rgbwCapable)
    decreases retries
  {
    QueryStateOutcome(s, retries);
    QueryStateKeepsConsistent(s, retries);
    var q := QueryState(s, retries);
    if q.result.Failure? || q.result.value.None? {
      assert UpdateState(s, retries).after == q.after;
    } else {
      var state := q.result.value.value;
      if |state| < 2 {
        assert UpdateState(s, retries).after == q.after;
      } else {
        var b1 := ApplyDeviceType(q.after.bulb, state[1]);
        if |state| < 10 {
          assert UpdateState(s, retries).after.bulb == b1;
        } else {
          var b2 := b1.(mode := DetermineMode(state[9], state[3], b1.rgbwCapable));
          if b2.mode == ModeUnknown {
            if retries >= 1 {
              UpdateStateKeepsConsistent(Session(b2, q.after.link), retries - 1);
            } else {
              assert UpdateState(s, retries).after.bulb == b2;
            }
          } else {
            var b3 := b2.(isOn := PowerAfter(state[2], b2.isOn), rawState := Some(state));
            assert UpdateState(s, retries).after.bulb == b3;
          }
        }
      }
    }
  }

  /** If an update fails, the raw state is as before and the power flag is
      unchanged or cleared. */
  lemma {:induction false} UpdateStateFailure(s: Session, retries: int)
    requires Consistent(s.bulb)
    ensures var o := UpdateState(s, retries);
      o.result.Failure? ==>
        o.after.bulb.rawState == s.bulb.rawState && (o.after.bulb.isOn == s.bulb.isOn || !o.after.bulb.isOn)
    decreases retries
  {
    QueryStateOutcome(s, retries);
    QueryStateKeepsConsistent(s, retries);
    var q := QueryState(s, retries);
    if q.result.Success? && q.result.value.Some? {
      var state := q.result.value.value;
      if |state| >= 10 {
        var b1 := ApplyDeviceType(q.after.bulb, state[1]);
        var b2 := b1.(mode := DetermineMode(state[9], state[3], b1.rgbwCapable));
        if b2.mode == ModeUnknown && retries >= 1 {
          UpdateStateFailure(Session(b2, q.after.link), retries - 1);
        }
      }
    }
  }

  /** If an update succeeds, the stored state decides a known mode, and the
      power flag follows that state's power byte (0x23 on, 0x24 off,
      anything else as before). */
  lemma {:induction false} UpdateStateSuccess(s: Session, retries: int)
    requires Consistent(s.bulb)
    ensures var o := UpdateState(s, retries);
      o.result.Success? ==>
        && o.after.bulb.rawState.Some? && |o.after.bulb.rawState.value| >= 10
        && o.after.bulb.mode != ModeUnknown
        && o.after.bulb.mode == DetermineMode(o.after.bulb.rawState.value[9], o.after.bulb.rawState.value[3],
                                              o.after.bulb.rgbwCapable)
        && o.after.bulb.isOn == PowerAfter(o.after.bulb.rawState.value[2], s.bulb.isOn)
    decreases retries
  {
    QueryStateOutcome(s, retries);
    QueryStateKeepsConsistent(s, retries);
    var q := QueryState(s, retries);
    if q.result.Success? && q.result.value.Some? {
      var state := q.result.value.value;
      if |state| >= 10 {
        var b1 := ApplyDeviceType(q.after.bulb, state[1]);
        var b2 := b1.(mode := DetermineMode(state[9], state[3], b1.rgbwCapable));
        if b2.mode == ModeUnknown && retries >= 1 {
          UpdateStateSuccess(Session(b2, q.after.link), retries - 1);
        }
      }
    }
  }

  /** A pattern byte that no mode accepts. */
  predicate IsUnknownPattern(code: Byte)
  {
    code !in {0x41, 0x60, 0x61, 0x62, 0xA1, 0xA2} && !IsPresetPatternCode(code)
  }

  /** A bulb whose protocol is known and which answers the first query:
      the query returns that answer, cut to the query length. */
  lemma QueryAnswered(s: Session, retries: int)
    requires s.bulb.queryLen != 0 && s.link.replies != [] && s.link.replies[0].Data?
    ensures var b := s.link.replies[0].bytes;
      var frame := Frame(QueryMessage(s.bulb.protocol), s.bulb.useChecksum);
      QueryState(s, retries) ==
        Outcome(Success(Some(if |b| <= s.bulb.queryLen then b else b[..s.bulb.queryLen])),
                Session(s.bulb, Link(s.link.replies[1..], s.link.sent + [frame])))
  {
  }

  /** A bulb whose every state shows an unknown pattern: the update runs
      `retries` + 1 rounds, one query each, and then throws UnknownMode
      without touching the raw state or the power flag. */
  lemma {:induction false} UpdateStateGivesUpOnUnknownMode(s: Session, retries: int)
    requires Consistent(s.bulb) && s.bulb.queryLen != 0 && retries >= 0 && |s.link.replies| > retries
    requires forall k | 0 <= k <= retries ::
               s.link.replies[k].Data? && |s.link.replies[k].bytes| >= 10 && IsUnknownPattern(s.link.replies[k].bytes[3])
    ensures var o := UpdateState(s, retries);
      && o.result == Failure(UnknownMode)
      && o.after.bulb.mode == ModeUnknown
      && o.after.bulb.rawState == s.bulb.rawState && o.after.bulb.isOn == s.bulb.isOn
      && |o.after.link.sent| == |s.link.sent| + retries + 1
    decreases retries
  {
    QueryAnswered(s, retries);
    var b := s.link.replies[0].bytes;
    var state := if |b| <= s.bulb.queryLen then b else b[..s.bulb.queryLen];
    assert |state| >= 10 && state[3] == b[3];
    var link := Link(s.link.replies[1..], s.link.sent + [Frame(QueryMessage(s.bulb.protocol), s.bulb.useChecksum)]);
    var b1 := ApplyDeviceType(s.bulb, state[1]);
    var b2 := b1.(mode := DetermineMode(state[9], state[3], b1.rgbwCapable));
    assert b2.mode == ModeUnknown;
    if retries >= 1 {
      var s2 := Session(b2, link);
      assert forall k | 0 <= k <= retries - 1 :: s2.link.replies[k] == s.link.replies[k + 1];
      UpdateStateGivesUpOnUnknownMode(s2, retries - 1);
    }
  }

  /** A bulb that does not answer at all: the update marks it off and then
      dereferences the missing state, so it throws NullReference, with the
      raw state untouched. */
  lemma UpdateStateUnreachable(s: Session, retries: int)
    requires s.bulb.queryLen != 0 && retries >= 0
    requires forall k | 0 <= k <= retries && k < |s.link.replies| :: s.link.replies[k] == SocketFailure
    ensures var o := UpdateState(s, retries);
      && o.result == Failure(NullReference)
      && o.after.bulb == s.bulb.(isOn := false)
      && |o.after.link.sent| == |s.link.sent| + retries + 1
  {
    QueryStateGivesUp(s, retries);
  }

  // -------------------------------------------------------------- commands

  /** On the original protocol `SetRGB` puts exactly `56 r g b aa` on the
      wire, without a checksum, before refreshing the state. */
  lemma SetRgbOriginal(s: Session, color: Rgb, persist: bool)
    requires Consistent(s.bulb) && s.bulb.protocol == LedenetOriginal
    ensures var o := SetRgb(s, color, persist);
      s.link.sent + [[0x56, color.r, color.g, color.b, 0xaa]] <= o.after.link.sent
  {
  }

  /** `SetWhite` and `SetRGBW` send their message, framed as the session
      requires, and then refresh the state; a refused call sends nothing. */
  lemma WhiteCommandsSend(s: Session, color: Rgb, white: White, persist: bool)
    ensures var o := SetWhite(s, white, persist);
      match WhiteMessage(s.bulb.protocol, s.bulb.rgbwProtocol, persist, white)
      case Failure(_) => o.after == s
      case Success(msg) => s.link.sent + [Frame(msg, s.bulb.useChecksum)] <= o.after.link.sent
    ensures var o := SetRgbw(s, color, white, persist);
      match RgbwMessage(s.bulb.protocol, s.bulb.rgbwProtocol, persist, color, white)
      case Failure(_) => o.after == s
      case Success(msg) => s.link.sent + [Frame(msg, s.bulb.useChecksum)] <= o.after.link.sent
  {
  }

  /** `SetPresetPattern` with a speed in range sends `61 pattern delay 0f`,
      framed, before refreshing the state. */
  lemma PresetPatternSend(s: Session, pattern: PresetPattern, speed: int)
    requires 0 <= speed <= 100
    ensures var o := SetPresetPattern(s, pattern, speed);
      var delay := Utils.ConvertSpeedToDelay(speed).value;
      s.link.sent + [Frame([0x61, PresetPatternCode(pattern), delay, 0x0f], s.bulb.useChecksum)] <= o.after.link.sent
  {
  }

  /** The commands that refresh the state keep the bulb consistent. */
  lemma ColorCommandsKeepConsistent(s: Session, color: Rgb, white: White, persist: bool)
    requires Consistent(s.bulb)
    ensures Consistent(SetRgb(s, color, persist).after.bulb)
    ensures Consistent(SetWhite(s, white, persist).after.bulb)
    ensures Consistent(SetRgbw(s, color, white, persist).after.bulb)
  {
    UpdateStateKeepsConsistent(Send(s, RgbMessage(s.bulb.protocol, s.bulb.rgbwProtocol, persist, color)), 2);
    var w := WhiteMessage(s.bulb.protocol, s.bulb.rgbwProtocol, persist, white);
    if w.Success? {
      UpdateStateKeepsConsistent(Send(s, w.value), 2);
    }
    var c := RgbwMessage(s.bulb.protocol, s.bulb.rgbwProtocol, persist, color, white);
    if c.Success? {
      UpdateStateKeepsConsistent(Send(s, c.value), 2);
    }
  }

  /** `SetPresetPattern` keeps the bulb consistent. */
  lemma PresetPatternKeepsConsistent(s: Session, pattern: PresetPattern, speed: int)
    requires Consistent(s.bulb)
    ensures Consistent(SetPresetPattern(s, pattern, speed).after.bulb)
  {
    var p := PresetMessage(pattern, speed);
    if p.Success? {
      UpdateStateKeepsConsistent(Send(s, p.value), 2);
    }
  }

  /** `CountActive` counts: it adds up over concatenation, and a single
      timer counts one exactly when it is active. */
  lemma {:induction false} CountActiveAppend(a: seq<LedTimer>, b: seq<LedTimer>)
    ensures CountActive(a + b) == CountActive(a) + CountActive(b)
    decreases |b|
  {
    if b == [] {
      assert a + b == a;
    } else {
      var b' := b[..|b| - 1];
      assert (a + b)[..|a + b| - 1] == a + b';
      CountActiveAppend(a, b');
    }
  }

  lemma CountActiveSingle(t: LedTimer)
    ensures CountActive([t]) == if t.isActive then 1 else 0
  {
    assert [t][..0] == [];
  }

  /** Padding adds only inactive TurnOff timers, so the number of active
      timers the six-timer limit is checked against is unchanged. */
  lemma {:induction false} PadTimersKeepsActiveCount(timers: seq<LedTimer>)
    ensures CountActive(PadTimers(timers)) == CountActive(timers)
    decreases 6 - |timers|
  {
    if |timers| < 6 {
      var t := NewTurnOffTimer();
      CountActiveAppend(timers, [t]);
      CountActiveSingle(t);
      PadTimersKeepsActiveCount(timers + [t]);
    }
  }

  /** The table `SendTimers` sends holds the caller's timers in the
      caller's order (active ones are not moved first), then TurnOff
      timers up to six. */
  lemma SendTimersKeepsListOrder(timers: seq<LedTimer>)
    ensures var msg := TimerTableMessage(PadTimers(timers));
      && (forall i | 0 <= i < 6 && i < |timers| :: msg[1 + 14 * i .. 15 + 14 * i] == Encoding(timers[i]))
      && (forall i | |timers| <= i < 6 :: msg[1 + 14 * i .. 15 + 14 * i] == Encoding(NewTurnOffTimer()))
  {
    var padded := PadTimers(timers);
    var msg := TimerTableMessage(padded);
    forall i | 0 <= i < 6 && i < |timers|
      ensures msg[1 + 14 * i .. 15 + 14 * i] == Encoding(timers[i])
    {
      TimerTableSlot(padded, i);
      assert padded[i] == padded[..|timers|][i];
    }
    forall i | |timers| <= i < 6
      ensures msg[1 + 14 * i .. 15 + 14 * i] == Encoding(NewTurnOffTimer())
    {
      TimerTableSlot(padded, i);
      assert padded[i] == NewTurnOffTimer();
    }
  }

  /** The power byte of an on/off command reads back, in a state reply, as
      the state it asks for. */
  lemma OnOffMatchesPowerByte(protocol: Protocol, turnOn: bool, wasOn: bool)
    ensures PowerAfter(OnOffMessage(protocol, turnOn)[1], wasOn) == turnOn
  {
  }
}
