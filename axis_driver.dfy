/**
 * The driver of one Xenax axis over its command socket: the receive loop
 * that accumulates a reply, the fixed command templates of every motion and
 * parameter operation, and the status and position queries with their
 * decoding (hexadecimal status word, signed decimal position, and the
 * "ERROR without HOME" fault).
 */
module AxisDriver {
  import opened Text
  import opened Numerals
  import opened Bits
  import opened Status
  import opened Protocol

  /** Travel direction. */
  datatype Direction = Negative | Positive

  /** The numeric value of a direction in arithmetic: -1 or +1. */
  function Sign(d: Direction): (s: int)
    ensures s == 1 || s == -1
    ensures s == 1 <==> d.Positive?
  {
    if d.Negative? then -1 else 1
  }

  /** The direction whose value is the product of the two values. */
  function Product(a: Direction, b: Direction): (d: Direction)
    ensures Sign(d) == Sign(a) * Sign(b)
  {
    if a == b then Positive else Negative
  }

  /**
   * How to stop: `Immediate`, the controller's default, or another mode of
   * the enumeration; the driver sends the same command for every mode.
   */
  datatype StopMode = Immediate | OtherMode(code: int)

  const HomeCommand: string := "REF"
  const StopCommand: string := "SM"
  const GoCommand: string := "GW"
  const StatusCommand: string := "TPSR"
  const PositionCommand: string := "TP"

  function JogCommand(direction: Direction): string
  {
    if direction == Negative then "JN" else "JP"
  }

  function MoveAbsScript(position: int): seq<string>
  {
    ["G" + Decimal(position)]
  }

  function MoveRelScript(distance: int): seq<string>
  {
    ["WA" + Decimal(distance), GoCommand]
  }

  function ProfileScript(speed: int, acceleration: int, scurvePercentage: int): seq<string>
  {
    ["SP" + Decimal(speed), "AC" + Decimal(acceleration), "SCRV" + Decimal(scurvePercentage)]
  }

  function LimitScript(negativeLimit: int, positiveLimit: int): seq<string>
  {
    ["SLPN" + Decimal(negativeLimit), "SLPP" + Decimal(positiveLimit)]
  }

  /** A command prefix made of letters that are neither control characters nor error markers. */
  predicate PlainPrefix(prefix: string)
  {
    |prefix| > 0 && forall i :: 0 <= i < |prefix| ==> 'A' <= prefix[i] <= 'Z'
  }

  /** A numbered command is plain, and its number is read back from the text after the prefix. */
  lemma NumberedCommand(prefix: string, n: int)
    requires PlainPrefix(prefix) && IsInt32(n)
    ensures PlainCommand(prefix + Decimal(n))
    ensures ParseInt32((prefix + Decimal(n))[|prefix|..]) == Some(n)
  {
    var digits := Decimal(n);
    var command := prefix + digits;
    forall i | 0 <= i < |command|
      ensures command[i] !in ControlChars
    {
      if i < |prefix| {
        assert command[i] == prefix[i];
      } else {
        DigitNotControl(n, i - |prefix|);
        assert command[i] == digits[i - |prefix|];
      }
    }
    NumberSuffix(prefix, n);
  }

  /** No character of decimal text is a control character. */
  lemma DigitNotControl(n: int, k: nat)
    requires k < |Decimal(n)|
    ensures Decimal(n)[k] !in ControlChars && Decimal(n)[k] != '?' && Decimal(n)[k] != '#'
    ensures !('A' <= Decimal(n)[k] <= 'Z')
  {
    DecimalChars(n);
  }

  /** The text after the prefix is the number's own text. */
  lemma NumberSuffix(prefix: string, n: int)
    requires IsInt32(n)
    ensures ParseInt32((prefix + Decimal(n))[|prefix|..]) == Some(n)
  {
    assert (prefix + Decimal(n))[|prefix|..] == Decimal(n);
    DecimalRoundTrip(n);
  }

  /** A letters-only command is plain. */
  lemma PlainPrefixCommand(prefix: string)
    requires PlainPrefix(prefix)
    ensures PlainCommand(prefix)
  {
  }

  predicate PlainScript(commands: seq<string>)
  {
    forall i :: 0 <= i < |commands| ==> PlainCommand(commands[i])
  }

  /** A device that acknowledges each command lets an absolute move succeed, its one command sent. */
  lemma MoveAbsAcknowledged(position: int, rest: seq<string>)
    requires IsInt32(position)
    ensures RunScript(Acks(MoveAbsScript(position)) + rest, MoveAbsScript(position)) == Run(Ok(()), Frames(MoveAbsScript(position)), rest)
  {
    NumberedCommand("G", position);
    AckedScript(MoveAbsScript(position), rest);
  }

  /** A device that acknowledges each command lets a relative move succeed, both commands sent in order. */
  lemma MoveRelAcknowledged(distance: int, rest: seq<string>)
    requires IsInt32(distance)
    ensures RunScript(Acks(MoveRelScript(distance)) + rest, MoveRelScript(distance)) == Run(Ok(()), Frames(MoveRelScript(distance)), rest)
  {
    var script := MoveRelScript(distance);
    assert PlainScript(script) by {
      NumberedCommand("WA", distance);
      assert PlainPrefix(GoCommand);
      PlainPrefixCommand(GoCommand);
    }
    AckedScript(script, rest);
  }

  /** The letter prefixes of the numbered commands. */
  lemma NumberPrefixes()
    ensures PlainPrefix("SP") && PlainPrefix("AC") && PlainPrefix("SCRV")
    ensures PlainPrefix("SLPN") && PlainPrefix("SLPP")
  {
  }

  lemma PlainPair(a: string, b: string)
    requires PlainCommand(a) && PlainCommand(b)
    ensures PlainScript([a, b])
  {
  }

  lemma PlainTriple(a: string, b: string, c: string)
    requires PlainCommand(a) && PlainCommand(b) && PlainCommand(c)
    ensures PlainScript([a, b, c])
  {
  }

  /** A device that acknowledges each command lets the profile succeed, its three commands sent in order. */
  lemma ProfileAcknowledged(speed: int, acceleration: int, scurve: int, rest: seq<string>)
    requires IsInt32(speed) && IsInt32(acceleration) && IsInt32(scurve)
    ensures RunScript(Acks(ProfileScript(speed, acceleration, scurve)) + rest, ProfileScript(speed, acceleration, scurve))
      == Run(Ok(()), Frames(ProfileScript(speed, acceleration, scurve)), rest)
  {
    NumberPrefixes();
    NumberedCommand("SP", speed);
    NumberedCommand("AC", acceleration);
    NumberedCommand("SCRV", scurve);
    PlainTriple("SP" + Decimal(speed), "AC" + Decimal(acceleration), "SCRV" + Decimal(scurve));
    AckedScript(ProfileScript(speed, acceleration, scurve), rest);
  }

  /** A device that acknowledges each command lets the limits succeed, both commands sent in order. */
  lemma LimitsAcknowledged(negativeLimit: int, positiveLimit: int, rest: seq<string>)
    requires IsInt32(negativeLimit) && IsInt32(positiveLimit)
    ensures RunScript(Acks(LimitScript(negativeLimit, positiveLimit)) + rest, LimitScript(negativeLimit, positiveLimit))
      == Run(Ok(()), Frames(LimitScript(negativeLimit, positiveLimit)), rest)
  {
    NumberPrefixes();
    NumberedCommand("SLPN", negativeLimit);
    NumberedCommand("SLPP", positiveLimit);
    PlainPair("SLPN" + Decimal(negativeLimit), "SLPP" + Decimal(positiveLimit));
    AckedScript(LimitScript(negativeLimit, positiveLimit), rest);
  }

  /** The status query: `TPSR`, its payload parsed as a hexadecimal 32-bit word. */
  function StatusQuery(inbox: seq<string>): (q: Step<nat>)
    ensures q.result.Ok? ==> q.result.value < Word32
    ensures q.result.Ok? ==> Pending(q.rest) < Pending(inbox)
  {
    var x := Exchange(inbox, StatusCommand);
    match x.result
    case Err(f) => Step(Err(f), x.rest)
    case Ok(text) =>
      match ParseHex32(text)
      case None => Step(Err(ParseFailed(StatusCommand)), x.rest)
      case Some(w) => Step(Ok(w), x.rest)
  }

  /** The motion state of a status word: a fault listing the set flags when ERROR is set without HOME. */
  function MotionState(word: nat): Result<bool>
  {
    if Test(word, ERROR) && !Test(word, HOME) then Err(StatusFault(ActiveFlags(word)))
    else Ok(Test(word, IN_MOTION))
  }

  function MotionQuery(inbox: seq<string>): (q: Step<bool>)
    ensures q.result.Ok? ==> Pending(q.rest) < Pending(inbox)
  {
    var q := StatusQuery(inbox);
    match q.result
    case Err(f) => Step(Err(f), q.rest)
    case Ok(w) => Step(MotionState(w), q.rest)
  }

  function InitializedQuery(inbox: seq<string>): (q: Step<bool>)
    ensures q.result.Ok? ==> Pending(q.rest) < Pending(inbox)
  {
    var q := StatusQuery(inbox);
    match q.result
    case Err(f) => Step(Err(f), q.rest)
    case Ok(w) => Step(Ok(Test(w, HOME)), q.rest)
  }

  /** The status queries fail only with faults of the exchange or of the decoding: never a timeout or a cancellation. */
  lemma StatusQueryFault(inbox: seq<string>)
    ensures MotionQuery(inbox).result != Err(TimedOut) && MotionQuery(inbox).result != Err(Cancelled)
    ensures InitializedQuery(inbox).result != Err(TimedOut) && InitializedQuery(inbox).result != Err(Cancelled)
  {
  }

  /** The position query: `TP`, its payload parsed as a signed decimal 32-bit integer. */
  function PositionQuery(inbox: seq<string>): (q: Step<int>)
    ensures q.result.Ok? ==> IsInt32(q.result.value)
  {
    var x := Exchange(inbox, PositionCommand);
    match x.result
    case Err(f) => Step(Err(f), x.rest)
    case Ok(text) =>
      match ParseInt32(text)
      case None => Step(Err(ParseFailed(PositionCommand)), x.rest)
      case Some(n) => Step(Ok(n), x.rest)
  }

  /** The motion state faults exactly when ERROR is set and HOME is clear; otherwise it is the IN_MOTION bit. */
  lemma MotionStateMeaning(word: nat)
    ensures MotionState(word).Err? <==> Test(word, ERROR) && !Test(word, HOME)
    ensures MotionState(word).Ok? ==> MotionState(word).value == Test(word, IN_MOTION)
  {
  }

  /** The fault lists the name of every set flag and no other, so ERROR and never HOME. */
  lemma MotionFaultFlags(word: nat)
    requires MotionState(word).Err?
    ensures MotionState(word).fault.StatusFault?
    ensures forall i :: 0 <= i < FlagCount ==> (AxisStatusNames[i] in MotionState(word).fault.flags <==> Test(word, i))
    ensures AxisStatusNames[ERROR] in MotionState(word).fault.flags
    ensures AxisStatusNames[HOME] !in MotionState(word).fault.flags
  {
    var flags := ActiveFlags(word);
    assert MotionState(word) == Err(StatusFault(flags));
    ActiveFlagsExact(word);
  }

  /** ERROR together with HOME is not a fault; ERROR alone is. */
  lemma ErrorNeedsMissingHome()
    ensures MotionState(3) == Ok(false)
    ensures MotionState(1).Err?
  {
    assert Test(3, IN_MOTION) == Digit(0, 0);
  }

  /** Hexadecimal digits are plain payload and never contain a command starting with a letter beyond F. */
  lemma HexPayload(w: nat, command: string)
    requires |command| > 0 && command[0] !in DigitChars
    ensures PlainPayload(Numeral(w, 16))
    ensures !Contains(Numeral(w, 16), command)
  {
    MissingFirstChar(Numeral(w, 16), command);
  }


  /** Decimal text is plain payload and never contains a command starting with a letter. */
  lemma DecimalPayload(n: int, command: string)
    requires |command| > 0 && 'A' <= command[0] <= 'Z'
    ensures PlainPayload(Decimal(n))
    ensures !Contains(Decimal(n), command)
  {
    var digits := Decimal(n);
    forall k | 0 <= k < |digits|
      ensures digits[k] !in ControlChars && digits[k] != '?' && digits[k] != '#'
      ensures digits[k] != command[0]
    {
      DigitNotControl(n, k);
    }
    MissingFirstChar(digits, command);
  }


  /**
   * A status reply carrying the hexadecimal text of a word decodes to that
   * word; the motion and homing queries read their bits of it.
   */
  lemma StatusReply(w: nat, tail: string, rest: seq<string>)
    requires w < Word32 && ReplyEnd(tail)
    ensures StatusQuery([StatusCommand + Numeral(w, 16) + tail] + rest) == Step(Ok(w), rest)
    ensures MotionQuery([StatusCommand + Numeral(w, 16) + tail] + rest) == Step(MotionState(w), rest)
    ensures InitializedQuery([StatusCommand + Numeral(w, 16) + tail] + rest) == Step(Ok(Test(w, HOME)), rest)
  {
    HexPayload(w, StatusCommand);
    ExchangeRoundTrip(StatusCommand, Numeral(w, 16), tail, rest);
    HexRoundTrip(w);
  }

  /** A position reply carrying the decimal text of a 32-bit integer decodes to it. */
  lemma PositionReply(n: int, tail: string, rest: seq<string>)
    requires IsInt32(n) && ReplyEnd(tail)
    ensures PositionQuery([PositionCommand + Decimal(n) + tail] + rest) == Step(Ok(n), rest)
  {
    DecimalPayload(n, PositionCommand);
    ExchangeRoundTrip(PositionCommand, Decimal(n), tail, rest);
    DecimalRoundTrip(n);
  }

  /** A payload that is not a number fails the query with a parse error after its reply is consumed. */
  lemma PositionNotNumeric(payload: string, tail: string, rest: seq<string>)
    requires PlainPayload(payload) && !Contains(payload, PositionCommand) && ReplyEnd(tail)
    requires ParseInt32(payload).None?
    ensures PositionQuery([PositionCommand + payload + tail] + rest) == Step(Err(ParseFailed(PositionCommand)), rest)
  {
    ExchangeRoundTrip(PositionCommand, payload, tail, rest);
  }

  /** The names of the set flags, gathered in enumeration order from the bitfield. */
  method SetFlagNames(bits: IntBits) returns (names: seq<string>)
    ensures names == ActiveFlags(bits.bits)
  {
    var word := bits.bits;
    names := [];
    var i := 0;
    while i < FlagCount
      invariant 0 <= i <= FlagCount
      invariant names == FlagsBelow(word, i)
    {
      FlagsBelowNext(word, i);
      if bits.Item(i) == Bit(true) {
        names := names + [AxisStatusNames[i]];
      }
      i := i + 1;
    }
  }

  class XenaxAxisDriver {
    /** The frames sent so far, oldest first. */
    var wire: seq<string>
    /** What the socket delivers to the coming receives. */
    var inbox: seq<string>

    constructor (deliveries: seq<string>)
      ensures wire == [] && inbox == deliveries
    {
      wire := [];
      inbox := deliveries;
    }

    /** The driver's state is what `run` says after starting from `wire0`. */
    ghost predicate Ran(run: Run, r: Result<()>, wire0: seq<string>)
      reads this
    {
      r == run.result && wire == wire0 + run.frames && inbox == run.rest
    }

    /**
     * Sends the frame, then receives chunks and appends them until a chunk
     * that itself contains the terminator.
     */
    method SendCommand(command: string) returns (r: Result<string>)
      modifies this
      ensures wire == old(wire) + [Frame(command)]
      ensures Reply(r, inbox) == Collect(old(inbox))
    {
      wire := wire + [Frame(command)];
      var sb := "";
      assert Prepend(sb, Collect(inbox)) == Collect(inbox) by {
        if Collect(inbox).raw.Ok? {
          assert sb + Collect(inbox).raw.value == Collect(inbox).raw.value;
        }
      }
      while true
        invariant wire == old(wire) + [Frame(command)]
        invariant Prepend(sb, Collect(inbox)) == Collect(old(inbox))
        decreases Pending(inbox)
      {
        var received := Receive(inbox);
        if received.None? {
          return Err(ReceiveFailed);
        }
        var chunk := received.value.chunk;
        PrependTwice(sb, chunk, Collect(received.value.rest));
        inbox := received.value.rest;
        sb := sb + chunk;
        if Terminator in chunk {
          return Ok(sb);
        }
      }
    }

    /** One command: sent, its reply collected and echo-checked. */
    method Command(command: string) returns (r: Result<string>)
      modifies this
      ensures wire == old(wire) + [Frame(command)]
      ensures Step(r, inbox) == Exchange(old(inbox), command)
    {
      var echo := SendCommand(command);
      if echo.Err? {
        return Err(echo.fault);
      }
      r := ProcessEcho(echo.value, command);
    }

    /** Homing (`REF`); the direction is not used. */
    method Initialize(direction: Direction) returns (r: Result<()>)
      modifies this
      ensures Ran(RunScript(old(inbox), [HomeCommand]), r, old(wire))
    {
      var reply := Command(HomeCommand);
      r := if reply.Ok? then Ok(()) else Err(reply.fault);
    }

    /** Jogging: `JN` or `JP`. */
    method Move(direction: Direction) returns (r: Result<()>)
      modifies this
      ensures Ran(RunScript(old(inbox), [JogCommand(direction)]), r, old(wire))
    {
      var reply := Command(JogCommand(direction));
      r := if reply.Ok? then Ok(()) else Err(reply.fault);
    }

    /** Absolute move: `G<position>`. */
    method MoveAbs(position: int) returns (r: Result<()>)
      modifies this
      ensures Ran(RunScript(old(inbox), MoveAbsScript(position)), r, old(wire))
    {
      var reply := Command("G" + Decimal(position));
      r := if reply.Ok? then Ok(()) else Err(reply.fault);
    }

    /** Relative move: the distance with `WA<distance>`, then `GW`. */
    method MoveRel(distance: int) returns (r: Result<()>)
      modifies this
      ensures Ran(RunScript(old(inbox), MoveRelScript(distance)), r, old(wire))
    {
      ghost var script := MoveRelScript(distance);
      var first := Command("WA" + Decimal(distance));
      if first.Err? {
        RunScriptFails(old(inbox), script);
        return Err(first.fault);
      }
      RunScriptGoesOn(old(inbox), script);
      ghost var wire1, inbox1 := wire, inbox;
      var second := Command(GoCommand);
      assert script[1..] == [GoCommand];
      r := if second.Ok? then Ok(()) else Err(second.fault);
      assert wire == wire1 + [Frame(GoCommand)];
    }

    /** Stop: `SM`, whatever the mode. */
    method Stop(mode: StopMode) returns (r: Result<()>)
      modifies this
      ensures Ran(RunScript(old(inbox), [StopCommand]), r, old(wire))
    {
      var reply := Command(StopCommand);
      r := if reply.Ok? then Ok(()) else Err(reply.fault);
    }

    /** The six-argument movement profile: accepted and ignored. */
    method SetMovementTiming(initialSpeed: int, finalSpeed: int, accelerationDuration: int,
                             decelerationDuration: int, scurveAccelerationPercentage: int,
                             scurveDecelerationPercentage: int)
      ensures unchanged(this)
    {
    }

    /** The three-argument movement profile: `SP`, `AC`, `SCRV`, in that order. */
    method SetMovementParameter(speed: int, acceleration: int, scurvePercentage: int) returns (r: Result<()>)
      modifies this
      ensures Ran(RunScript(old(inbox), ProfileScript(speed, acceleration, scurvePercentage)), r, old(wire))
    {
      r := CommandTriple("SP" + Decimal(speed), "AC" + Decimal(acceleration), "SCRV" + Decimal(scurvePercentage));
    }

    /** Three commands one after another, stopping at the first failure. */
    method CommandTriple(first: string, second: string, third: string) returns (r: Result<()>)
      modifies this
      ensures Ran(RunScript(old(inbox), [first, second, third]), r, old(wire))
    {
      RunScriptThree(inbox, first, second, third);
      var reply := Command(first);
      if reply.Err? {
        return Err(reply.fault);
      }
      reply := Command(second);
      if reply.Err? {
        return Err(reply.fault);
      }
      reply := Command(third);
      r := if reply.Ok? then Ok(()) else Err(reply.fault);
    }

    /** Software limits: `SLPN`, then `SLPP`. */
    method SetSoftwareLimit(negativeLimit: int, positiveLimit: int) returns (r: Result<()>)
      modifies this
      ensures Ran(RunScript(old(inbox), LimitScript(negativeLimit, positiveLimit)), r, old(wire))
    {
      ghost var script := LimitScript(negativeLimit, positiveLimit);
      var first := Command("SLPN" + Decimal(negativeLimit));
      if first.Err? {
        RunScriptFails(old(inbox), script);
        return Err(first.fault);
      }
      RunScriptGoesOn(old(inbox), script);
      assert script[1..] == [script[1]];
      var second := Command("SLPP" + Decimal(positiveLimit));
      r := if second.Ok? then Ok(()) else Err(second.fault);
    }

    /** Accepted and ignored. */
    method SetAbsPosition(position: int)
      ensures unchanged(this)
    {
    }

    /** Accepted and ignored. */
    method SetAlarmLogicLevel(active: bool)
      ensures unchanged(this)
    {
    }

    /** Accepted and ignored. */
    method SetServoState(state: bool)
      ensures unchanged(this)
    {
    }

    /** The status word: `TPSR`, the payload parsed as hexadecimal. */
    method GetStatusWord() returns (r: Result<nat>)
      modifies this
      ensures wire == old(wire) + [Frame(StatusCommand)]
      ensures Step(r, inbox) == StatusQuery(old(inbox))
    {
      var reply := Command(StatusCommand);
      if reply.Err? {
        return Err(reply.fault);
      }
      var word := ParseHex32(reply.value);
      if word.None? {
        return Err(ParseFailed(StatusCommand));
      }
      return Ok(word.value);
    }

    /** The status word as the signed integer with its bit pattern. */
    method GetAxisStatus() returns (r: Result<int>)
      modifies this
      ensures wire == old(wire) + [Frame(StatusCommand)]
      ensures inbox == StatusQuery(old(inbox)).rest
      ensures r.Ok? <==> StatusQuery(old(inbox)).result.Ok?
      ensures r.Ok? ==> r.value == ToInt32(StatusQuery(old(inbox)).result.value)
      ensures r.Err? ==> r.fault == StatusQuery(old(inbox)).result.fault
    {
      var word := GetStatusWord();
      if word.Err? {
        return Err(word.fault);
      }
      return Ok(ToInt32(word.value));
    }

    /** Homed: the HOME bit of the status word. */
    method IsInitialized() returns (r: Result<bool>)
      modifies this
      ensures wire == old(wire) + [Frame(StatusCommand)]
      ensures Step(r, inbox) == InitializedQuery(old(inbox))
    {
      var word := GetStatusWord();
      if word.Err? {
        return Err(word.fault);
      }
      Pow2Of32();
      var bits := new IntBits(word.value);
      var home := bits.Item(HOME);
      return Ok(home.value);
    }

    /** In motion: a fault when ERROR is set without HOME, the IN_MOTION bit otherwise. */
    method IsInMotion() returns (r: Result<bool>)
      modifies this
      ensures wire == old(wire) + [Frame(StatusCommand)]
      ensures Step(r, inbox) == MotionQuery(old(inbox))
    {
      var word := GetStatusWord();
      if word.Err? {
        return Err(word.fault);
      }
      Pow2Of32();
      var bits := new IntBits(word.value);
      if bits.Item(ERROR) == Bit(true) && bits.Item(HOME) == Bit(false) {
        var names := SetFlagNames(bits);
        return Err(StatusFault(names));
      }
      var inMotion := bits.Item(IN_MOTION);
      return Ok(inMotion.value);
    }

    /** The position: `TP`, the payload parsed as a signed decimal. */
    method GetAbsPosition() returns (r: Result<int>)
      modifies this
      ensures wire == old(wire) + [Frame(PositionCommand)]
      ensures Step(r, inbox) == PositionQuery(old(inbox))
    {
      var reply := Command(PositionCommand);
      if reply.Err? {
        return Err(reply.fault);
      }
      var position := ParseInt32(reply.value);
      if position.None? {
        return Err(ParseFailed(PositionCommand));
      }
      return Ok(position.value);
    }
  }
}
