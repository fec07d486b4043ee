/**
 * The axis controller: configuration (scale, direction, offset, limits,
 * speeds, timeout) over one axis driver, the ordered driver calls of each
 * move, and the poll loops of the asynchronous moves and of homing.
 */
module Controllers {
  import opened Numerals
  import opened Protocol
  import opened AxisDriver
  import opened Units
  import opened Polling

  /** The preparation of every move: the profile at the given speed, then the software limits. */
  function Preparation(speed: int, acceleration: int, scurvePercentage: int, negativeLimit: int, positiveLimit: int): seq<string>
  {
    ProfileScript(speed, acceleration, scurvePercentage) + LimitScript(negativeLimit, positiveLimit)
  }

  /** Homing: both software limits set to zero, then the homing command. */
  function InitializeScript(): seq<string>
  {
    LimitScript(0, 0) + [HomeCommand]
  }

  /** The preparation commands all start with `S` or `A`. */
  lemma PreparationLetters(speed: int, acceleration: int, scurvePercentage: int, negativeLimit: int, positiveLimit: int)
    ensures forall i :: 0 <= i < |Preparation(speed, acceleration, scurvePercentage, negativeLimit, positiveLimit)| ==>
      var c := Preparation(speed, acceleration, scurvePercentage, negativeLimit, positiveLimit)[i];
      |c| > 0 && (c[0] == 'S' || c[0] == 'A')
  {
  }

  /**
   * The motion command of a move (a command starting with neither `S` nor
   * `A`) is sent only when the profile and the limits were all accepted:
   * a rejected preparation command ends the move before it.
   */
  lemma MotionAfterPreparation(inbox: seq<string>, speed: int, acceleration: int, scurvePercentage: int,
                               negativeLimit: int, positiveLimit: int, motion: seq<string>)
    requires |motion| > 0 && |motion[0]| > 0 && motion[0][0] != 'S' && motion[0][0] != 'A'
    ensures var prepare := Preparation(speed, acceleration, scurvePercentage, negativeLimit, positiveLimit);
      CountFrame(RunScript(inbox, prepare + motion).frames, Frame(motion[0])) > 0 ==> RunScript(inbox, prepare).result.Ok?
  {
    PreparationLetters(speed, acceleration, scurvePercentage, negativeLimit, positiveLimit);
    SentOnlyAfter(inbox, Preparation(speed, acceleration, scurvePercentage, negativeLimit, positiveLimit), motion, motion[0]);
  }

  /** Homing is sent only after both zero limits were accepted, and then all three frames went out in order. */
  lemma HomingAfterZeroLimits(inbox: seq<string>)
    ensures var r := RunScript(inbox, InitializeScript());
      CountFrame(r.frames, Frame(HomeCommand)) > 0 ==>
        RunScript(inbox, LimitScript(0, 0)).result.Ok? && r.frames == Frames(InitializeScript())
  {
    var limits := LimitScript(0, 0);
    assert HomeCommand !in limits by {
      assert limits[0][0] == 'S' && limits[1][0] == 'S';
    }
    SentOnlyAfter(inbox, limits, [HomeCommand], HomeCommand);
    var r := RunScript(inbox, InitializeScript());
    RunScriptFrames(inbox, InitializeScript());
    if CountFrame(r.frames, Frame(HomeCommand)) > 0 && |r.frames| < 3 {
      var sent := InitializeScript()[..|r.frames|];
      assert HomeCommand !in sent;
      RunScriptNeverSendsFrames(sent, HomeCommand);
    }
  }

  /** Frames of commands that differ from `command` include none of its frame. */
  lemma {:induction false} RunScriptNeverSendsFrames(commands: seq<string>, command: string)
    requires command !in commands
    ensures CountFrame(Frames(commands), Frame(command)) == 0
    decreases |commands|
  {
    if commands != [] {
      FrameInjective(commands[0], command);
      RunScriptNeverSendsFrames(commands[1..], command);
    }
  }

  /** Jogging goes in the positive direction exactly when the requested and the configured directions agree. */
  lemma JogDirection(requested: Direction, configured: Direction)
    ensures JogCommand(Product(requested, configured)) == (if requested == configured then "JP" else "JN")
    ensures Sign(Product(requested, configured)) == Sign(requested) * Sign(configured)
  {
  }

  /**
   * With the default scale (1 mm and 1000 pulses per revolution), the
   * positive direction and no offset, an absolute move to 10 mm sends
   * `G10000`.
   */
  lemma DefaultMoveAbs()
    ensures MoveAbsScript(AdjustedPulse(10.0, 1.0, 1000, Positive, 0.0)) == ["G10000"]
  {
    DefaultTarget();
    TenThousandText();
    assert "G" + "10000" == "G10000";
  }

  /** Ten millimetres at 1000 pulses per millimetre are 10000 pulses. */
  lemma DefaultTarget()
    ensures AdjustedPulse(10.0, 1.0, 1000, Positive, 0.0) == 10000
  {
    assert ExactPulses((10.0 - 0.0) * Sign(Positive) as real, 1.0, 1000) == 10000.0;
    TruncWhole(10000);
  }

  /** The decimal text of 10000. */
  lemma TenThousandText()
    ensures Decimal(10000) == "10000"
  {
    assert Numeral(1, 10) == "1";
    assert Numeral(10, 10) == "10";
    assert Numeral(100, 10) == "100";
    assert Numeral(1000, 10) == "1000";
  }

  /**
   * An asynchronous move whose commands include no stop command sends at
   * most one: exactly one when its commands succeeded and the poll failed.
   */
  lemma MoveStopsAtMostOnce(inbox: seq<string>, commands: seq<string>, clock: Clock, timeout: int)
    requires StopCommand !in commands
    ensures var first := RunScript(inbox, commands); var w := WatchMotion(first, clock, timeout);
      CountFrame(w.frames, Frame(StopCommand)) ==
        (if first.result.Ok? && MotionPoll(first.rest, clock, 0, timeout).result.Err? then 1 else 0)
  {
    RunScriptNeverSends(inbox, commands, StopCommand);
    WatchMotionStops(RunScript(inbox, commands), clock, timeout);
  }

  class XenaxAxisController {
    const id: string
    var driver: XenaxAxisDriver

    var displacementPerRev: real
    var pulsePerRev: int
    var direction: Direction
    var absoluteMillimetre: real
    var negativeLimit: int
    var positiveLimit: int
    var initialSpeed: int
    var finalSpeed: int
    var accelerationDuration: int
    var decelerationDuration: int
    var acceleration: int
    var sCurvePercentage: int
    var sCurveDecelerationPercentage: int
    var timeout: int
    var initializeDirection: Direction
    var originPulse: int

    /**
     * The identifier and the driver, and the default parameters. The other
     * numeric parameters keep the value zero; the directions are not set.
     */
    constructor (id: string, axisDriver: XenaxAxisDriver)
      ensures this.id == id && driver == axisDriver
      ensures displacementPerRev == 1.0 && pulsePerRev == 1000
      ensures negativeLimit == 0 && positiveLimit == 800000
      ensures finalSpeed == 100000 && acceleration == 1000000 && sCurvePercentage == 100
      ensures timeout == 15000
      ensures absoluteMillimetre == 0.0 && initialSpeed == 0 && originPulse == 0
      ensures accelerationDuration == 0 && decelerationDuration == 0 && sCurveDecelerationPercentage == 0
    {
      this.id := id;
      driver := axisDriver;
      absoluteMillimetre := 0.0;
      initialSpeed := 0;
      accelerationDuration := 0;
      decelerationDuration := 0;
      sCurveDecelerationPercentage := 0;
      originPulse := 0;
      displacementPerRev := 1.0;
      pulsePerRev := 1000;
      negativeLimit := 0;
      positiveLimit := 800000;
      finalSpeed := 100000;
      acceleration := 1000000;
      sCurvePercentage := 100;
      timeout := 15000;
    }

    /** Replaces the driver; nothing else changes. */
    method LoadDriver(axisDriver: XenaxAxisDriver)
      modifies this
      ensures driver == axisDriver
      ensures displacementPerRev == old(displacementPerRev) && pulsePerRev == old(pulsePerRev)
      ensures direction == old(direction) && absoluteMillimetre == old(absoluteMillimetre)
      ensures negativeLimit == old(negativeLimit) && positiveLimit == old(positiveLimit)
      ensures finalSpeed == old(finalSpeed) && acceleration == old(acceleration) && sCurvePercentage == old(sCurvePercentage)
      ensures timeout == old(timeout) && originPulse == old(originPulse)
      ensures initialSpeed == old(initialSpeed) && accelerationDuration == old(accelerationDuration)
      ensures decelerationDuration == old(decelerationDuration) && sCurveDecelerationPercentage == old(sCurveDecelerationPercentage)
      ensures initializeDirection == old(initializeDirection)
    {
      driver := axisDriver;
    }

    /** The preparation at this speed percentage, with the configured profile and limits. */
    function PrepareAt(speedPercentage: real): seq<string>
      reads this
    {
      Preparation(AdjustedSpeed(finalSpeed, speedPercentage), acceleration, sCurvePercentage, negativeLimit, positiveLimit)
    }

    /** The absolute target of a position in millimetres. */
    function TargetOf(millimetre: real): int
      reads this
      requires displacementPerRev != 0.0
    {
      AdjustedPulse(millimetre, displacementPerRev, pulsePerRev, direction, absoluteMillimetre)
    }

    /**
     * The relative distance of a displacement in millimetres: converted,
     * then signed by the direction in unchecked 32-bit arithmetic; no offset.
     */
    function DistanceOf(millimetre: real): int
      reads this
      requires displacementPerRev != 0.0
    {
      Wrap32(MillimetreToPulse(millimetre, displacementPerRev, pulsePerRev) * Sign(direction))
    }

    /** The profile at the scaled speed; the six-argument profile that follows sends nothing. */
    method SetParameter(speedPercentage: real) returns (r: Result<()>)
      modifies driver
      ensures driver.Ran(RunScript(old(driver.inbox), ProfileScript(AdjustedSpeed(finalSpeed, speedPercentage), acceleration, sCurvePercentage)), r, old(driver.wire))
    {
      var adjustedSpeed := AdjustedSpeed(finalSpeed, speedPercentage);
      r := driver.SetMovementParameter(adjustedSpeed, acceleration, sCurvePercentage);
      if r.Err? {
        return;
      }
      driver.SetMovementTiming(initialSpeed, adjustedSpeed, accelerationDuration, decelerationDuration,
                               sCurvePercentage, sCurveDecelerationPercentage);
    }

    /** The profile at the scaled speed, then the software limits. */
    method Prepare(speedPercentage: real) returns (r: Result<()>)
      modifies driver
      ensures driver.Ran(RunScript(old(driver.inbox), PrepareAt(speedPercentage)), r, old(driver.wire))
    {
      ghost var inbox0, wire0 := driver.inbox, driver.wire;
      ghost var profile := ProfileScript(AdjustedSpeed(finalSpeed, speedPercentage), acceleration, sCurvePercentage);
      RunScriptAppend(inbox0, profile, LimitScript(negativeLimit, positiveLimit));
      r := SetParameter(speedPercentage);
      if r.Err? {
        return;
      }
      ghost var first := RunScript(inbox0, profile);
      r := driver.SetSoftwareLimit(negativeLimit, positiveLimit);
      ghost var second := RunScript(first.rest, LimitScript(negativeLimit, positiveLimit));
      AppendTwice(wire0, first.frames, second.frames);
    }

    /** The profile, the limits, then the absolute move to the converted target. */
    method MoveAbs(millimetre: real, speedPercentage: real) returns (r: Result<()>)
      requires displacementPerRev != 0.0
      modifies driver
      ensures driver.Ran(RunScript(old(driver.inbox), PrepareAt(speedPercentage) + MoveAbsScript(TargetOf(millimetre))), r, old(driver.wire))
    {
      ghost var inbox0, wire0 := driver.inbox, driver.wire;
      RunScriptAppend(inbox0, PrepareAt(speedPercentage), MoveAbsScript(TargetOf(millimetre)));
      r := Prepare(speedPercentage);
      if r.Err? {
        return;
      }
      ghost var first := RunScript(inbox0, PrepareAt(speedPercentage));
      var adjustedPulse := TargetOf(millimetre);
      r := driver.MoveAbs(adjustedPulse);
      ghost var second := RunScript(first.rest, MoveAbsScript(adjustedPulse));
      AppendTwice(wire0, first.frames, second.frames);
    }
  
    /** The profile, the limits, then the relative move by the converted, signed distance. */
    method MoveRel(millimetre: real, speedPercentage: real) returns (r: Result<()>)
      requires displacementPerRev != 0.0
      modifies driver
      ensures driver.Ran(RunScript(old(driver.inbox), PrepareAt(speedPercentage) + MoveRelScript(DistanceOf(millimetre))), r, old(driver.wire))
    {
      ghost var inbox0, wire0 := driver.inbox, driver.wire;
      RunScriptAppend(inbox0, PrepareAt(speedPercentage), MoveRelScript(DistanceOf(millimetre)));
      r := Prepare(speedPercentage);
      if r.Err? {
        return;
      }
      ghost var first := RunScript(inbox0, PrepareAt(speedPercentage));
      var adjustedPulse := MillimetreToPulse(millimetre, displacementPerRev, pulsePerRev);
      r := driver.MoveRel(Wrap32(adjustedPulse * Sign(direction)));
      ghost var second := RunScript(first.rest, MoveRelScript(DistanceOf(millimetre)));
      AppendTwice(wire0, first.frames, second.frames);
    }

    /** The profile, the limits, then the absolute move to the origin pulse, unconverted. */
    method MoveOrigin(speedPercentage: real) returns (r: Result<()>)
      modifies driver
      ensures driver.Ran(RunScript(old(driver.inbox), PrepareAt(speedPercentage) + MoveAbsScript(originPulse)), r, old(driver.wire))
    {
      ghost var inbox0, wire0 := driver.inbox, driver.wire;
      RunScriptAppend(inbox0, PrepareAt(speedPercentage), MoveAbsScript(originPulse));
      r := Prepare(speedPercentage);
      if r.Err? {
        return;
      }
      ghost var first := RunScript(inbox0, PrepareAt(speedPercentage));
      r := driver.MoveAbs(originPulse);
      ghost var second := RunScript(first.rest, MoveAbsScript(originPulse));
      AppendTwice(wire0, first.frames, second.frames);
    }

    /** The profile, the limits, then jogging in the requested direction times the configured one. */
    method Move(requested: Direction, speedPercentage: real) returns (r: Result<()>)
      modifies driver
      ensures driver.Ran(RunScript(old(driver.inbox), PrepareAt(speedPercentage) + [JogCommand(Product(requested, direction))]), r, old(driver.wire))
    {
      ghost var inbox0, wire0 := driver.inbox, driver.wire;
      RunScriptAppend(inbox0, PrepareAt(speedPercentage), [JogCommand(Product(requested, direction))]);
      r := Prepare(speedPercentage);
      if r.Err? {
        return;
      }
      ghost var first := RunScript(inbox0, PrepareAt(speedPercentage));
      var finalDirection := Product(requested, direction);
      r := driver.Move(finalDirection);
      ghost var second := RunScript(first.rest, [JogCommand(finalDirection)]);
      AppendTwice(wire0, first.frames, second.frames);
    }

    /** The stop command, whatever the mode. */
    method Stop(mode: StopMode) returns (r: Result<()>)
      modifies driver
      ensures driver.Ran(RunScript(old(driver.inbox), [StopCommand]), r, old(driver.wire))
    {
      r := driver.Stop(mode);
    }

    /** Both software limits to zero, then homing in the configured initialisation direction. */
    method Initialize() returns (r: Result<()>)
      modifies driver
      ensures driver.Ran(RunScript(old(driver.inbox), InitializeScript()), r, old(driver.wire))
    {
      ghost var inbox0, wire0 := driver.inbox, driver.wire;
      RunScriptAppend(inbox0, LimitScript(0, 0), [HomeCommand]);
      r := driver.SetSoftwareLimit(0, 0);
      if r.Err? {
        return;
      }
      ghost var first := RunScript(inbox0, LimitScript(0, 0));
      r := driver.Initialize(initializeDirection);
      ghost var second := RunScript(first.rest, [HomeCommand]);
      AppendTwice(wire0, first.frames, second.frames);
    }

    /** The driver's motion state. */
    method IsInMotion() returns (r: Result<bool>)
      modifies driver
      ensures driver.wire == old(driver.wire) + [Frame(StatusCommand)]
      ensures Step(r, driver.inbox) == MotionQuery(old(driver.inbox))
    {
      r := driver.IsInMotion();
    }

    /** The driver's position in pulses. */
    method GetAbsPosition() returns (r: Result<int>)
      modifies driver
      ensures driver.wire == old(driver.wire) + [Frame(PositionCommand)]
      ensures Step(r, driver.inbox) == PositionQuery(old(driver.inbox))
    {
      r := driver.GetAbsPosition();
    }

    /** The position in millimetres: the pulses converted, divided by the direction, plus the offset. */
    method GetPosition() returns (r: Result<real>)
      requires pulsePerRev != 0
      modifies driver
      ensures driver.wire == old(driver.wire) + [Frame(PositionCommand)]
      ensures var q := PositionQuery(old(driver.inbox));
        driver.inbox == q.rest && (r.Ok? <==> q.result.Ok?) &&
        (r.Ok? ==> r.value == AdjustedMillimetre(q.result.value, displacementPerRev, pulsePerRev, direction, absoluteMillimetre)) &&
        (r.Err? ==> r.fault == q.result.fault)
    {
      var pulse := GetAbsPosition();
      if pulse.Err? {
        return Err(pulse.fault);
      }
      r := Ok(AdjustedMillimetre(pulse.value, displacementPerRev, pulsePerRev, direction, absoluteMillimetre));
    }

    /**
     * The poll loop of the asynchronous moves: ask for the motion state
     * until the axis stops; a timeout when still moving after `timeout`
     * milliseconds; a cancellation when the delay is cancelled. Any failure
     * sends the stop command before it is reported.
     */
    method PollMotion(clock: Clock) returns (r: Result<()>)
      modifies driver
      ensures driver.Ran(Recover(MotionPoll(old(driver.inbox), clock, 0, timeout)), r, old(driver.wire))
    {
      ghost var inbox0, wire0 := driver.inbox, driver.wire;
      ghost var polled: seq<string> := [];
      var k: nat := 0;
      var failure: Result<()> := Ok(());
      while true
        invariant driver.wire == wire0 + polled
        invariant MotionPoll(inbox0, clock, 0, timeout) == After(polled, MotionPoll(driver.inbox, clock, k, timeout))
        decreases Pending(driver.inbox)
      {
        ghost var before := driver.inbox;
        ghost var polledBefore := polled;
        var moving := IsInMotion();
        AppendTwice(wire0, polled, [Frame(StatusCommand)]);
        polled := polled + [Frame(StatusCommand)];
        if moving.Err? {
          failure := Err(moving.fault);
          break;
        }
        if !moving.value {
          break;
        }
        if clock.elapsed(k) > timeout {
          failure := Err(TimedOut);
          break;
        }
        if clock.cancelled(k) {
          failure := Err(Cancelled);
          break;
        }
        AfterTwice(polledBefore, [Frame(StatusCommand)], MotionPoll(driver.inbox, clock, k + 1, timeout));
        k := k + 1;
      }
      ghost var poll := MotionPoll(inbox0, clock, 0, timeout);
      assert poll == Run(failure, polled, driver.inbox);
      r := failure;
      if failure.Err? {
        var stopped := Stop(Immediate);
        ghost var stop := RunScript(poll.rest, [StopCommand]);
        if stopped.Err? {
          r := stopped;
        }
        AppendTwice(wire0, polled, stop.frames);
        assert Recover(poll) == Run(r, polled + stop.frames, stop.rest);
      }
    }

    /**
     * The poll loop of homing: ask for the HOME bit until it is set, with no
     * time limit; a cancellation when the delay is cancelled. Any failure
     * sends the stop command before it is reported.
     */
    method PollHoming(clock: Clock) returns (r: Result<()>)
      modifies driver
      ensures driver.Ran(Recover(HomePoll(old(driver.inbox), clock, 0)), r, old(driver.wire))
    {
      ghost var inbox0, wire0 := driver.inbox, driver.wire;
      ghost var polled: seq<string> := [];
      var k: nat := 0;
      var failure: Result<()> := Ok(());
      while true
        invariant driver.wire == wire0 + polled
        invariant HomePoll(inbox0, clock, 0) == After(polled, HomePoll(driver.inbox, clock, k))
        decreases Pending(driver.inbox)
      {
        ghost var polledBefore := polled;
        var homed := driver.IsInitialized();
        AppendTwice(wire0, polled, [Frame(StatusCommand)]);
        polled := polled + [Frame(StatusCommand)];
        if homed.Err? {
          failure := Err(homed.fault);
          break;
        }
        if homed.value {
          break;
        }
        if clock.cancelled(k) {
          failure := Err(Cancelled);
          break;
        }
        AfterTwice(polledBefore, [Frame(StatusCommand)], HomePoll(driver.inbox, clock, k + 1));
        k := k + 1;
      }
      ghost var poll := HomePoll(inbox0, clock, 0);
      assert poll == Run(failure, polled, driver.inbox);
      r := failure;
      if failure.Err? {
        var stopped := Stop(Immediate);
        ghost var stop := RunScript(poll.rest, [StopCommand]);
        if stopped.Err? {
          r := stopped;
        }
        AppendTwice(wire0, polled, stop.frames);
        assert Recover(poll) == Run(r, polled + stop.frames, stop.rest);
      }
    }

    /** The absolute move, then (when it was accepted) the guarded motion poll. */
    method MoveAbsAsync(millimetre: real, speedPercentage: real, clock: Clock) returns (r: Result<()>)
      requires displacementPerRev != 0.0
      modifies driver
      ensures driver.Ran(WatchMotion(RunScript(old(driver.inbox), PrepareAt(speedPercentage) + MoveAbsScript(TargetOf(millimetre))), clock, timeout), r, old(driver.wire))
    {
      ghost var wire0 := driver.wire;
      r := MoveAbs(millimetre, speedPercentage);
      if r.Err? {
        return;
      }
      ghost var first := RunScript(old(driver.inbox), PrepareAt(speedPercentage) + MoveAbsScript(TargetOf(millimetre)));
      r := PollMotion(clock);
      AppendTwice(wire0, first.frames, Recover(MotionPoll(first.rest, clock, 0, timeout)).frames);
    }

    /** The relative move, then (when it was accepted) the guarded motion poll. */
    method MoveRelAsync(millimetre: real, speedPercentage: real, clock: Clock) returns (r: Result<()>)
      requires displacementPerRev != 0.0
      modifies driver
      ensures driver.Ran(WatchMotion(RunScript(old(driver.inbox), PrepareAt(speedPercentage) + MoveRelScript(DistanceOf(millimetre))), clock, timeout), r, old(driver.wire))
    {
      ghost var wire0 := driver.wire;
      r := MoveRel(millimetre, speedPercentage);
      if r.Err? {
        return;
      }
      ghost var first := RunScript(old(driver.inbox), PrepareAt(speedPercentage) + MoveRelScript(DistanceOf(millimetre)));
      r := PollMotion(clock);
      AppendTwice(wire0, first.frames, Recover(MotionPoll(first.rest, clock, 0, timeout)).frames);
    }

    /** The move to the origin, then (when it was accepted) the guarded motion poll. */
    method MoveOriginAsync(speedPercentage: real, clock: Clock) returns (r: Result<()>)
      modifies driver
      ensures driver.Ran(WatchMotion(RunScript(old(driver.inbox), PrepareAt(speedPercentage) + MoveAbsScript(originPulse)), clock, timeout), r, old(driver.wire))
    {
      ghost var wire0 := driver.wire;
      r := MoveOrigin(speedPercentage);
      if r.Err? {
        return;
      }
      ghost var first := RunScript(old(driver.inbox), PrepareAt(speedPercentage) + MoveAbsScript(originPulse));
      r := PollMotion(clock);
      AppendTwice(wire0, first.frames, Recover(MotionPoll(first.rest, clock, 0, timeout)).frames);
    }

    /** The stop command in the given mode, then (when it was accepted) the guarded motion poll. */
    method StopAsync(mode: StopMode, clock: Clock) returns (r: Result<()>)
      modifies driver
      ensures driver.Ran(WatchMotion(RunScript(old(driver.inbox), [StopCommand]), clock, timeout), r, old(driver.wire))
    {
      ghost var wire0 := driver.wire;
      r := Stop(mode);
      if r.Err? {
        return;
      }
      ghost var first := RunScript(old(driver.inbox), [StopCommand]);
      r := PollMotion(clock);
      AppendTwice(wire0, first.frames, Recover(MotionPoll(first.rest, clock, 0, timeout)).frames);
    }

    /** Homing, then (when it was accepted) the guarded homing poll. */
    method InitializeAsync(clock: Clock) returns (r: Result<()>)
      modifies driver
      ensures driver.Ran(WatchHoming(RunScript(old(driver.inbox), InitializeScript()), clock), r, old(driver.wire))
    {
      ghost var wire0 := driver.wire;
      r := Initialize();
      if r.Err? {
        return;
      }
      ghost var first := RunScript(old(driver.inbox), InitializeScript());
      r := PollHoming(clock);
      AppendTwice(wire0, first.frames, Recover(HomePoll(first.rest, clock, 0)).frames);
    }
  }
}
