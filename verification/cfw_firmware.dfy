/** The `CFWFirmware` object (cfw_design.py): its servo entries are updated
    in place and its debug log is appended to and cleared. Each method is
    proved to produce the state and result the functions of module Cfw
    prescribe. */
module CfwFirmware {
  import opened Bytes
  import opened Cfw

  /** Issuing one more write after a sequence of writes. */
  lemma ApplyWritesSnoc(st: CfwState, ws: seq<Write>, w: Write)
    ensures ApplyWrites(st, ws + [w]) == SetServoPosition(ApplyWrites(st, ws), w).state
  {
    assert (ws + [w])[..|ws|] == ws;
  }

  class CFWFirmware {
    var servos: array<CfwServo>
    var debugLog: seq<LogEntry>

    ghost predicate Valid()
      reads this, servos
    {
      ValidServos(servos[..])
    }

    function State(): CfwState
      reads this, servos
    {
      CfwState(servos[..], debugLog)
    }

    /** `CFWFirmware()` with `_init_servos`: eight default entries keyed
        0..7 and an empty log. */
    constructor()
      ensures Valid() && State() == CfwState(InitialServos(), []) && fresh(servos)
    {
      var bank := new CfwServo[CFW_SERVO_COUNT](_ => DefaultCfwServo(0));
      for i := 0 to CFW_SERVO_COUNT
        invariant forall j :: 0 <= j < i ==> bank[j] == DefaultCfwServo(j)
      {
        bank[i] := DefaultCfwServo(i);
      }
      servos := bank;
      debugLog := [];
      assert bank[..] == InitialServos();
    }

    /** `log_debug`; the timestamp and the console echo are not modelled. */
    method LogDebug(level: Level, message: LogMessage)
      modifies this
      ensures servos == old(servos) && debugLog == old(debugLog) + [LogEntry(level, message)]
    {
      debugLog := debugLog + [LogEntry(level, message)];
    }

    /** `set_servo_position`. */
    method SetServoPosition(servoId: int, position: int, speed: int, acceleration: int) returns (ok: bool)
      requires Valid()
      modifies this, servos
      ensures Valid() && servos == old(servos)
      ensures Step(State(), ok) == Cfw.SetServoPosition(old(State()), Write(servoId, position, speed, acceleration))
    {
      if !(0 <= servoId < servos.Length) {
        LogDebug(ERROR, InvalidServoId(servoId));
        return false;
      }
      var servo := servos[servoId];
      if position < servo.limits.min || position > servo.limits.max {
        LogDebug(WARNING, PositionOutOfRange(position, servoId));
        return false;
      }
      var speed, acceleration := speed, acceleration;
      if speed > 100 {
        speed := 100;
      }
      if acceleration > 50 {
        acceleration := 50;
      }
      servos[servoId] := servo.(target := position, speed := speed, acceleration := acceleration, moving := true);
      LogDebug(INFO, TargetSet(servoId, position, speed, acceleration));
      ok := true;
    }

    /** `play_animation`. */
    method PlayAnimation(name: string) returns (ok: bool)
      requires Valid()
      modifies this, servos
      ensures Valid() && servos == old(servos)
      ensures Step(State(), ok) == Cfw.PlayAnimation(old(State()), name)
    {
      if name !in ANIMATIONS {
        LogDebug(ERROR, AnimationNotFound(name));
        return false;
      }
      var animation := ANIMATIONS[name];
      LogDebug(INFO, PlayingAnimation(animation.displayName));
      PlayFrames(animation);
      ok := true;
    }

    /** The frame loop of `play_animation`: one write per keyframe, in list
        order, results ignored. */
    method PlayFrames(animation: Animation)
      requires Valid()
      modifies this, servos
      ensures Valid() && servos == old(servos)
      ensures State() == ApplyWrites(old(State()), AnimationWrites(animation))
    {
      ghost var start := State();
      ghost var ws := AnimationWrites(animation);
      for i := 0 to |animation.frames|
        invariant Valid() && servos == old(servos)
        invariant State() == ApplyWrites(start, ws[..i])
      {
        var frame := animation.frames[i];
        var _ := SetServoPosition(frame.servo, frame.position, 50, 10);
        ApplyWritesSnoc(start, ws[..i], ws[i]);
        assert ws[..i + 1] == ws[..i] + [ws[i]];
      }
      assert ws[..|animation.frames|] == ws;
    }

    /** `set_behavior`, the positions `random.randint` would draw given as
        `picks`. */
    method SetBehavior(name: string, picks: seq<int>) returns (ok: bool)
      requires Valid()
      requires name in BEHAVIORS ==> |picks| == |BEHAVIORS[name].movements|
      modifies this, servos
      ensures Valid() && servos == old(servos)
      ensures Step(State(), ok) == Cfw.SetBehavior(old(State()), name, picks)
    {
      if name !in BEHAVIORS {
        LogDebug(ERROR, BehaviorNotFound(name));
        return false;
      }
      var behavior := BEHAVIORS[name];
      LogDebug(INFO, SettingBehavior(behavior.displayName, behavior.description));
      ApplyMovements(behavior, picks);
      ok := true;
    }

    /** The movement loop of `set_behavior`: one write per movement, at the
        drawn position and the movement's speed. */
    method ApplyMovements(behavior: Behavior, picks: seq<int>)
      requires Valid() && |picks| == |behavior.movements|
      modifies this, servos
      ensures Valid() && servos == old(servos)
      ensures State() == ApplyWrites(old(State()), BehaviorWrites(behavior, picks))
    {
      ghost var start := State();
      ghost var ws := BehaviorWrites(behavior, picks);
      for i := 0 to |behavior.movements|
        invariant Valid() && servos == old(servos)
        invariant State() == ApplyWrites(start, ws[..i])
      {
        var movement := behavior.movements[i];
        var _ := SetServoPosition(movement.servo, picks[i], movement.speed, 10);
        ApplyWritesSnoc(start, ws[..i], ws[i]);
        assert ws[..i + 1] == ws[..i] + [ws[i]];
      }
      assert ws[..|behavior.movements|] == ws;
    }

    /** `custom_move` without its sleeps. */
    method CustomMove(moves: seq<MoveRequest>) returns (ok: bool)
      requires Valid()
      modifies this, servos
      ensures Valid() && servos == old(servos)
      ensures Step(State(), ok) == Cfw.CustomMove(old(State()), moves)
    {
      LogDebug(INFO, CustomMovement(|moves|));
      ghost var start := State();
      for i := 0 to |moves|
        invariant Valid() && servos == old(servos)
        invariant State() == ApplyWrites(start, MoveWrites(moves[..i]))
      {
        var movement := moves[i];
        assert moves[..i + 1][..i] == moves[..i] && moves[..i + 1][i] == movement;
        if movement.servo.Some? {
          var position := OrElse(movement.position, 500);
          var speed := OrElse(movement.speed, 50);
          var _ := SetServoPosition(movement.servo.value, position, speed, 10);
          var w := Write(movement.servo.value, position, speed, 10);
          assert MoveWrites(moves[..i + 1]) == MoveWrites(moves[..i]) + [w];
          ApplyWritesSnoc(start, MoveWrites(moves[..i]), w);
        } else {
          assert MoveWrites(moves[..i + 1]) == MoveWrites(moves[..i]) + [];
          assert MoveWrites(moves[..i]) + [] == MoveWrites(moves[..i]);
        }
      }
      assert moves[..|moves|] == moves;
      ok := true;
    }

    /** `set_safety_limits`: each supplied key is written into the servo's
        entry in turn. */
    method SetSafetyLimits(servoId: int, update: LimitUpdate) returns (ok: bool)
      requires Valid()
      modifies this, servos
      ensures Valid() && servos == old(servos)
      ensures Step(State(), ok) == Cfw.SetSafetyLimits(old(State()), servoId, update)
    {
      if !(0 <= servoId < servos.Length) {
        return false;
      }
      var servo := servos[servoId];
      if update.min.Some? {
        servo := servo.(limits := servo.limits.(min := update.min.value));
      }
      if update.max.Some? {
        servo := servo.(limits := servo.limits.(max := update.max.value));
      }
      if update.maxTemp.Some? {
        servo := servo.(safety := servo.safety.(maxTemp := update.maxTemp.value));
      }
      if update.maxVoltage.Some? {
        servo := servo.(safety := servo.safety.(maxVoltage := update.maxVoltage.value));
      }
      if update.minVoltage.Some? {
        servo := servo.(safety := servo.safety.(minVoltage := update.minVoltage.value));
      }
      servos[servoId] := servo;
      LogDebug(INFO, SafetyLimitsUpdated(servoId));
      ok := true;
    }

    /** `clear_debug_log`. */
    method ClearDebugLog()
      requires Valid()
      modifies this
      ensures Valid() && servos == old(servos)
      ensures State() == Cfw.ClearDebugLog(old(State()))
    {
      debugLog := [];
      LogDebug(INFO, DebugLogCleared);
    }

    /** The moving-servo count of `get_performance_metrics`. */
    method MovingServos() returns (count: nat)
      requires Valid()
      ensures count == CountMoving(servos[..])
      ensures count <= CFW_SERVO_COUNT
    {
      count := 0;
      for i := 0 to servos.Length
        invariant count == CountMoving(servos[..i])
      {
        assert servos[..i + 1][..i] == servos[..i];
        if servos[i].moving {
          count := count + 1;
        }
      }
      assert servos[..servos.Length] == servos[..];
      CountMovingBounds(servos[..]);
    }
  }
}
