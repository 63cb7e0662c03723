/** The custom firmware's servo-control logic as functions of its state
    (cfw_design.py, class `CFWFirmware`): the guarded servo write, the
    animation and behaviour sequencers that issue writes in order, the
    safety-limit editor and the debug log. The class in cfw_firmware.dfy
    performs the same steps in place and is proved against these. */
module Cfw {
  import opened Bytes

  const CFW_SERVO_COUNT := 8

  /** `servo['limits']`: the accepted position range. */
  datatype Limits = Limits(min: int, max: int)

  /** `servo['safety']`; voltages are in tenths of a volt (the value the
      firmware image stores as `int(v * 10)`). */
  datatype Safety = Safety(maxTemp: int, maxVoltage: int, minVoltage: int)

  /** One servo entry of `self.servos`. */
  datatype CfwServo = CfwServo(
    id: int,
    position: int,
    target: int,
    speed: int,
    acceleration: int,
    torque: int,
    temperature: int,
    voltage: int,
    status: int,
    moving: bool,
    limits: Limits,
    safety: Safety)

  /** The entry `_init_servos` creates for servo i. */
  function DefaultCfwServo(i: int): CfwServo
  {
    CfwServo(i, 500, 500, 50, 10, 100, 25, 50, 0, false, Limits(0, 1000), Safety(80, 60, 40))
  }

  /** Eight servos keyed 0..7, in key order. */
  predicate ValidServos(servos: seq<CfwServo>)
  {
    |servos| == CFW_SERVO_COUNT && forall i :: 0 <= i < |servos| ==> servos[i].id == i
  }

  function InitialServos(): (s: seq<CfwServo>)
    ensures ValidServos(s)
  {
    seq(CFW_SERVO_COUNT, i => DefaultCfwServo(i))
  }

  /** The level of a log entry: the three the firmware itself uses, or any
      other level string a caller of `log_debug` passes. */
  datatype Level = INFO | WARNING | ERROR | Named(name: string)

  /** The events `log_debug` records, one constructor per message the
      source formats. */
  datatype LogMessage =
    | InvalidServoId(servo: int)
    | PositionOutOfRange(position: int, servo: int)
    | TargetSet(servo: int, target: int, speed: int, acceleration: int)
    | AnimationNotFound(animation: string)
    | PlayingAnimation(displayName: string)
    | BehaviorNotFound(behavior: string)
    | SettingBehavior(displayName: string, description: string)
    | SafetyLimitsUpdated(servo: int)
    | CustomMovement(steps: nat)
    | DebugLogCleared
    | Note(text: string)  // a message a caller of `log_debug` supplies

  datatype LogEntry = LogEntry(level: Level, message: LogMessage)

  datatype CfwState = CfwState(servos: seq<CfwServo>, log: seq<LogEntry>)

  /** `log_debug`: one entry appended. */
  function Log(st: CfwState, level: Level, message: LogMessage): (r: CfwState)
    ensures r.servos == st.servos && r.log == st.log + [LogEntry(level, message)]
  {
    st.(log := st.log + [LogEntry(level, message)])
  }

  /** The state and the boolean a command returns. */
  datatype Step = Step(state: CfwState, ok: bool)

  // ---- Servo writes ----------------------------------------------------------

  /** The arguments of one `set_servo_position` call. */
  datatype Write = Write(servo: int, position: int, speed: int, acceleration: int)

  /** A write names an existing servo and a position inside its limits. */
  predicate Accepts(st: CfwState, w: Write)
  {
    0 <= w.servo < |st.servos|
    && st.servos[w.servo].limits.min <= w.position <= st.servos[w.servo].limits.max
  }

  /** The servo after an accepted write: new target, speed capped at 100,
      acceleration capped at 50 (neither has a lower bound), moving. */
  function Written(s: CfwServo, w: Write): (r: CfwServo)
    ensures r.target == w.position && r.moving
    ensures r.speed <= 100 && (w.speed <= 100 ==> r.speed == w.speed) && (w.speed > 100 ==> r.speed == 100)
    ensures r.acceleration <= 50 && (w.acceleration <= 50 ==> r.acceleration == w.acceleration)
    ensures w.acceleration > 50 ==> r.acceleration == 50
    ensures r.position == s.position && r.limits == s.limits && r.safety == s.safety && r.id == s.id
    ensures r.torque == s.torque && r.temperature == s.temperature && r.voltage == s.voltage && r.status == s.status
  {
    var speed := if w.speed > 100 then 100 else w.speed;
    var acceleration := if w.acceleration > 50 then 50 else w.acceleration;
    s.(target := w.position, speed := speed, acceleration := acceleration, moving := true)
  }

  /** `set_servo_position`. */
  function SetServoPosition(st: CfwState, w: Write): (r: Step)
    ensures r.ok <==> Accepts(st, w)
    ensures r.state.servos == if r.ok then st.servos[w.servo := Written(st.servos[w.servo], w)] else st.servos
    ensures |r.state.log| == |st.log| + 1 && r.state.log[..|st.log|] == st.log
    ensures r.state.log[|st.log|].level ==
      if !(0 <= w.servo < |st.servos|) then ERROR else if !r.ok then WARNING else INFO
  {
    var id := w.servo;
    if !(0 <= id < |st.servos|) then
      Step(Log(st, ERROR, InvalidServoId(id)), false)
    else
      var s := st.servos[id];
      if w.position < s.limits.min || w.position > s.limits.max then
        Step(Log(st, WARNING, PositionOutOfRange(w.position, id)), false)
      else
        var s' := Written(s, w);
        Step(Log(st.(servos := st.servos[id := s']), INFO, TargetSet(id, w.position, s'.speed, s'.acceleration)), true)
  }

  /** A sequence of writes issued in order, each result ignored. */
  function ApplyWrites(st: CfwState, ws: seq<Write>): (r: CfwState)
    ensures |r.servos| == |st.servos|
  {
    if ws == [] then st else SetServoPosition(ApplyWrites(st, ws[..|ws| - 1]), ws[|ws| - 1]).state
  }

  /** Two servo entries that differ at most in what a write sets. */
  predicate SameButWritten(a: CfwServo, b: CfwServo)
  {
    a == b.(target := a.target, speed := a.speed, acceleration := a.acceleration, moving := a.moving)
  }

  /** Writes change only targets, speeds, accelerations and moving flags,
      never the number of servos or any limit, and log one entry each. */
  lemma {:induction false} ApplyWritesFrame(st: CfwState, ws: seq<Write>)
    ensures var r := ApplyWrites(st, ws);
      && |r.servos| == |st.servos|
      && (forall k :: 0 <= k < |st.servos| ==> SameButWritten(r.servos[k], st.servos[k]))
      && |r.log| == |st.log| + |ws| && r.log[..|st.log|] == st.log
  {
    if ws != [] {
      var prefix := ws[..|ws| - 1];
      ApplyWritesFrame(st, prefix);
      var mid := ApplyWrites(st, prefix);
      assert mid.log[..|st.log|] == st.log;
      var r := ApplyWrites(st, ws);
      assert r.log[..|mid.log|] == mid.log;
      assert r.log[..|st.log|] == mid.log[..|st.log|];
    }
  }

  /** Whether a write is accepted does not depend on the writes before it. */
  lemma AcceptsAfterWrites(st: CfwState, ws: seq<Write>, w: Write)
    ensures Accepts(ApplyWrites(st, ws), w) <==> Accepts(st, w)
  {
    ApplyWritesFrame(st, ws);
    if 0 <= w.servo < |st.servos| {
      assert SameButWritten(ApplyWrites(st, ws).servos[w.servo], st.servos[w.servo]);
    }
  }

  /** The last accepted write to a servo decides its target, speed,
      acceleration and moving flag; everything else about it stays. */
  lemma {:induction false} LastAcceptedWriteWins(st: CfwState, ws: seq<Write>, j: nat)
    requires j < |ws| && Accepts(st, ws[j])
    requires forall i :: j < i < |ws| && ws[i].servo == ws[j].servo ==> !Accepts(st, ws[i])
    ensures ApplyWrites(st, ws).servos[ws[j].servo] == Written(st.servos[ws[j].servo], ws[j])
  {
    var n := |ws|;
    var k := ws[j].servo;
    var prefix := ws[..n - 1];
    var mid := ApplyWrites(st, prefix);
    ApplyWritesFrame(st, prefix);
    AcceptsAfterWrites(st, prefix, ws[n - 1]);
    if j == n - 1 {
      assert SameButWritten(mid.servos[k], st.servos[k]);
    } else {
      assert prefix[j] == ws[j];
      LastAcceptedWriteWins(st, prefix, j);
    }
  }

  /** A servo no accepted write names keeps its entry exactly. */
  lemma {:induction false} UnwrittenServoUnchanged(st: CfwState, ws: seq<Write>, k: int)
    requires 0 <= k < |st.servos|
    requires forall i :: 0 <= i < |ws| && ws[i].servo == k ==> !Accepts(st, ws[i])
    ensures ApplyWrites(st, ws).servos[k] == st.servos[k]
  {
    if ws != [] {
      var prefix := ws[..|ws| - 1];
      UnwrittenServoUnchanged(st, prefix, k);
      ApplyWritesFrame(st, prefix);
      AcceptsAfterWrites(st, prefix, ws[|ws| - 1]);
    }
  }

  /** A rejected write leaves every servo as it was; only the log grows. */
  lemma RejectedWriteChangesNoServo(st: CfwState, w: Write)
    requires !Accepts(st, w)
    ensures SetServoPosition(st, w).state.servos == st.servos
    ensures SetServoPosition(st, w).state.log == st.log + [SetServoPosition(st, w).state.log[|st.log|]]
  {
  }

  /** Repeating an accepted write changes no servo further. */
  lemma RepeatedWriteIdempotent(st: CfwState, w: Write)
    requires Accepts(st, w)
    ensures var once := SetServoPosition(st, w).state;
      SetServoPosition(once, w).state.servos == once.servos
  {
  }

  // ---- Animations ------------------------------------------------------------

  /** One keyframe; its `time` field is never read by `play_animation`. */
  datatype Keyframe = Keyframe(servo: int, position: int)

  datatype Animation = Animation(displayName: string, frames: seq<Keyframe>)

  const WAVE := Animation("Wave", [Keyframe(0, 800), Keyframe(0, 200), Keyframe(0, 500)])

  const DANCE := Animation("Dance", [
    Keyframe(0, 700), Keyframe(1, 300), Keyframe(2, 600), Keyframe(3, 400),
    Keyframe(0, 300), Keyframe(1, 700), Keyframe(2, 400), Keyframe(3, 600),
    Keyframe(0, 500), Keyframe(1, 500), Keyframe(2, 500), Keyframe(3, 500)])

  const STRETCH := Animation("Stretch", [
    Keyframe(0, 900), Keyframe(1, 100), Keyframe(0, 500), Keyframe(1, 500),
    Keyframe(2, 900), Keyframe(3, 100), Keyframe(2, 500), Keyframe(3, 500)])

  /** The table `_init_animations` builds. */
  const ANIMATIONS: map<string, Animation> := map["wave" := WAVE, "dance" := DANCE, "stretch" := STRETCH]

  /** The writes `play_animation` issues: one per keyframe, in list order,
      with the default speed 50 and acceleration 10. */
  function AnimationWrites(a: Animation): (ws: seq<Write>)
    ensures |ws| == |a.frames|
    ensures forall i :: 0 <= i < |ws| ==>
      ws[i].servo == a.frames[i].servo && ws[i].position == a.frames[i].position
      && ws[i].speed == 50 && ws[i].acceleration == 10
  {
    seq(|a.frames|, i requires 0 <= i < |a.frames| => Write(a.frames[i].servo, a.frames[i].position, 50, 10))
  }

  /** `play_animation`: true for any known name, whatever its writes did. */
  function PlayAnimation(st: CfwState, name: string): (r: Step)
    ensures r.ok <==> name in ANIMATIONS
    ensures |r.state.servos| == |st.servos|
    ensures !r.ok ==> r.state.servos == st.servos
  {
    if name !in ANIMATIONS then
      Step(Log(st, ERROR, AnimationNotFound(name)), false)
    else
      var a := ANIMATIONS[name];
      Step(ApplyWrites(Log(st, INFO, PlayingAnimation(a.displayName)), AnimationWrites(a)), true)
  }

  /** Servos 0..3 with limits that admit every keyframe position. */
  predicate WideLimits(st: CfwState)
  {
    |st.servos| >= 4
    && forall k :: 0 <= k < 4 ==> st.servos[k].limits.min <= 100 && 900 <= st.servos[k].limits.max
  }

  /** Some keyframe of the animation names servo k. */
  predicate Moves(a: Animation, k: int)
  {
    exists i :: 0 <= i < |a.frames| && a.frames[i].servo == k
  }

  /** Every built-in animation leaves each servo it moves with target 500
      (speed 50, acceleration 10, moving) and every other servo untouched. */
  lemma AnimationsEndCentred(st: CfwState, name: string)
    requires name in ANIMATIONS && WideLimits(st)
    ensures var r := PlayAnimation(st, name).state;
      forall k :: 0 <= k < |st.servos| ==>
        r.servos[k] == if Moves(ANIMATIONS[name], k)
                       then st.servos[k].(target := 500, speed := 50, acceleration := 10, moving := true)
                       else st.servos[k]
  {
    forall k | 0 <= k < |st.servos| {
      AnimationServoEnd(st, name, k);
    }
  }

  lemma AnimationServoEnd(st: CfwState, name: string, k: int)
    requires name in ANIMATIONS && WideLimits(st) && 0 <= k < |st.servos|
    ensures PlayAnimation(st, name).state.servos[k] ==
      if Moves(ANIMATIONS[name], k)
      then st.servos[k].(target := 500, speed := 50, acceleration := 10, moving := true)
      else st.servos[k]
  {
    var a := ANIMATIONS[name];
    var logged := Log(st, INFO, PlayingAnimation(a.displayName));
    var ws := AnimationWrites(a);
    assert PlayAnimation(st, name).state == ApplyWrites(logged, ws);
    if name == "wave" {
      WaveEnd(logged, k);
    } else if name == "dance" {
      DanceEnd(logged, k);
    } else {
      StretchEnd(logged, k);
    }
  }

  // The closing keyframes of each animation put 500 on each servo it moves:
  // keyframe 2 of "wave", 8..11 of "dance", 2, 3, 6 and 7 of "stretch".

  lemma WaveEnd(st: CfwState, k: int)
    requires WideLimits(st) && 0 <= k < |st.servos|
    ensures ApplyWrites(st, AnimationWrites(WAVE)).servos[k] ==
      if Moves(WAVE, k) then st.servos[k].(target := 500, speed := 50, acceleration := 10, moving := true)
      else st.servos[k]
  {
    if k == 0 {
      ClosingKeyframeDecides(st, WAVE, 2);
    } else {
      UnwrittenServoUnchanged(st, AnimationWrites(WAVE), k);
    }
  }

  lemma DanceEnd(st: CfwState, k: int)
    requires WideLimits(st) && 0 <= k < |st.servos|
    ensures ApplyWrites(st, AnimationWrites(DANCE)).servos[k] ==
      if Moves(DANCE, k) then st.servos[k].(target := 500, speed := 50, acceleration := 10, moving := true)
      else st.servos[k]
  {
    if k < 4 {
      assert Moves(DANCE, k) by {
        assert DANCE.frames[k].servo == k;
      }
      DanceMovedEnd(st, k);
    } else {
      UnwrittenServoUnchanged(st, AnimationWrites(DANCE), k);
    }
  }

  lemma DanceMovedEnd(st: CfwState, k: int)
    requires WideLimits(st) && 0 <= k < 4 && k < |st.servos|
    ensures ApplyWrites(st, AnimationWrites(DANCE)).servos[k] ==
      st.servos[k].(target := 500, speed := 50, acceleration := 10, moving := true)
  {
    assert DANCE.frames[8 + k].servo == k && DANCE.frames[8 + k].position == 500;
    ClosingKeyframeDecides(st, DANCE, 8 + k);
  }

  lemma StretchEnd(st: CfwState, k: int)
    requires WideLimits(st) && 0 <= k < |st.servos|
    ensures ApplyWrites(st, AnimationWrites(STRETCH)).servos[k] ==
      if Moves(STRETCH, k) then st.servos[k].(target := 500, speed := 50, acceleration := 10, moving := true)
      else st.servos[k]
  {
    if k < 4 {
      assert Moves(STRETCH, k) by {
        var i := if k < 2 then k else k + 2;
        assert STRETCH.frames[i].servo == k;
      }
      StretchMovedEnd(st, k);
    } else {
      UnwrittenServoUnchanged(st, AnimationWrites(STRETCH), k);
    }
  }

  lemma StretchMovedEnd(st: CfwState, k: int)
    requires WideLimits(st) && 0 <= k < 4 && k < |st.servos|
    ensures ApplyWrites(st, AnimationWrites(STRETCH)).servos[k] ==
      st.servos[k].(target := 500, speed := 50, acceleration := 10, moving := true)
  {
    var j := if k < 2 then 2 + k else 4 + k;
    assert STRETCH.frames[j].servo == k && STRETCH.frames[j].position == 500;
    ClosingKeyframeDecides(st, STRETCH, j);
  }

  /** Within an animation whose keyframes all lie inside the limits, the
      last keyframe naming a servo decides where that servo ends. */
  lemma ClosingKeyframeDecides(st: CfwState, a: Animation, j: nat)
    requires WideLimits(st)
    requires forall i :: 0 <= i < |a.frames| ==> 0 <= a.frames[i].servo < 4 && 100 <= a.frames[i].position <= 900
    requires j < |a.frames| && forall i :: j < i < |a.frames| ==> a.frames[i].servo != a.frames[j].servo
    ensures var k := a.frames[j].servo;
      ApplyWrites(st, AnimationWrites(a)).servos[k] ==
      st.servos[k].(target := a.frames[j].position, speed := 50, acceleration := 10, moving := true)
  {
    LastAcceptedWriteWins(st, AnimationWrites(a), j);
  }

  // ---- Behaviours ------------------------------------------------------------

  /** One `servo_movements` entry: a servo, an inclusive position range and
      a speed. */
  datatype Movement = Movement(servo: int, lo: int, hi: int, speed: int)

  datatype Behavior = Behavior(displayName: string, description: string, movements: seq<Movement>)

  /** The table `_init_behaviors` builds. */
  const BEHAVIORS: map<string, Behavior> := map[
    "idle" := Behavior("Idle", "Gentle idle movement",
      [Movement(0, 450, 550, 10), Movement(1, 450, 550, 15), Movement(2, 450, 550, 12)]),
    "curious" := Behavior("Curious", "Looking around behavior",
      [Movement(0, 300, 700, 20), Movement(1, 200, 800, 25)]),
    "sleepy" := Behavior("Sleepy", "Slow, sleepy movements",
      [Movement(0, 400, 600, 5), Movement(1, 400, 600, 5)])
  ]

  /** Positions `random.randint(lo, hi)` may return for each movement. */
  predicate ValidPicks(b: Behavior, picks: seq<int>)
  {
    |picks| == |b.movements|
    && forall i :: 0 <= i < |picks| ==> b.movements[i].lo <= picks[i] <= b.movements[i].hi
  }

  /** The writes `set_behavior` issues: the drawn position and the entry's
      speed, default acceleration 10. */
  function BehaviorWrites(b: Behavior, picks: seq<int>): (ws: seq<Write>)
    requires |picks| == |b.movements|
    ensures |ws| == |b.movements|
    ensures forall i :: 0 <= i < |ws| ==>
      ws[i].servo == b.movements[i].servo && ws[i].position == picks[i]
      && ws[i].speed == b.movements[i].speed && ws[i].acceleration == 10
  {
    seq(|picks|, i requires 0 <= i < |picks| => Write(b.movements[i].servo, picks[i], b.movements[i].speed, 10))
  }

  /** `set_behavior`, with the random positions supplied as `picks`, one per
      movement of the named behaviour. */
  function SetBehavior(st: CfwState, name: string, picks: seq<int>): (r: Step)
    requires name in BEHAVIORS ==> |picks| == |BEHAVIORS[name].movements|
    ensures r.ok <==> name in BEHAVIORS
    ensures |r.state.servos| == |st.servos|
    ensures !r.ok ==> r.state.servos == st.servos
  {
    if name !in BEHAVIORS then
      Step(Log(st, ERROR, BehaviorNotFound(name)), false)
    else
      var b := BEHAVIORS[name];
      Step(ApplyWrites(Log(st, INFO, SettingBehavior(b.displayName, b.description)), BehaviorWrites(b, picks)), true)
  }

  /** Under the default limits each movement's servo ends with a target in
      the movement's range (the drawn one) and with the movement's speed. */
  lemma BehaviorTargetsInRange(st: CfwState, name: string, picks: seq<int>, i: nat)
    requires name in BEHAVIORS && ValidPicks(BEHAVIORS[name], picks)
    requires |st.servos| >= 3
    requires forall k :: 0 <= k < 3 ==> st.servos[k].limits == Limits(0, 1000)
    requires i < |BEHAVIORS[name].movements|
    ensures var m := BEHAVIORS[name].movements[i];
      var s := SetBehavior(st, name, picks).state.servos[m.servo];
      && m.lo <= s.target <= m.hi && s.target == picks[i]
      && s.speed == m.speed && s.moving
  {
    var b := BEHAVIORS[name];
    var logged := Log(st, INFO, SettingBehavior(b.displayName, b.description));
    var ws := BehaviorWrites(b, picks);
    assert forall x, y :: 0 <= x < y < |ws| ==> ws[x].servo != ws[y].servo;
    LastAcceptedWriteWins(logged, ws, i);
  }

  // ---- Custom moves ----------------------------------------------------------

  /** One `custom_move` entry; absent keys are None. Its `delay` only
      sleeps. */
  datatype MoveRequest = MoveRequest(servo: Option<int>, position: Option<int>, speed: Option<int>)

  function OrElse(o: Option<int>, default: int): int
  {
    if o.Some? then o.value else default
  }

  /** The writes `custom_move` issues: one per entry that names a servo, in
      order, position defaulting to 500, speed to 50, acceleration 10. */
  function MoveWrites(moves: seq<MoveRequest>): (ws: seq<Write>)
    ensures |ws| <= |moves|
  {
    if moves == [] then []
    else
      var m := moves[|moves| - 1];
      MoveWrites(moves[..|moves| - 1])
        + if m.servo.Some? then [Write(m.servo.value, OrElse(m.position, 500), OrElse(m.speed, 50), 10)] else []
  }

  /** Entries without a servo issue nothing; every other entry issues
      exactly its own write. */
  lemma {:induction false} MoveWritesSkipsAnonymous(moves: seq<MoveRequest>)
    ensures |MoveWrites(moves)| == |set i | 0 <= i < |moves| && moves[i].servo.Some?|
    ensures (forall i :: 0 <= i < |moves| ==> moves[i].servo.None?) ==> MoveWrites(moves) == []
  {
    if moves != [] {
      var n := |moves|;
      var prefix := moves[..n - 1];
      MoveWritesSkipsAnonymous(prefix);
      var named := set i | 0 <= i < n && moves[i].servo.Some?;
      var namedBefore := set i | 0 <= i < n - 1 && prefix[i].servo.Some?;
      if moves[n - 1].servo.Some? {
        assert named == namedBefore + {n - 1};
      } else {
        assert named == namedBefore;
      }
    }
  }

  /** The number of entries that name a servo. */
  function NamedCount(moves: seq<MoveRequest>): nat
  {
    if moves == [] then 0
    else NamedCount(moves[..|moves| - 1]) + (if moves[|moves| - 1].servo.Some? then 1 else 0)
  }

  /** Entry i, when it names a servo, issues the write that follows those of
      the named entries before it: position 500 and speed 50 when absent,
      acceleration 10. */
  lemma {:induction false} MoveWriteOfEntry(moves: seq<MoveRequest>, i: nat)
    requires i < |moves| && moves[i].servo.Some?
    ensures |MoveWrites(moves)| == NamedCount(moves)
    ensures NamedCount(moves[..i]) < |MoveWrites(moves)|
    ensures MoveWrites(moves)[NamedCount(moves[..i])] ==
      Write(moves[i].servo.value, OrElse(moves[i].position, 500), OrElse(moves[i].speed, 50), 10)
  {
    var n := |moves|;
    var prefix := moves[..n - 1];
    MoveWritesCount(prefix);
    if i == n - 1 {
      assert moves[..i] == prefix;
    } else {
      assert prefix[..i] == moves[..i] && prefix[i] == moves[i];
      MoveWriteOfEntry(prefix, i);
    }
  }

  /** One write per entry that names a servo. */
  lemma {:induction false} MoveWritesCount(moves: seq<MoveRequest>)
    ensures |MoveWrites(moves)| == NamedCount(moves)
  {
    if moves != [] {
      MoveWritesCount(moves[..|moves| - 1]);
    }
  }

  /** When no entry from `from` on names servo k, no write issued for those
      entries names it either. */
  lemma {:induction false} NoLaterWriteNames(moves: seq<MoveRequest>, from: nat, k: int)
    requires from <= |moves|
    requires forall i :: from <= i < |moves| ==> moves[i].servo != Some(k)
    ensures forall x :: NamedCount(moves[..from]) <= x < |MoveWrites(moves)| ==> MoveWrites(moves)[x].servo != k
  {
    var n := |moves|;
    if n == from {
      assert moves[..from] == moves;
      MoveWritesCount(moves);
    } else {
      var prefix := moves[..n - 1];
      assert prefix[..from] == moves[..from];
      NoLaterWriteNames(prefix, from, k);
      MoveWritesCount(prefix);
    }
  }

  /** `custom_move`: logs the step count, issues the writes, returns true. */
  function CustomMove(st: CfwState, moves: seq<MoveRequest>): (r: Step)
    ensures r.ok
    ensures |r.state.servos| == |st.servos|
  {
    var logged := Log(st, INFO, CustomMovement(|moves|));
    ApplyWritesFrame(logged, MoveWrites(moves));
    Step(ApplyWrites(logged, MoveWrites(moves)), true)
  }

  /** `custom_move` logs its step count first and then one entry per entry
      that names a servo. */
  lemma CustomMoveLog(st: CfwState, moves: seq<MoveRequest>)
    ensures var r := CustomMove(st, moves).state;
      && |r.log| == |st.log| + 1 + NamedCount(moves)
      && r.log[..|st.log| + 1] == st.log + [LogEntry(INFO, CustomMovement(|moves|))]
  {
    var logged := Log(st, INFO, CustomMovement(|moves|));
    ApplyWritesFrame(logged, MoveWrites(moves));
    MoveWritesCount(moves);
  }

  /** A servo that no entry names keeps its entry exactly. */
  lemma CustomMoveLeavesUnnamedServo(st: CfwState, moves: seq<MoveRequest>, k: int)
    requires 0 <= k < |st.servos|
    requires forall i :: 0 <= i < |moves| ==> moves[i].servo != Some(k)
    ensures CustomMove(st, moves).state.servos[k] == st.servos[k]
  {
    var logged := Log(st, INFO, CustomMovement(|moves|));
    assert moves[..0] == [];
    NoLaterWriteNames(moves, 0, k);
    UnwrittenServoUnchanged(logged, MoveWrites(moves), k);
  }

  /** The last entry naming a servo decides where it ends when its position
      is inside the servo's limits: its target, its speed (default 50,
      capped at 100), acceleration 10, moving. */
  lemma CustomMoveLastEntryDecides(st: CfwState, moves: seq<MoveRequest>, j: nat)
    requires j < |moves| && moves[j].servo.Some?
    requires 0 <= moves[j].servo.value < |st.servos|
    requires st.servos[moves[j].servo.value].limits.min <= OrElse(moves[j].position, 500)
      <= st.servos[moves[j].servo.value].limits.max
    requires forall i :: j < i < |moves| ==> moves[i].servo != moves[j].servo
    ensures CustomMove(st, moves).state.servos[moves[j].servo.value] ==
      Written(st.servos[moves[j].servo.value],
              Write(moves[j].servo.value, OrElse(moves[j].position, 500), OrElse(moves[j].speed, 50), 10))
  {
    var k := moves[j].servo.value;
    var logged := Log(st, INFO, CustomMovement(|moves|));
    var ws := MoveWrites(moves);
    var x := NamedCount(moves[..j]);
    MoveWriteOfEntry(moves, j);
    NoLaterWriteNames(moves, j + 1, k);
    assert moves[..j + 1] == moves[..j] + [moves[j]];
    assert moves[..j + 1][..j] == moves[..j];
    assert NamedCount(moves[..j + 1]) == x + 1;
    LastAcceptedWriteWins(logged, ws, x);
  }

  // ---- Safety limits ---------------------------------------------------------

  /** The keys a `set_safety_limits` dictionary may carry; None for absent. */
  datatype LimitUpdate = LimitUpdate(
    min: Option<int>,
    max: Option<int>,
    maxTemp: Option<int>,
    maxVoltage: Option<int>,
    minVoltage: Option<int>)

  /** `set_safety_limits`: an unknown servo is refused without a log entry;
      otherwise exactly the supplied keys are overwritten, with no check
      that min <= max. */
  function SetSafetyLimits(st: CfwState, id: int, u: LimitUpdate): (r: Step)
    ensures r.ok <==> 0 <= id < |st.servos|
    ensures !r.ok ==> r.state == st
    ensures r.ok ==>
      && |r.state.servos| == |st.servos|
      && r.state.log == st.log + [LogEntry(INFO, SafetyLimitsUpdated(id))]
      && (forall k :: 0 <= k < |st.servos| && k != id ==> r.state.servos[k] == st.servos[k])
  {
    if !(0 <= id < |st.servos|) then Step(st, false)
    else
      var s := st.servos[id];
      var limits := Limits(OrElse(u.min, s.limits.min), OrElse(u.max, s.limits.max));
      var safety := Safety(OrElse(u.maxTemp, s.safety.maxTemp), OrElse(u.maxVoltage, s.safety.maxVoltage),
                           OrElse(u.minVoltage, s.safety.minVoltage));
      Step(Log(st.(servos := st.servos[id := s.(limits := limits, safety := safety)]), INFO, SafetyLimitsUpdated(id)), true)
  }

  /** Each supplied key takes its new value, each absent key keeps the old
      one, and nothing but the limits and safety of that servo changes. */
  lemma SafetyLimitsOverwriteSuppliedKeys(st: CfwState, id: int, u: LimitUpdate)
    requires 0 <= id < |st.servos|
    ensures var s := SetSafetyLimits(st, id, u).state.servos[id];
      var old_ := st.servos[id];
      && s == old_.(limits := s.limits, safety := s.safety)
      && s.limits.min == (if u.min.Some? then u.min.value else old_.limits.min)
      && s.limits.max == (if u.max.Some? then u.max.value else old_.limits.max)
      && s.safety.maxTemp == (if u.maxTemp.Some? then u.maxTemp.value else old_.safety.maxTemp)
      && s.safety.maxVoltage == (if u.maxVoltage.Some? then u.maxVoltage.value else old_.safety.maxVoltage)
      && s.safety.minVoltage == (if u.minVoltage.Some? then u.minVoltage.value else old_.safety.minVoltage)
  {
  }

  /** Limits with min above max are stored as given, after which that servo
      refuses every position. */
  lemma InvertedLimitsRefuseEveryPosition(st: CfwState, id: int, lo: int, hi: int, w: Write)
    requires 0 <= id < |st.servos| && hi < lo && w.servo == id
    ensures var r := SetSafetyLimits(st, id, LimitUpdate(Some(lo), Some(hi), None, None, None));
      r.ok && !SetServoPosition(r.state, w).ok
  {
  }

  // ---- Debug log -------------------------------------------------------------

  /** `get_debug_log(limit)`: `debug_log[-limit:]` for a positive limit,
      the whole log otherwise. */
  function DebugTail(log: seq<LogEntry>, limit: int): (r: seq<LogEntry>)
    ensures |r| == if limit > 0 then Min(limit, |log|) else |log|
    ensures log == log[..|log| - |r|] + r
  {
    if limit > 0 then log[|log| - Min(limit, |log|)..] else log
  }

  /** `clear_debug_log`: the log is emptied and the clearing itself is
      logged, so exactly one entry remains. */
  function ClearDebugLog(st: CfwState): (r: CfwState)
    ensures r.servos == st.servos && |r.log| == 1 && r.log[0] == LogEntry(INFO, DebugLogCleared)
  {
    Log(st.(log := []), INFO, DebugLogCleared)
  }

  // ---- Metrics ---------------------------------------------------------------

  /** `moving_servos` of `get_performance_metrics`. */
  function CountMoving(servos: seq<CfwServo>): nat
  {
    if servos == [] then 0
    else CountMoving(servos[..|servos| - 1]) + if servos[|servos| - 1].moving then 1 else 0
  }

  /** The moving count is at most the number of servos; it is zero exactly
      when none moves and full exactly when all move. */
  lemma {:induction false} CountMovingBounds(servos: seq<CfwServo>)
    ensures CountMoving(servos) <= |servos|
    ensures CountMoving(servos) == 0 <==> forall k :: 0 <= k < |servos| ==> !servos[k].moving
    ensures CountMoving(servos) == |servos| <==> forall k :: 0 <= k < |servos| ==> servos[k].moving
  {
    if servos != [] {
      var prefix := servos[..|servos| - 1];
      CountMovingBounds(prefix);
      assert forall k :: 0 <= k < |prefix| ==> prefix[k] == servos[k];
    }
  }
}
