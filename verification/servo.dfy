/** The emulator's servo bank: eight servo records and the law by which the
    simulation clock advances one of them per tick (eilik_emulator.py). */
module ServoBank {
  import opened Bytes

  const SERVO_COUNT := 8

  /** A voltage sample `v` as the protocol sees it: `int(v * 10)` (the tenths
      that status records carry) and the bit pattern of `v` as a 32-bit float
      (what `struct.pack('<f', v)` writes). */
  datatype Voltage = Voltage(tenths: byte, single: u32)

  /** 5.0 V: 50 tenths, float32 bit pattern 0x40A00000. */
  const NOMINAL_VOLTAGE := Voltage(50, 0x40A0_0000)

  /** One servo record. Every field the protocol packs into a `B` or `H`
      slot has that width here; the source only ever stores wire values or
      constants into them. */
  datatype ServoState = ServoState(
    id: byte,
    position: u16,
    target: u16,
    speed: byte,
    torque: byte,
    temperature: byte,
    voltage: Voltage,
    status: byte,
    moving: bool)

  /** `ServoState(id=i)` with the dataclass defaults. */
  function DefaultServo(id: byte): ServoState
  {
    ServoState(id, 500, 500, 50, 100, 25, NOMINAL_VOLTAGE, 0, false)
  }

  /** The bank holds exactly eight servos, the one at index i having id i. */
  predicate ValidBank(servos: seq<ServoState>)
  {
    |servos| == SERVO_COUNT && forall i :: 0 <= i < |servos| ==> servos[i].id == i
  }

  function InitialBank(): (b: seq<ServoState>)
    ensures ValidBank(b)
  {
    seq(SERVO_COUNT, i requires 0 <= i < SERVO_COUNT => DefaultServo(i))
  }

  type HeatRise = x: int | 0 <= x <= 2
  type CoolDrop = x: int | 0 <= x <= 1

  /** The random draws one tick makes for one servo: `randint(0, 2)` while
      moving, `randint(0, 1)` while idle, and the resampled voltage. */
  datatype TickDraw = TickDraw(heat: HeatRise, cool: CoolDrop, voltage: Voltage)

  /** Distance covered per tick: `speed // 10`. */
  function StepOf(s: ServoState): nat
  {
    s.speed / 10
  }

  /** The movement half of one tick: a moving servo away from its target
      steps toward it, snapping onto it (and stopping) once within one step. */
  function Move(s: ServoState): (m: ServoState)
    ensures m.target == s.target && m.speed == s.speed && m.id == s.id
    ensures Min(s.position, s.target) <= m.position <= Max(s.position, s.target)
    ensures Abs(m.target - m.position) <= Abs(s.target - s.position)
    ensures m == s.(position := m.position, moving := m.moving)
    ensures !s.moving ==> m == s
  {
    if s.moving && s.position != s.target then
      var diff := s.target - s.position;
      var step := s.speed / 10;
      if Abs(diff) <= step then
        s.(position := s.target, moving := false)
      else
        s.(position := if diff > 0 then s.position + step else s.position - step)
    else
      s
  }

  /** One tick of `_servo_simulation` for one servo: movement, then the
      thermal law (which reads `moving` after the movement step), then the
      voltage resample. */
  function TickServo(s: ServoState, d: TickDraw): (r: ServoState)
    ensures r.position == Move(s).position && r.moving == Move(s).moving
    ensures r.id == s.id && r.target == s.target && r.speed == s.speed
    ensures r.torque == s.torque && r.status == s.status && r.voltage == d.voltage
    ensures r.moving ==> r.temperature <= 80 && r.temperature <= s.temperature + 2
    ensures r.moving && s.temperature <= 80 ==> s.temperature <= r.temperature
    ensures !r.moving ==> 20 <= r.temperature && s.temperature - 1 <= r.temperature
    ensures !r.moving && 20 <= s.temperature ==> r.temperature <= s.temperature
  {
    var m := Move(s);
    var t := if m.moving then Min(80, m.temperature + d.heat) else Max(20, m.temperature - d.cool);
    m.(temperature := t, voltage := d.voltage)
  }

  /** The whole bank after one tick. */
  function TickBank(servos: seq<ServoState>, draws: seq<TickDraw>): (r: seq<ServoState>)
    requires |draws| == |servos|
    ensures |r| == |servos| && forall i :: 0 <= i < |r| ==> r[i] == TickServo(servos[i], draws[i])
  {
    seq(|servos|, i requires 0 <= i < |servos| => TickServo(servos[i], draws[i]))
  }

  lemma TickBankKeepsBankValid(servos: seq<ServoState>, draws: seq<TickDraw>)
    requires ValidBank(servos) && |draws| == |servos|
    ensures ValidBank(TickBank(servos, draws))
  {
  }

  /** One servo after a run of ticks, the last draw applied last. */
  function Ticks(s: ServoState, draws: seq<TickDraw>): ServoState
  {
    if draws == [] then s else TickServo(Ticks(s, draws[..|draws| - 1]), draws[|draws| - 1])
  }

  /** A moving servo away from its target lands on it and stops exactly
      when it is within one step; otherwise it closes the gap by one step. */
  lemma SnapsIffWithinStep(s: ServoState)
    requires s.moving && s.position != s.target
    ensures !Move(s).moving <==> Abs(s.target - s.position) <= StepOf(s)
    ensures !Move(s).moving ==> Move(s).position == s.target
    ensures Move(s).moving ==> Abs(s.target - Move(s).position) == Abs(s.target - s.position) - StepOf(s)
  {
  }

  /** Below speed 10 the step is zero, so a servo short of its target never
      moves and never stops. */
  lemma SlowServoStalls(s: ServoState)
    requires s.speed < 10 && s.position != s.target
    ensures Move(s) == s
  {
  }

  /** A servo already at its target keeps its position and its moving flag:
      a moving one stays moving forever. */
  lemma SettledServoUnchanged(s: ServoState, d: TickDraw)
    requires s.position == s.target
    ensures TickServo(s, d).position == s.position
    ensures TickServo(s, d).moving == s.moving
  {
  }

  /** The thermal law keeps a temperature in [20, 80] once it is there. */
  lemma {:induction false} TemperatureStaysInBand(s: ServoState, draws: seq<TickDraw>)
    requires 20 <= s.temperature <= 80
    ensures 20 <= Ticks(s, draws).temperature <= 80
  {
    if draws != [] {
      TemperatureStaysInBand(s, draws[..|draws| - 1]);
    }
  }

  /** While the remaining distance exceeds k steps, k ticks advance a servo
      moving upward by exactly k steps and it is still moving. */
  lemma {:induction false} ApproachesUpward(s: ServoState, draws: seq<TickDraw>)
    requires s.moving && s.position < s.target
    requires |draws| * StepOf(s) < s.target - s.position
    ensures Ticks(s, draws).moving
    ensures Ticks(s, draws).position == s.position + |draws| * StepOf(s)
    ensures Ticks(s, draws).target == s.target && Ticks(s, draws).speed == s.speed
  {
    if draws != [] {
      var n := |draws|;
      var prefix := draws[..n - 1];
      assert |prefix| * StepOf(s) <= n * StepOf(s) by {
        assert n * StepOf(s) == |prefix| * StepOf(s) + StepOf(s);
      }
      ApproachesUpward(s, prefix);
      var before := Ticks(s, prefix);
      assert before.target - before.position > StepOf(s) by {
        assert n * StepOf(s) == |prefix| * StepOf(s) + StepOf(s);
      }
      assert Ticks(s, draws) == TickServo(before, draws[n - 1]);
      assert Ticks(s, draws).position == before.position + StepOf(s);
    }
  }

  /** From position 0 to target 1000 at speed 100 (ten per tick) a servo
      arrives in exactly 100 ticks: it is still moving after every shorter
      run, and at tick 100 it sits on the target with `moving` cleared. */
  lemma ConvergesInHundredTicks(s: ServoState, draws: seq<TickDraw>)
    requires s.moving && s.position == 0 && s.target == 1000 && s.speed == 100
    requires |draws| == 100
    ensures Ticks(s, draws).position == 1000 && !Ticks(s, draws).moving
    ensures forall k :: 0 <= k < 100 ==> Ticks(s, draws[..k]).moving
  {
    forall k | 0 <= k < 100
      ensures Ticks(s, draws[..k]).moving
    {
      ApproachesUpward(s, draws[..k]);
    }
    ApproachesUpward(s, draws[..99]);
    assert draws[..99] == draws[..|draws| - 1];
  }
}
