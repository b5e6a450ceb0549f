/** Water samples, how they are acquired (app/src/sample.c, app/src/main.c) and how the processor
    tags them (app/src/processor.c). Measurements are fixed-point: hundredths for pH,
    temperature and turbidity, units for conductivity. */
module Samples {
  import ModbusFrame
  import SR = ShiftRegister

  type Unsigned16 = x: int | 0 <= x < 0x1_0000
  type Signed16 = x: int | -0x8000 <= x < 0x8000
  type Millis = x: int | -0x8000_0000_0000_0000 <= x < 0x8000_0000_0000_0000

  datatype Sample = Sample(
    timestampMs: Millis,
    ph: Unsigned16,
    temperature: Signed16,
    turbidity: Unsigned16,
    conductivity: Unsigned16,
    sensorStatus: bv32,
    alarmStatus: bv32,
    sequence: bv32)

  /** The C cast of an unsigned register value to a signed short. */
  function ToSigned(v: Unsigned16): (x: Signed16)
    ensures (v - x) % 0x1_0000 == 0
  {
    if v < 0x8000 then v else v - 0x1_0000
  }

  function FromRegisters(regs: seq<bv16>, now: Millis): Sample
    requires |regs| >= 7
  {
    Sample(now, regs[0] as int, ToSigned(regs[1] as int), regs[2] as int, regs[3] as int,
           regs[4] as bv32, regs[5] as bv32, regs[6] as bv32)
  }

  function Mock(seqNo: bv32, now: Millis): Sample {
    var n := seqNo as int;
    Sample(now, 700 + n % 20, 2500 + n % 50, 300 + n % 30, 800 + n % 40, 0, 0, seqNo)
  }

  /** The collector's sample source: the static mock counter lives as long as the program. */
  class Acquisition {
    var mockSequence: bv32

    constructor ()
      ensures mockSequence == 0
    {
      mockSequence := 0;
    }

    method GenerateMock(now: Millis) returns (sample: Sample)
      modifies this
      ensures mockSequence == old(mockSequence) + 1
      ensures sample == Mock(mockSequence, now)
    {
      mockSequence := mockSequence + 1;
      var n := mockSequence as int;
      sample := Sample(now, 700 + n % 20, 2500 + n % 50, 300 + n % 30, 800 + n % 40, 0, 0, mockSequence);
    }

    /** One turn of the collect loop: the reply on the line, if it parses to seven registers, is
        the sample; otherwise a mock sample stands in. */
    method Acquire(reply: seq<bv8>, now: Millis) returns (sample: Sample)
      modifies this
      ensures (sample, mockSequence) == Acquired(reply, old(mockSequence), now)
      ensures TakenOrMock(reply, old(mockSequence), now, sample, mockSequence)
    {
      AcquiredExactly(reply, mockSequence, now);
      var regs := ModbusFrame.Parse(reply, 7);
      if regs.Some? && |regs.value| == 7 {
        sample := FromRegisters(regs.value, now);
      } else {
        sample := GenerateMock(now);
      }
    }
  }

  function Acquired(reply: seq<bv8>, mockSequence: bv32, now: Millis): (Sample, bv32) {
    match ModbusFrame.Parse(reply, 7)
    case Some(regs) =>
      if |regs| == 7 then (FromRegisters(regs, now), mockSequence)
      else (Mock(mockSequence + 1, now), mockSequence + 1)
    case None => (Mock(mockSequence + 1, now), mockSequence + 1)
  }

  /** The reply is a response of at least seven registers whose checksum is right. */
  ghost predicate SevenRegisters(reply: seq<bv8>) {
    |reply| >= 19 && reply[1] == 0x03 && |reply| == reply[2] as int + 5 && ModbusFrame.Residue(reply) == SR.ZERO
  }

  /** Which register of the reply becomes which field: the temperature as the signed number that has
      the same sixteen bits, the others as they are. */
  predicate CarriesRegisters(reply: seq<bv8>, now: Millis, s: Sample)
    requires |reply| >= 19
  {
    s.timestampMs == now &&
    s.ph == ModbusFrame.RegisterAt(reply, 0) &&
    (s.temperature - ModbusFrame.RegisterAt(reply, 1)) % 0x1_0000 == 0 &&
    s.turbidity == ModbusFrame.RegisterAt(reply, 2) &&
    s.conductivity == ModbusFrame.RegisterAt(reply, 3) &&
    s.sensorStatus as int == ModbusFrame.RegisterAt(reply, 4) &&
    s.alarmStatus as int == ModbusFrame.RegisterAt(reply, 5) &&
    s.sequence as int == ModbusFrame.RegisterAt(reply, 6)
  }

  /** The sample that stands in for a reply, numbered n: 7.00 to 7.19, 25.00 to 25.49, 3.00 to 3.29
      and 800 to 839, with no status. */
  predicate StandsIn(n: bv32, now: Millis, s: Sample) {
    s.timestampMs == now && s.sequence == n && s.sensorStatus == 0 && s.alarmStatus == 0 &&
    s.ph == 700 + n as int % 20 && s.temperature == 2500 + n as int % 50 &&
    s.turbidity == 300 + n as int % 30 && s.conductivity == 800 + n as int % 40
  }

  /** A reply of seven registers is the sample, and the mock counter stands still; otherwise a mock
      sample stands in, and the counter goes up. */
  ghost predicate TakenOrMock(reply: seq<bv8>, before: bv32, now: Millis, s: Sample, after: bv32) {
    if SevenRegisters(reply) then after == before && CarriesRegisters(reply, now, s)
    else after == before + 1 && StandsIn(after, now, s)
  }

  lemma Widened(w: bv16)
    ensures (w as bv32) as int == w as int
  {
  }

  /** Which of the two it is the frame itself says. */
  lemma AcquiredExactly(reply: seq<bv8>, mockSequence: bv32, now: Millis)
    ensures
      var (s, next) := Acquired(reply, mockSequence, now);
      TakenOrMock(reply, mockSequence, now, s, next)
  {
    ModbusFrame.AcceptedExactly(reply, 7);
    if SevenRegisters(reply) {
      Taken(reply, ModbusFrame.Parse(reply, 7).value, now);
    } else {
      MockStandsIn(mockSequence + 1, now);
    }
  }

  lemma GoodReply(reply: seq<bv8>, mockSequence: bv32, now: Millis) returns (s: Sample)
    requires SevenRegisters(reply)
    ensures s == Acquired(reply, mockSequence, now).0 && CarriesRegisters(reply, now, s)
  {
    s := Acquired(reply, mockSequence, now).0;
    AcquiredExactly(reply, mockSequence, now);
  }

  lemma Taken(reply: seq<bv8>, regs: seq<bv16>, now: Millis)
    requires |reply| >= 19 && |regs| == 7
    requires forall k :: 0 <= k < 7 ==> regs[k] as int == ModbusFrame.RegisterAt(reply, k)
    ensures CarriesRegisters(reply, now, FromRegisters(regs, now))
  {
    SignedBack(regs[1] as int);
    Widened(regs[4]);
    Widened(regs[5]);
    Widened(regs[6]);
  }

  lemma SignedBack(v: Unsigned16)
    ensures (ToSigned(v) - v) % 0x1_0000 == 0
  {
  }

  lemma MockStandsIn(n: bv32, now: Millis)
    ensures StandsIn(n, now, Mock(n, now))
  {
  }

  lemma Carried(reply: seq<bv8>, regs: seq<bv16>, now: Millis, s: Sample)
    requires |reply| >= 19 && |regs| == 7 && CarriesRegisters(reply, now, s)
    requires forall k :: 0 <= k < 7 ==> ModbusFrame.RegisterAt(reply, k) == regs[k] as int
    ensures Carries(regs, now, s)
  {
  }

  /** The same of the registers themselves. */
  predicate Carries(regs: seq<bv16>, now: Millis, s: Sample)
    requires |regs| == 7
  {
    s.timestampMs == now && s.ph == regs[0] as int && (s.temperature - regs[1] as int) % 0x1_0000 == 0 &&
    s.turbidity == regs[2] as int && s.conductivity == regs[3] as int &&
    s.sensorStatus as int == regs[4] as int && s.alarmStatus as int == regs[5] as int &&
    s.sequence as int == regs[6] as int
  }

  /** A reply that encodes seven registers carries those registers. */
  lemma AcquireRoundTrip(regs: seq<bv16>, mockSequence: bv32, now: Millis)
    requires |regs| == 7
    ensures
      var (s, next) := Acquired(ModbusFrame.EncodeResponse(regs), mockSequence, now);
      next == mockSequence && Carries(regs, now, s)
  {
    var reply := ModbusFrame.EncodeResponse(regs);
    ModbusFrame.ResponseExactly(regs);
    AcquiredExactly(reply, mockSequence, now);
    Carried(reply, regs, now, Acquired(reply, mockSequence, now).0);
  }

  // ---------------------------------------------------------------------------------------
  // Alarms
  // ---------------------------------------------------------------------------------------

  datatype Thresholds = Thresholds(phMin: int, phMax: int, tempMax: int, turbMax: int, condMax: int)

  const DEFAULTS := Thresholds(650, 850, 4500, 500, 2000)

  const PH_LOW: bv32 := 1
  const PH_HIGH: bv32 := 2
  const TURB_HIGH: bv32 := 4
  const COND_HIGH: bv32 := 8
  const TEMP_HIGH: bv32 := 16

  function ComputeAlarm(s: Sample, th: Thresholds): bv32 {
    var ph := if s.ph < th.phMin then PH_LOW else if s.ph > th.phMax then PH_HIGH else 0;
    var temp := if s.temperature > th.tempMax then TEMP_HIGH else 0;
    var turb := if s.turbidity > th.turbMax then TURB_HIGH else 0;
    var cond := if s.conductivity > th.condMax then COND_HIGH else 0;
    ph | temp | turb | cond
  }

  predicate InRange(s: Sample, th: Thresholds) {
    th.phMin <= s.ph <= th.phMax && s.temperature <= th.tempMax &&
    s.turbidity <= th.turbMax && s.conductivity <= th.condMax
  }

  function WithAlarm(s: Sample, alarm: bv32): Sample {
    s.(alarmStatus := s.alarmStatus | alarm)
  }

  /** What the processor forwards: the sample with its alarm bits set. */
  function Tagged(s: Sample, th: Thresholds): Sample {
    WithAlarm(s, ComputeAlarm(s, th))
  }

  /** An alarm word bit by bit: bits 0 to 4, and the others as they are. */
  datatype Status =
    Status(phLow: bool, phHigh: bool, turbHigh: bool, condHigh: bool, tempHigh: bool, others: bv32)

  function StatusOf(w: bv32): Status {
    Status(w & 1 != 0, w & 2 != 0, w & 4 != 0, w & 8 != 0, w & 16 != 0, w & 0xFFFF_FFE0)
  }

  const NO_ALARM := Status(false, false, false, false, false, 0)

  /** Each of the five bits is set if it was before or its limit is exceeded, and no other changes. */
  predicate AlarmsAdded(s: Sample, th: Thresholds, before: Status, after: Status) {
    after == Status(before.phLow || s.ph < th.phMin,
                    before.phHigh || (s.ph >= th.phMin && s.ph > th.phMax),
                    before.turbHigh || s.turbidity > th.turbMax,
                    before.condHigh || s.conductivity > th.condMax,
                    before.tempHigh || s.temperature > th.tempMax,
                    before.others)
  }

  /** r is s but for the computed alarm bits. */
  predicate OnlyAlarmsAdded(s: Sample, th: Thresholds, r: Sample) {
    r.timestampMs == s.timestampMs && r.ph == s.ph && r.temperature == s.temperature &&
    r.turbidity == s.turbidity && r.conductivity == s.conductivity &&
    r.sensorStatus == s.sensorStatus && r.sequence == s.sequence &&
    AlarmsAdded(s, th, StatusOf(s.alarmStatus), StatusOf(r.alarmStatus))
  }

  /** Every alarm bit says exactly that its limit is exceeded, no other bit is set, and none is
      exactly when the sample is in range: the bits do not disturb each other. */
  lemma AlarmBits(s: Sample, th: Thresholds)
    ensures AlarmsAdded(s, th, NO_ALARM, StatusOf(ComputeAlarm(s, th)))
    ensures ComputeAlarm(s, th) == 0 <==>
      th.phMin <= s.ph <= th.phMax && s.temperature <= th.tempMax &&
      s.turbidity <= th.turbMax && s.conductivity <= th.condMax
  {
  }

  /** The default limits are 6.50 and 8.50, 45.00, 5.00 and 2000. */
  lemma DefaultLimits(s: Sample)
    ensures ComputeAlarm(s, DEFAULTS) == 0 <==>
      650 <= s.ph <= 850 && s.temperature <= 4500 && s.turbidity <= 500 && s.conductivity <= 2000
  {
    AlarmBits(s, DEFAULTS);
  }

  lemma OrBits(a: bv32, b: bv32)
    ensures
      var s, t := StatusOf(a), StatusOf(b);
      StatusOf(a | b) ==
      Status(s.phLow || t.phLow, s.phHigh || t.phHigh, s.turbHigh || t.turbHigh, s.condHigh || t.condHigh,
             s.tempHigh || t.tempHigh, s.others | t.others)
  {
  }

  lemma NoOthers(w: bv32)
    ensures w | 0 == w
  {
  }

  /** Tagging sets the bits of the limits that are exceeded, and touches nothing else. */
  lemma TaggedExactly(s: Sample, th: Thresholds)
    ensures OnlyAlarmsAdded(s, th, Tagged(s, th))
  {
    AlarmBits(s, th);
    TaggedWith(s, th, ComputeAlarm(s, th));
  }

  lemma TaggedWith(s: Sample, th: Thresholds, alarm: bv32)
    requires AlarmsAdded(s, th, NO_ALARM, StatusOf(alarm))
    ensures OnlyAlarmsAdded(s, th, WithAlarm(s, alarm))
  {
    OrBits(s.alarmStatus, alarm);
    NoOthers(StatusOf(s.alarmStatus).others);
  }


  lemma AlarmIgnoresStatus(s: Sample, status: bv32, th: Thresholds)
    ensures ComputeAlarm(s.(alarmStatus := status), th) == ComputeAlarm(s, th)
  {
  }

  /** Through whatever mask one looks, setting alarm bits shows the bits the sensor reported and the
      new ones, and no other field changes. */
  lemma WithAlarmKeeps(s: Sample, alarm: bv32, mask: bv32)
    ensures WithAlarm(s, alarm).alarmStatus & mask == (s.alarmStatus & mask) | (alarm & mask)
    ensures WithAlarm(s, alarm) == s.(alarmStatus := WithAlarm(s, alarm).alarmStatus)
  {
  }

  lemma WithNoAlarm(s: Sample)
    ensures WithAlarm(s, 0) == s
  {
  }

  lemma WithAlarmOnce(s: Sample, alarm: bv32)
    ensures WithAlarm(WithAlarm(s, alarm), alarm) == WithAlarm(s, alarm)
  {
  }

  /** Tagging looks at the measurements only, so a second tagging adds nothing. */
  lemma TagOnce(s: Sample, th: Thresholds)
    ensures Tagged(Tagged(s, th), th) == Tagged(s, th)
  {
    var alarm := ComputeAlarm(s, th);
    AlarmIgnoresStatus(s, s.alarmStatus | alarm, th);
    WithAlarmOnce(s, alarm);
  }

  lemma MockValues(n: nat)
    ensures 700 <= 700 + n % 20 < 720 && 2500 + n % 50 < 2550 && 300 + n % 30 < 330 && 800 + n % 40 < 840
  {
  }

  /** Falling back to mock samples never raises an alarm with the default thresholds. */
  lemma MockRaisesNoAlarm(seqNo: bv32, now: Millis)
    ensures InRange(Mock(seqNo, now), DEFAULTS) && Tagged(Mock(seqNo, now), DEFAULTS) == Mock(seqNo, now)
  {
    var s := Mock(seqNo, now);
    MockValues(seqNo as int);
    AlarmBits(s, DEFAULTS);
    WithNoAlarm(s);
  }
}
