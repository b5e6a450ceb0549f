/** The processor thread's alarm debouncing and tagging (app/src/processor.c). */
module Processor {
  import opened Samples

  const DEBOUNCE_ON_COUNT := 3
  const DEBOUNCE_OFF_COUNT := 2

  /** The debouncer's variables and the commands it has sent to the LED driver. */
  datatype Led = Led(on: bool, alarmCnt: nat, clearCnt: nat, commands: seq<bool>)

  const START := Led(false, 0, 0, [])

  function Next(l: Led, alarming: bool): Led {
    if alarming then
      if !l.on && l.alarmCnt + 1 >= DEBOUNCE_ON_COUNT then Led(true, l.alarmCnt + 1, 0, l.commands + [true])
      else Led(l.on, l.alarmCnt + 1, 0, l.commands)
    else
      if l.on && l.clearCnt + 1 >= DEBOUNCE_OFF_COUNT then Led(false, 0, l.clearCnt + 1, l.commands + [false])
      else Led(l.on, 0, l.clearCnt + 1, l.commands)
  }

  /** The state after a history of alarming (true) and normal (false) samples. */
  function After(h: seq<bool>): Led
    decreases |h|
  {
    if h == [] then START else Next(After(h[..|h| - 1]), h[|h| - 1])
  }

  class Debouncer {
    const thresholds: Thresholds
    var sampleCounter: nat
    var ledOn: bool
    var alarmCnt: nat
    var clearCnt: nat
    var ledWrites: seq<bool>
    ghost var history: seq<bool>

    ghost predicate Valid()
      reads this
    {
      After(history) == Led(ledOn, alarmCnt, clearCnt, ledWrites) && sampleCounter == |history|
    }

    constructor (th: Thresholds)
      ensures Valid() && history == [] && thresholds == th
    {
      thresholds := th;
      sampleCounter, ledOn, alarmCnt, clearCnt, ledWrites := 0, false, 0, 0, [];
      history := [];
    }

    /** The counters and the LED, for one more sample. */
    method Debounce(alarming: bool)
      requires Valid()
      modifies this
      ensures Valid() && history == old(history) + [alarming]
    {
      sampleCounter := sampleCounter + 1;
      if alarming {
        alarmCnt := alarmCnt + 1;
        clearCnt := 0;
        if !ledOn && alarmCnt >= DEBOUNCE_ON_COUNT {
          ledWrites := ledWrites + [true];
          ledOn := true;
        }
      } else {
        clearCnt := clearCnt + 1;
        alarmCnt := 0;
        if ledOn && clearCnt >= DEBOUNCE_OFF_COUNT {
          ledWrites := ledWrites + [false];
          ledOn := false;
        }
      }
      history := history + [alarming];
      assert history[..|history| - 1] == old(history);
    }

    /** One sample through the body of the thread loop, up to the push into the store queue: it goes
        on with the bits of the limits it exceeds added to its alarm word, and nothing else. */
    method ProcessOne(raw: Sample) returns (sample: Sample)
      requires Valid()
      modifies this
      ensures Valid() && history == old(history) + [!InRange(raw, thresholds)]
      ensures sample == Tagged(raw, thresholds) && OnlyAlarmsAdded(raw, thresholds, sample)
    {
      sample := raw;
      var alarm := ComputeAlarm(sample, thresholds);
      AlarmBits(sample, thresholds);
      Debounce(alarm != 0);
      if alarm != 0 {
        sample := WithAlarm(sample, alarm);
      } else {
        WithNoAlarm(sample);
      }
      TaggedExactly(raw, thresholds);
    }
  }

  // ---------------------------------------------------------------------------------------
  // What the variables mean
  // ---------------------------------------------------------------------------------------

  /** n is the length of the longest suffix of h in which every entry is v. */
  ghost predicate IsSuffixLength(h: seq<bool>, v: bool, n: nat) {
    n <= |h| && (forall i :: |h| - n <= i < |h| ==> h[i] == v) && (n < |h| ==> h[|h| - n - 1] != v)
  }

  lemma SuffixGrows(h: seq<bool>, last: bool, v: bool, n: nat)
    requires IsSuffixLength(h, v, n)
    ensures IsSuffixLength(h + [last], v, if last == v then n + 1 else 0)
  {
  }

  lemma {:induction false} CountersAreSuffixes(h: seq<bool>)
    ensures IsSuffixLength(h, true, After(h).alarmCnt)
    ensures IsSuffixLength(h, false, After(h).clearCnt)
    decreases |h|
  {
    if h != [] {
      var before, last := h[..|h| - 1], h[|h| - 1];
      CountersAreSuffixes(before);
      SuffixGrows(before, last, true, After(before).alarmCnt);
      SuffixGrows(before, last, false, After(before).clearCnt);
      assert before + [last] == h;
    }
  }

  /** Three consecutive alarming samples starting at i. */
  predicate Triple(h: seq<bool>, i: int) {
    0 <= i && i + 3 <= |h| && h[i] && h[i + 1] && h[i + 2]
  }

  /** No two consecutive normal samples at or after position k. */
  predicate NoNormalPair(h: seq<bool>, k: int) {
    forall j :: 0 <= k <= j < |h| - 1 ==> h[j] || h[j + 1]
  }

  /** The LED is on exactly when some three consecutive alarming samples are not followed by two
      consecutive normal ones. */
  lemma {:induction false} LedCharacterised(h: seq<bool>)
    ensures After(h).on <==> exists i :: Triple(h, i) && NoNormalPair(h, i + 3)
    decreases |h|
  {
    if h != [] {
      var before, last := h[..|h| - 1], h[|h| - 1];
      LedCharacterised(before);
      CountersAreSuffixes(before);
      if After(h).on {
        LedOnHasTriple(h);
      }
      if i :| Triple(h, i) && NoNormalPair(h, i + 3) {
        TripleKeepsLed(h, i);
      }
    }
  }

  lemma LedOnHasTriple(h: seq<bool>)
    requires h != [] && After(h).on
    requires var before := h[..|h| - 1];
      After(before).on ==> exists i :: Triple(before, i) && NoNormalPair(before, i + 3)
    ensures exists i :: Triple(h, i) && NoNormalPair(h, i + 3)
  {
    var before := h[..|h| - 1];
    CountersAreSuffixes(before);
    CountersAreSuffixes(h);
    if After(before).on {
      var i :| Triple(before, i) && NoNormalPair(before, i + 3);
      assert Triple(h, i);
      forall j | i + 3 <= j < |h| - 1
        ensures h[j] || h[j + 1]
      {
        if j < |h| - 2 {
          assert before[j] || before[j + 1];
        }
      }
    } else {
      assert Triple(h, |h| - 3) && NoNormalPair(h, |h|);
    }
  }

  lemma TripleKeepsLed(h: seq<bool>, i: int)
    requires Triple(h, i) && NoNormalPair(h, i + 3)
    requires var before := h[..|h| - 1];
      Triple(before, i) && NoNormalPair(before, i + 3) ==> After(before).on
    ensures After(h).on
  {
    var before := h[..|h| - 1];
    CountersAreSuffixes(before);
    if i + 3 == |h| {
      assert before[|h| - 2] && before[|h| - 3];
    } else {
      assert Triple(before, i);
      forall j | i + 3 <= j < |before| - 1
        ensures before[j] || before[j + 1]
      {
        assert h[j] || h[j + 1];
      }
      if !h[|h| - 1] && i + 3 < |h| - 1 {
        var j := |h| - 2;
        assert i + 3 <= j < |h| - 1;
        assert h[j];
      }
    }
  }

  /** A command goes out exactly when the LED changes, and it is the state it changes to. */
  lemma CommandsFollowLed(h: seq<bool>)
    requires h != []
    ensures
      var before, l := After(h[..|h| - 1]), After(h);
      l.commands == before.commands + if l.on != before.on then [l.on] else []
  {
  }

  // ---------------------------------------------------------------------------------------
  // How often the LED toggles
  // ---------------------------------------------------------------------------------------

  function Count(commands: seq<bool>, v: bool): nat
    decreases |commands|
  {
    if commands == [] then 0
    else Count(commands[..|commands| - 1], v) + if commands[|commands| - 1] == v then 1 else 0
  }

  /** Commands alternate and start with ON, and each costs samples: three alarming ones after the
      last OFF for an ON, two normal ones after it for the OFF. */
  lemma {:induction false} TogglesCostSamples(h: seq<bool>)
    ensures
      var l := After(h);
      var n := |l.commands|;
      (forall k :: 0 <= k < n ==> l.commands[k] == (k % 2 == 0)) &&
      l.on == (n % 2 == 1) &&
      (if l.on then |h| >= 5 * (n / 2) + 3 + l.clearCnt && l.clearCnt < 2
       else |h| >= 5 * (n / 2) + l.alarmCnt && l.alarmCnt < 3)
    decreases |h|
  {
    if h != [] {
      TogglesCostSamples(h[..|h| - 1]);
    }
  }

  lemma {:induction false} AlternatingCounts(commands: seq<bool>)
    requires forall k :: 0 <= k < |commands| ==> commands[k] == (k % 2 == 0)
    ensures Count(commands, true) == (|commands| + 1) / 2 && Count(commands, false) == |commands| / 2
    decreases |commands|
  {
    if commands != [] {
      AlternatingCounts(commands[..|commands| - 1]);
    }
  }

  lemma ToggleRate(h: seq<bool>)
    ensures Count(After(h).commands, true) <= (|h| + 2) / 5
    ensures Count(After(h).commands, false) <= |h| / 5
  {
    TogglesCostSamples(h);
    AlternatingCounts(After(h).commands);
  }

  /** Three alarming samples, two normal ones, and so on, for q rounds and r samples more. */
  function Worst(q: nat, r: nat): (h: seq<bool>)
    requires r < 5
    ensures |h| == 5 * q + r
    decreases q, r
  {
    if r > 0 then Worst(q, r - 1) + [r - 1 < 3]
    else if q > 0 then Worst(q - 1, 4) + [false]
    else []
  }

  lemma {:induction false} WorstState(q: nat, r: nat)
    requires r < 5
    ensures
      var l := After(Worst(q, r));
      l.on == (r >= 3) && (if l.on then l.clearCnt == r - 3 else l.alarmCnt == r) &&
      |l.commands| == 2 * q + (if r >= 3 then 1 else 0)
    decreases q, r
  {
    var h := Worst(q, r);
    if r > 0 {
      WorstState(q, r - 1);
      assert h[..|h| - 1] == Worst(q, r - 1);
    } else if q > 0 {
      WorstState(q - 1, 4);
      assert h[..|h| - 1] == Worst(q - 1, 4);
    }
  }

  /** The rate bound cannot be improved: for every length some history attains both counts. */
  lemma ToggleRateTight(n: nat)
    ensures exists h :: (|h| == n &&
      Count(After(h).commands, true) == (n + 2) / 5 && Count(After(h).commands, false) == n / 5)
  {
    var h := Worst(n / 5, n % 5);
    WorstState(n / 5, n % 5);
    TogglesCostSamples(h);
    AlternatingCounts(After(h).commands);
    assert |h| == n;
  }
}
