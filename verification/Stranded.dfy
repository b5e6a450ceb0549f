/** Runs in which the shutdown loses samples (app/src/main.c). In the first the store thread finds
    store_queue empty and leaves while the processor still has a sample in hand, and the queue is
    closed only after that sample went in: the one sample that EndToEnd.LossAtShutdown allows there.
    In the second the processor stops at its flag and leaves everything in raw_queue. */
module Stranded {
  import opened Samples
  import opened Tables
  import opened Queues
  import opened Sequences
  import opened UploadProtocol
  import opened Pipeline
  import opened Runs

  /** The processor holds the only sample, tagged. */
  function Held(cfg: Config, sample: Sample): State {
    var x := Item(0, sample);
    var q: ItemQueue := Empty(1);
    Start(IDLE).(front := Front([x], ColCheck, q.(accepted := [x], popped := [x]), ProcPush(TagItem(cfg.tag, x)), q))
  }

  /** Both flags are up and the store thread has found store_queue empty. */
  function Leaving(cfg: Config, sample: Sample): State {
    var h := Held(cfg, sample);
    h.(signalled := true, main := STORE_STOPPED, back := h.back.(pc := Count(true)))
  }

  /** Both flags are up, the store thread is done, and the processor has pushed. */
  function Left(cfg: Config, sample: Sample): State {
    var y := TagItem(cfg.tag, Item(0, sample));
    var h := Held(cfg, sample);
    var sq: ItemQueue := h.front.sq.(items := [y], accepted := [y]);
    h.(signalled := true, main := STORE_STOPPED, front := h.front.(proc := ProcCheck, sq := sq),
       back := h.back.(pc := StoreDone))
  }

  lemma ToHeld(cfg: Config, sample: Sample) returns (acts: seq<Action>)
    ensures Execution(cfg, Start(IDLE), acts) == Held(cfg, sample)
  {
    var x, f0 := Item(0, sample), Start(IDLE).front;
    var f1 := f0.(collected := [x], col := ColPush(x));
    var q2: ItemQueue := f0.raw.(items := [x], accepted := [x]);
    var f2 := f1.(raw := q2, col := ColCheck);
    var f3 := f2.(proc := ProcPop);
    acts := [];
    acts := Move(cfg, Start(IDLE), acts, Collect(sample), Start(IDLE).(front := f1));
    acts := Move(cfg, Start(IDLE), acts, Collect(sample), Start(IDLE).(front := f2));
    acts := Move(cfg, Start(IDLE), acts, Process, Start(IDLE).(front := f3));
    assert q2.items[1..] == [];
    acts := Move(cfg, Start(IDLE), acts, Process, Held(cfg, sample));
  }

  /** The store thread leaves while the processor still holds the sample. */
  lemma ToLeaving(cfg: Config, sample: Sample) returns (acts: seq<Action>)
    ensures Execution(cfg, Held(cfg, sample), acts) == Leaving(cfg, sample)
  {
    var s0 := Held(cfg, sample);
    var up := s0.(signalled := true, main := STORE_STOPPED);
    acts := [];
    acts := Move(cfg, s0, acts, Signal, s0.(signalled := true));
    acts := Move(cfg, s0, acts, Main, s0.(signalled := true, main := PROCESSOR_STOPPED));
    acts := Move(cfg, s0, acts, Main, up);
    acts := Move(cfg, s0, acts, Store(true), up.(back := up.back.(pc := DrainCheck)));
    acts := Move(cfg, s0, acts, Store(true), Leaving(cfg, sample));
  }

  lemma ToLeft(cfg: Config, sample: Sample) returns (acts: seq<Action>)
    ensures Execution(cfg, Leaving(cfg, sample), acts) == Left(cfg, sample)
  {
    var s0 := Leaving(cfg, sample);
    acts := [];
    acts := Move(cfg, s0, acts, Process, Left(cfg, sample).(back := s0.back));
    acts := Move(cfg, s0, acts, Store(true), Left(cfg, sample));
  }

  /** All queues closed, all threads joined. */
  function Closing(cfg: Config, sample: Sample, main: nat): State {
    var l := Left(cfg, sample);
    var raw: ItemQueue := Closed(l.front.raw);
    var sq: ItemQueue := Closed(l.front.sq);
    l.(main := main, front := l.front.(col := ColDone, raw := raw, proc := ProcDone, sq := sq))
  }

  lemma ToClosing(cfg: Config, sample: Sample) returns (acts: seq<Action>)
    ensures Execution(cfg, Left(cfg, sample), acts) == Closing(cfg, sample, STORE_CLOSED)
  {
    var s0 := Left(cfg, sample);
    var last := Closing(cfg, sample, STORE_CLOSED);
    var f1 := s0.front.(raw := last.front.raw);
    var f2 := f1.(sq := last.front.sq);
    acts := [];
    acts := Move(cfg, s0, acts, Main, s0.(main := RAW_CLOSED, front := f1));
    acts := Move(cfg, s0, acts, Main, s0.(main := STORE_CLOSED, front := f2));
    acts := Move(cfg, s0, acts, Collect(sample), s0.(main := STORE_CLOSED, front := f2.(col := ColDone)));
    acts := Move(cfg, s0, acts, Process, last);
  }

  lemma ToJoined(cfg: Config, sample: Sample) returns (acts: seq<Action>)
    ensures
      var l := Closing(cfg, sample, UPLOADER_JOINED);
      Execution(cfg, Closing(cfg, sample, STORE_CLOSED), acts) == l.(proto := l.proto.(net := l.proto.net.(pc := Done)))
  {
    var s0 := Closing(cfg, sample, STORE_CLOSED);
    var done := s0.proto.(net := s0.proto.net.(pc := Done));
    acts := [];
    acts := Move(cfg, s0, acts, Main, s0.(main := COLLECTOR_JOINED));
    acts := Move(cfg, s0, acts, Main, s0.(main := PROCESSOR_JOINED));
    acts := Move(cfg, s0, acts, Main, s0.(main := STORE_JOINED));
    acts := Move(cfg, s0, acts, Main, s0.(main := UPLOADER_STOPPED));
    acts := Move(cfg, s0, acts, Upload(Go), s0.(main := UPLOADER_STOPPED, proto := done));
    acts := Move(cfg, s0, acts, Main, s0.(main := UPLOADER_JOINED, proto := done));
  }

  /** The shutdown is not lossless: whatever the configuration and the sample, there is a run in
      which the one sample collected is neither written nor rejected nor overwritten when every
      thread is joined, but left in store_queue. */
  lemma SampleStranded(cfg: Config, sample: Sample) returns (acts: seq<Action>)
    ensures
      var s := Execution(cfg, Start(IDLE), acts);
      s.main == UPLOADER_JOINED && |s.front.collected| == 1 && |s.front.sq.items| == 1 && s.back.written == [] &&
      s.proto.db.rows == map[]
  {
    var a := ToHeld(cfg, sample);
    var b := ToLeaving(cfg, sample);
    var c := ToLeft(cfg, sample);
    var d := ToClosing(cfg, sample);
    var e := ToJoined(cfg, sample);
    Joined(cfg, Start(IDLE), a, b);
    Joined(cfg, Start(IDLE), a + b, c);
    Joined(cfg, Start(IDLE), a + b + c, d);
    Joined(cfg, Start(IDLE), a + b + c + d, e);
    acts := a + b + c + d + e;
  }

  // ---------------------------------------------------------------------------------------
  // A whole raw_queue
  // ---------------------------------------------------------------------------------------

  function Items(samples: seq<Sample>): (items: seq<Item>)
    ensures |items| == |samples|
    decreases |samples|
  {
    if samples == [] then []
    else Items(samples[..|samples| - 1]) + [Item(|samples| - 1, samples[|samples| - 1])]
  }

  /** The samples have been collected and wait in raw_queue. */
  function Waiting(samples: seq<Sample>, rawCapacity: nat, storeCapacity: nat): State
    requires rawCapacity > 0 && storeCapacity > 0
  {
    var raw: ItemQueue := Empty(rawCapacity).(items := Items(samples), accepted := Items(samples));
    var s := Init(Table(map[], 1), map[], rawCapacity, storeCapacity);
    s.(front := s.front.(collected := Items(samples), raw := raw))
  }

  lemma CollectOne(cfg: Config, samples: seq<Sample>, x: Sample, rawCapacity: nat, storeCapacity: nat)
    returns (acts: seq<Action>)
    requires |samples| < rawCapacity && storeCapacity > 0
    ensures
      Execution(cfg, Waiting(samples, rawCapacity, storeCapacity), acts) ==
      Waiting(samples + [x], rawCapacity, storeCapacity)
  {
    var s, item := Waiting(samples, rawCapacity, storeCapacity), Item(|samples|, x);
    assert (samples + [x])[..|samples|] == samples;
    acts := [];
    var taken := s.front.(collected := Items(samples + [x]), col := ColPush(item));
    acts := Move(cfg, s, acts, Collect(x), s.(front := taken));
    acts := Move(cfg, s, acts, Collect(x), Waiting(samples + [x], rawCapacity, storeCapacity));
  }

  lemma CollectNext(cfg: Config, samples: seq<Sample>, init: seq<Sample>, x: Sample,
                    rawCapacity: nat, storeCapacity: nat, before: seq<Action>) returns (acts: seq<Action>)
    requires samples == init + [x] && |samples| <= rawCapacity && storeCapacity > 0
    requires
      Execution(cfg, Init(Table(map[], 1), map[], rawCapacity, storeCapacity), before) ==
      Waiting(init, rawCapacity, storeCapacity)
    ensures
      Execution(cfg, Init(Table(map[], 1), map[], rawCapacity, storeCapacity), acts) ==
      Waiting(samples, rawCapacity, storeCapacity)
  {
    var more := CollectOne(cfg, init, x, rawCapacity, storeCapacity);
    Joined(cfg, Init(Table(map[], 1), map[], rawCapacity, storeCapacity), before, more);
    acts := before + more;
  }

  lemma {:induction false} CollectAll(cfg: Config, samples: seq<Sample>, rawCapacity: nat, storeCapacity: nat)
    returns (acts: seq<Action>)
    requires |samples| <= rawCapacity && rawCapacity > 0 && storeCapacity > 0
    ensures
      Execution(cfg, Init(Table(map[], 1), map[], rawCapacity, storeCapacity), acts) ==
      Waiting(samples, rawCapacity, storeCapacity)
    decreases |samples|
  {
    if samples == [] {
      acts := [];
    } else {
      var init, x := samples[..|samples| - 1], samples[|samples| - 1];
      var before := CollectAll(cfg, init, rawCapacity, storeCapacity);
      LastApart(samples);
      acts := CollectNext(cfg, samples, init, x, rawCapacity, storeCapacity, before);
    }
  }

  /** As many samples as raw_queue can hold can be lost there: whatever the configuration and the
      samples, there is a run in which all of them are left in raw_queue when every thread is joined,
      none overwritten or turned away anywhere, and none written. */
  lemma AllLeftInRaw(cfg: Config, samples: seq<Sample>, last: Sample, rawCapacity: nat, storeCapacity: nat)
    returns (acts: seq<Action>)
    requires |samples| <= rawCapacity && rawCapacity > 0 && storeCapacity > 0
    ensures
      var s := Execution(cfg, Init(Table(map[], 1), map[], rawCapacity, storeCapacity), acts);
      var f := s.front;
      s.main == UPLOADER_JOINED && f.collected == Items(samples) && f.raw.items == f.collected &&
      f.raw.rejected == [] && f.raw.overwritten == [] &&
      f.sq.items == [] && f.sq.rejected == [] && f.sq.overwritten == [] &&
      s.back.written == [] && s.back.failed == []
  {
    var s0, s := Init(Table(map[], 1), map[], rawCapacity, storeCapacity), Waiting(samples, rawCapacity, storeCapacity);
    var a := CollectAll(cfg, samples, rawCapacity, storeCapacity);
    var b := Shut(cfg, s, last);
    var c := LeaveUnconnected(cfg, Stopped(s, UPLOADER_STOPPED));
    Joined(cfg, s0, a, b);
    Joined(cfg, s0, a + b, c);
    acts := a + b + c;
  }
}
