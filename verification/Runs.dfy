/** Pieces of runs that the concrete runs share: putting actions together, storing one sample, and
    shutting everything but the uploader down. */
module Runs {
  import opened Samples
  import opened Tables
  import opened Queues
  import opened UploadProtocol
  import opened Pipeline

  lemma Move(cfg: Config, s: State, acts: seq<Action>, a: Action, t: State) returns (more: seq<Action>)
    requires Next(cfg, Execution(cfg, s, acts), a) == t
    ensures more == acts + [a] && Execution(cfg, s, more) == t
  {
    more := acts + [a];
    assert more[..|acts|] == acts;
  }

  lemma {:induction false} Joined(cfg: Config, s: State, a: seq<Action>, b: seq<Action>)
    ensures Execution(cfg, s, a + b) == Execution(cfg, Execution(cfg, s, a), b)
    decreases |b|
  {
    if b == [] {
      assert a + b == a;
    } else {
      assert (a + b)[..|a + b| - 1] == a + b[..|b| - 1];
      Joined(cfg, s, a, b[..|b| - 1]);
    }
  }

  lemma Resumed(cfg: Config, s: State, acts: seq<Action>, n: nat)
    requires n <= |acts|
    ensures Execution(cfg, s, acts) == Execution(cfg, Execution(cfg, s, acts[..n]), acts[n..])
  {
    Joined(cfg, s, acts[..n], acts[n..]);
    assert acts[..n] + acts[n..] == acts;
  }

  /** No thread has anything in hand, store_queue is empty, and a trim finds nothing to do. */
  predicate Resting(cfg: Config, s: State) {
    s.main == 0 && s.front.col.ColCheck? && s.front.proc.ProcCheck? && s.front.sq.items == [] &&
    s.back.pc.StoreCheck? && (cfg.maxCache <= 0 || |s.proto.db.rows| <= cfg.maxCache)
  }

  /** The same with all threads but the uploader stopped and both queues closed. */
  function Stopped(s: State, main: nat): State {
    var raw: ItemQueue := Closed(s.front.raw);
    var sq: ItemQueue := Closed(s.front.sq);
    s.(signalled := true, main := main, back := s.back.(pc := StoreDone),
       front := s.front.(col := ColDone, raw := raw, proc := ProcDone, sq := sq))
  }

  /** Collector, processor and store thread stop, the queues still open. */
  lemma ThreadsStop(cfg: Config, s: State, sample: Sample) returns (acts: seq<Action>)
    requires Resting(cfg, s)
    ensures
      Execution(cfg, s, acts) ==
      s.(signalled := true, main := STORE_STOPPED, front := s.front.(col := ColDone, proc := ProcDone),
         back := s.back.(pc := StoreDone))
  {
    var up := s.(signalled := true, main := PROCESSOR_STOPPED);
    var f := s.front.(proc := ProcDone);
    var both := up.(main := STORE_STOPPED, front := f);
    acts := [];
    acts := Move(cfg, s, acts, Signal, s.(signalled := true));
    acts := Move(cfg, s, acts, Main, up);
    acts := Move(cfg, s, acts, Process, up.(front := f));
    acts := Move(cfg, s, acts, Main, both);
    acts := Move(cfg, s, acts, Store(true), both.(back := s.back.(pc := DrainCheck)));
    acts := Move(cfg, s, acts, Store(true), both.(back := s.back.(pc := Count(true))));
    acts := Move(cfg, s, acts, Store(true), both.(back := s.back.(pc := StoreDone)));
    acts := Move(cfg, s, acts, Collect(sample), both.(front := f.(col := ColDone), back := s.back.(pc := StoreDone)));
  }

  lemma QueuesClose(cfg: Config, s: State, t: State) returns (acts: seq<Action>)
    requires
      t == s.(signalled := true, main := STORE_STOPPED, front := s.front.(col := ColDone, proc := ProcDone),
              back := s.back.(pc := StoreDone))
    ensures Execution(cfg, t, acts) == Stopped(s, UPLOADER_STOPPED)
  {
    var raw: ItemQueue := Closed(t.front.raw);
    acts := [];
    acts := Move(cfg, t, acts, Main, t.(main := RAW_CLOSED, front := t.front.(raw := raw)));
    acts := Move(cfg, t, acts, Main, Stopped(s, STORE_CLOSED));
    acts := Move(cfg, t, acts, Main, Stopped(s, COLLECTOR_JOINED));
    acts := Move(cfg, t, acts, Main, Stopped(s, PROCESSOR_JOINED));
    acts := Move(cfg, t, acts, Main, Stopped(s, STORE_JOINED));
    acts := Move(cfg, t, acts, Main, Stopped(s, UPLOADER_STOPPED));
  }

  /** Shutting down from rest, up to the uploader's flag. */
  lemma Shut(cfg: Config, s: State, sample: Sample) returns (acts: seq<Action>)
    requires Resting(cfg, s)
    ensures Execution(cfg, s, acts) == Stopped(s, UPLOADER_STOPPED)
  {
    var a := ThreadsStop(cfg, s, sample);
    var b := QueuesClose(cfg, s, Execution(cfg, s, a));
    Joined(cfg, s, a, b);
    acts := a + b;
  }

  /** An uploader that has no connection stops without touching the table. */
  lemma LeaveUnconnected(cfg: Config, s: State) returns (acts: seq<Action>)
    requires s.main == UPLOADER_STOPPED && s.proto.net.pc.Check? && !s.proto.net.connected
    ensures
      Execution(cfg, s, acts) ==
      s.(main := UPLOADER_JOINED, proto := s.proto.(net := s.proto.net.(pc := Done)))
  {
    var done := s.proto.(net := s.proto.net.(pc := Done));
    acts := [];
    acts := Move(cfg, s, acts, Upload(Go), s.(proto := done));
    acts := Move(cfg, s, acts, Main, s.(main := UPLOADER_JOINED, proto := done));
  }

  // ---------------------------------------------------------------------------------------
  // One sample stored
  // ---------------------------------------------------------------------------------------

  function Start(net: Net): State {
    Init(Table(map[], 1), map[], 1, 1).(proto := Proto(Table(map[], 1), map[], net))
  }

  function Row1(cfg: Config, sample: Sample): Row<Item> {
    Row(TagItem(cfg.tag, Item(0, sample)), false, 0)
  }

  /** One sample has gone through both queues into the table, as row 1. */
  function Stored(cfg: Config, sample: Sample, net: Net): State {
    var x, y := Item(0, sample), TagItem(cfg.tag, Item(0, sample));
    var q: ItemQueue := Empty(1);
    var f := Front([x], ColCheck, q.(accepted := [x], popped := [x]), ProcCheck, q.(accepted := [y], popped := [y]));
    Start(net).(front := f, back := Back(StoreCheck, 1, [y], [], false, 0),
                proto := Proto(Table(map[1 := Row1(cfg, sample)], 2), map[1 := y], net))
  }

  lemma ToPushed(cfg: Config, sample: Sample, net: Net) returns (acts: seq<Action>)
    ensures
      var t := Stored(cfg, sample, net);
      var q: ItemQueue := t.front.sq.(items := [TagItem(cfg.tag, Item(0, sample))], popped := []);
      Execution(cfg, Start(net), acts) == Start(net).(front := t.front.(sq := q))
  {
    var x, s0 := Item(0, sample), Start(net);
    var y, f0 := TagItem(cfg.tag, x), s0.front;
    var f1 := f0.(collected := [x], col := ColPush(x));
    var q2: ItemQueue := f0.raw.(items := [x], accepted := [x]);
    var f2 := f1.(raw := q2, col := ColCheck);
    var q4: ItemQueue := q2.(items := [], popped := [x]);
    var f4 := f2.(raw := q4, proc := ProcPush(y));
    var q5: ItemQueue := f0.sq.(items := [y], accepted := [y]);
    acts := [];
    acts := Move(cfg, s0, acts, Collect(sample), s0.(front := f1));
    acts := Move(cfg, s0, acts, Collect(sample), s0.(front := f2));
    acts := Move(cfg, s0, acts, Process, s0.(front := f2.(proc := ProcPop)));
    assert q2.items[1..] == [];
    acts := Move(cfg, s0, acts, Process, s0.(front := f4));
    acts := Move(cfg, s0, acts, Process, s0.(front := f4.(sq := q5, proc := ProcCheck)));
  }

  lemma FromPushed(cfg: Config, sample: Sample, net: Net, s: State) returns (acts: seq<Action>)
    requires
      var t := Stored(cfg, sample, net);
      var q: ItemQueue := t.front.sq.(items := [TagItem(cfg.tag, Item(0, sample))], popped := []);
      s == Start(net).(front := t.front.(sq := q))
    ensures Execution(cfg, s, acts) == Stored(cfg, sample, net)
  {
    var y, t := TagItem(cfg.tag, Item(0, sample)), Stored(cfg, sample, net);
    acts := [];
    acts := Move(cfg, s, acts, Store(true), s.(back := s.back.(pc := StorePop)));
    assert s.front.sq.items[1..] == [];
    acts := Move(cfg, s, acts, Store(true), s.(front := t.front, back := s.back.(pc := Insert(y, false))));
    acts := Move(cfg, s, acts, Store(true), t);
  }

  lemma ToStored(cfg: Config, sample: Sample, net: Net) returns (acts: seq<Action>)
    ensures Execution(cfg, Start(net), acts) == Stored(cfg, sample, net) && Resting(cfg, Stored(cfg, sample, net))
  {
    var a := ToPushed(cfg, sample, net);
    var b := FromPushed(cfg, sample, net, Execution(cfg, Start(net), a));
    Joined(cfg, Start(net), a, b);
    acts := a + b;
    OneRow(Row1(cfg, sample));
  }

  lemma OneRow(r: Row<Item>)
    ensures |map[1 := r]| == 1
  {
  }

  /** One sample stored, and everything stopped but the uploader. */
  lemma ToStopped(cfg: Config, sample: Sample, net: Net) returns (acts: seq<Action>)
    ensures Execution(cfg, Start(net), acts) == Stopped(Stored(cfg, sample, net), UPLOADER_STOPPED)
  {
    var a := ToStored(cfg, sample, net);
    var b := Shut(cfg, Stored(cfg, sample, net), sample);
    Joined(cfg, Start(net), a, b);
    acts := a + b;
  }
}
