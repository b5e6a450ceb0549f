/** The shutdown can always be completed: from every reachable state in which the signal has come, the
    threads can go on to a state in which main has joined all of them, without any failure of the
    database. So no order of flags, closings and joins can lock the threads up. */
module Progress {
  import opened Samples
  import opened Tables
  import opened UploadProtocol
  import opened UploadWire
  import opened Uploader
  import opened Pipeline
  import opened DrainRuns
  import opened Runs
  import opened EndToEnd

  /** No statement fails. */
  predicate NoFailure(acts: seq<Action>) {
    forall i :: 0 <= i < |acts| ==>
      acts[i] != Store(false) && acts[i] != Upload(QueryFails) && acts[i] != Upload(ReadFails)
  }

  lemma OneAction(cfg: Config, s: State, a: Action) returns (acts: seq<Action>)
    requires a != Store(false) && a != Upload(QueryFails) && a != Upload(ReadFails)
    ensures NoFailure(acts) && Execution(cfg, s, acts) == Next(cfg, s, a)
  {
    acts := Move(cfg, s, [], a, Next(cfg, s, a));
  }

  /** One run after another. */
  lemma Then(cfg: Config, s: State, a: seq<Action>, b: seq<Action>) returns (acts: seq<Action>)
    requires NoFailure(a) && NoFailure(b)
    ensures NoFailure(acts) && Execution(cfg, s, acts) == Execution(cfg, Execution(cfg, s, a), b)
  {
    Joined(cfg, s, a, b);
    acts := a + b;
  }

  // ---------------------------------------------------------------------------------------
  // main, collector and processor
  // ---------------------------------------------------------------------------------------

  /** main raises its flags and closes the queues without waiting for anyone. */
  lemma {:induction false} MainCloses(cfg: Config, s: State) returns (acts: seq<Action>)
    requires s.signalled
    ensures NoFailure(acts)
    ensures
      var t := Execution(cfg, s, acts);
      t.signalled && t.main >= STORE_CLOSED && (s.main <= UPLOADER_JOINED ==> t.main <= UPLOADER_JOINED)
    decreases STORE_CLOSED - s.main
  {
    if s.main >= STORE_CLOSED {
      acts := [];
    } else {
      var a := OneAction(cfg, s, Main);
      assert MainStep(s).main == s.main + 1 && MainStep(s).signalled;
      var b := MainCloses(cfg, MainStep(s));
      acts := Then(cfg, s, a, b);
    }
  }

  lemma CollectorEnds(cfg: Config, s: State, sample: Sample) returns (acts: seq<Action>)
    requires s.signalled
    ensures NoFailure(acts)
    ensures
      var t := Execution(cfg, s, acts);
      t == s.(front := t.front) && t.front.col.ColDone?
  {
    if s.front.col.ColDone? {
      acts := [];
    } else if s.front.col.ColCheck? {
      acts := OneAction(cfg, s, Collect(sample));
    } else {
      var a := OneAction(cfg, s, Collect(sample));
      var b := OneAction(cfg, Next(cfg, s, Collect(sample)), Collect(sample));
      acts := Then(cfg, s, a, b);
    }
  }

  function ProcRank(pc: ProcPc): nat {
    match pc
    case ProcDone => 0
    case ProcCheck => 1
    case ProcPush(_) => 2
    case ProcPop => 3
  }

  lemma {:induction false} ProcessorEnds(cfg: Config, s: State) returns (acts: seq<Action>)
    requires s.main >= PROCESSOR_STOPPED
    ensures NoFailure(acts)
    ensures
      var t := Execution(cfg, s, acts);
      t == s.(front := t.front) && t.front.proc.ProcDone? && t.front.col == s.front.col
    decreases ProcRank(s.front.proc)
  {
    if s.front.proc.ProcDone? {
      acts := [];
    } else {
      var a := OneAction(cfg, s, Process);
      var t := Next(cfg, s, Process);
      assert t == s.(front := t.front) && t.front.col == s.front.col && ProcRank(t.front.proc) < ProcRank(s.front.proc);
      var b := ProcessorEnds(cfg, t);
      acts := Then(cfg, s, a, b);
    }
  }

  // ---------------------------------------------------------------------------------------
  // The store thread
  // ---------------------------------------------------------------------------------------

  function TrimRank(pc: StorePc): nat {
    match pc
    case DeleteOld(_, _) => 1
    case Recount(_) => 2
    case DeleteSent(_, _) => 3
    case Count(_) => 4
    case _ => 0
  }

  /** How far the store thread still is from its end, if it pops nothing. */
  function StoreRank(pc: StorePc): nat {
    match pc
    case StoreDone => 0
    case DrainPop => 5
    case DrainCheck => 6
    case Insert(_, true) => 7
    case StoreCheck => 8
    case Insert(_, false) => 13
    case StorePop => 14
    case DeleteOld(_, final) => TrimRank(pc) + if final then 0 else 8
    case Recount(final) => TrimRank(pc) + if final then 0 else 8
    case DeleteSent(_, final) => TrimRank(pc) + if final then 0 else 8
    case Count(final) => TrimRank(pc) + if final then 0 else 8
  }

  lemma TrimGoesOn(cfg: Config, s: State)
    requires s.back.pc.Count? || s.back.pc.DeleteSent? || s.back.pc.Recount? || s.back.pc.DeleteOld?
    ensures
      var t := StoreStep(cfg, s, true);
      t.front == s.front && StoreRank(t.back.pc) < StoreRank(s.back.pc)
  {
  }

  lemma StoreGoesOn(cfg: Config, s: State)
    requires s.main >= STORE_STOPPED && !s.back.pc.StoreDone?
    ensures
      var t := StoreStep(cfg, s, true);
      |t.front.sq.items| < |s.front.sq.items| ||
      (|t.front.sq.items| == |s.front.sq.items| && StoreRank(t.back.pc) < StoreRank(s.back.pc))
  {
    if s.back.pc.Count? || s.back.pc.DeleteSent? || s.back.pc.Recount? || s.back.pc.DeleteOld? {
      TrimGoesOn(cfg, s);
    }
  }

  /** Nothing comes into store_queue meanwhile, so it is drained. */
  lemma {:induction false} StoreEnds(cfg: Config, s: State) returns (acts: seq<Action>)
    requires s.main >= STORE_STOPPED
    ensures NoFailure(acts)
    ensures
      var t := Execution(cfg, s, acts);
      t.main == s.main && t.front.col == s.front.col && t.front.proc == s.front.proc && t.back.pc.StoreDone?
    decreases |s.front.sq.items|, StoreRank(s.back.pc)
  {
    if s.back.pc.StoreDone? {
      acts := [];
    } else {
      var a := OneAction(cfg, s, Store(true));
      StoreParts(cfg, s, true);
      StoreGoesOn(cfg, s);
      var b := StoreEnds(cfg, StoreStep(cfg, s, true));
      acts := Then(cfg, s, a, b);
    }
  }

  /** The threads that main joins first have ended. */
  predicate Ended(s: State) { s.front.col.ColDone? && s.front.proc.ProcDone? && s.back.pc.StoreDone? }

  lemma {:induction false} MainJoins(cfg: Config, s: State) returns (acts: seq<Action>)
    requires STORE_CLOSED <= s.main <= UPLOADER_JOINED && Ended(s)
    ensures NoFailure(acts) && UPLOADER_STOPPED <= Execution(cfg, s, acts).main <= UPLOADER_JOINED
    decreases UPLOADER_STOPPED - s.main
  {
    if s.main >= UPLOADER_STOPPED {
      acts := [];
    } else {
      var a := OneAction(cfg, s, Main);
      assert MainStep(s) == s.(main := s.main + 1);
      var b := MainJoins(cfg, MainStep(s));
      acts := Then(cfg, s, a, b);
    }
  }

  lemma FrontEnds(cfg: Config, s: State, sample: Sample) returns (acts: seq<Action>)
    requires s.signalled && s.main <= UPLOADER_JOINED
    ensures NoFailure(acts)
    ensures
      var t := Execution(cfg, s, acts);
      STORE_CLOSED <= t.main <= UPLOADER_JOINED && t.front.col.ColDone? && t.front.proc.ProcDone?
  {
    var a := MainCloses(cfg, s);
    var t := Execution(cfg, s, a);
    var b := CollectorEnds(cfg, t, sample);
    var c := ProcessorEnds(cfg, Execution(cfg, t, b));
    var bc := Then(cfg, t, b, c);
    acts := Then(cfg, s, a, bc);
  }

  /** All the way to the uploader's flag. */
  lemma OthersEnd(cfg: Config, s: State, sample: Sample) returns (acts: seq<Action>)
    requires s.signalled && s.main <= UPLOADER_JOINED
    ensures NoFailure(acts) && UPLOADER_STOPPED <= Execution(cfg, s, acts).main <= UPLOADER_JOINED
  {
    var a := FrontEnds(cfg, s, sample);
    var t := Execution(cfg, s, a);
    var b := StoreEnds(cfg, t);
    var c := MainJoins(cfg, Execution(cfg, t, b));
    var bc := Then(cfg, t, b, c);
    acts := Then(cfg, s, a, bc);
  }

  // ---------------------------------------------------------------------------------------
  // The uploader
  // ---------------------------------------------------------------------------------------

  /** How far the uploader still is from its end, if it counts no more retries. */
  function UploadRank(net: Net): nat {
    match net.pc
    case Done => 0
    case Read(true) => if net.drained then 3 else 1
    case Query(true) => 2
    case Check => 4
    case Connect => 5
    case ScanCheck => 5
    case Query(false) => 6
    case Mark(_, _) => 7
    case Fail(_, _) => 7
    case Send(_, _, _, _, _) => 8
    case Read(false) => 9
  }

  predicate Less(cfg: Settings, p: Proto, q: Proto) {
    Work(q.db.rows, cfg.retryMax) < Work(p.db.rows, cfg.retryMax) ||
    (Work(q.db.rows, cfg.retryMax) == Work(p.db.rows, cfg.retryMax) && UploadRank(q.net) < UploadRank(p.net))
  }

  ghost predicate UploaderInv(cfg: Settings, p: Proto) { TableInv(cfg, p) && WireInv(cfg, p.net) && Fits(cfg) }

  lemma StepInv(cfg: Settings, p: Proto, a: Act)
    requires UploaderInv(cfg, p)
    ensures UploaderInv(cfg, Step(cfg, true, p, a))
  {
    StepKeeps(cfg, true, p, a);
    StepKeepsWire(cfg, true, p, a);
  }

  /** The lowest pending row that the query has not passed can be read. */
  lemma PendingCanBeRead(cfg: Settings, p: Proto) returns (id: nat)
    requires TableInv(cfg, p) && p.net.pc.Read? && !CanEnd(cfg, p)
    ensures CanRead(cfg, p, id) && id in p.db.rows && IsPending(p.db.rows[id], cfg.retryMax)
  {
    var scan := p.net.scan;
    var ids := set x | x in p.db.rows && scan.last < x < scan.bound && IsPending(p.db.rows[x], cfg.retryMax);
    var w :| w in p.db.rows && scan.last < w < scan.bound && IsPending(p.db.rows[w], cfg.retryMax);
    assert w in ids;
    id := Least(ids);
    assert id in scan.visible && scan.visible[id] == p.db.rows[id];
    forall x | x in p.db.rows && scan.last < x < id
      ensures !IsPending(p.db.rows[x], cfg.retryMax)
    {
      assert x !in ids;
    }
  }

  lemma MovesOn(cfg: Settings, p: Proto) returns (a: Act)
    requires FlowOk(p.net) && (p.net.pc.Check? || p.net.pc.Connect? || p.net.pc.ScanCheck?)
    ensures a == Go || a == Refuse
    ensures Less(cfg, p, Step(cfg, true, p, a))
  {
    a := if p.net.pc.Connect? then Refuse else Go;
    assert Step(cfg, true, p, a).db == p.db;
  }

  lemma QueriesOn(cfg: Settings, p: Proto)
    requires p.net.pc.Query?
    ensures Less(cfg, p, Step(cfg, true, p, Go))
  {
    assert Step(cfg, true, p, Go).db == p.db;
  }

  lemma NoMoreWork(cfg: Settings, db: Table<Item>, id: nat)
    ensures Work(Marked(db, id).rows, cfg.retryMax) <= Work(db.rows, cfg.retryMax)
    ensures Work(Retried(db, id).rows, cfg.retryMax) <= Work(db.rows, cfg.retryMax)
    ensures
      id in db.rows && IsPending(db.rows[id], cfg.retryMax) ==>
        Work(Retried(db, id).rows, cfg.retryMax) < Work(db.rows, cfg.retryMax)
  {
    if id in db.rows {
      var r := db.rows[id];
      WorkAfterUpdate(db.rows, id, r.(uploaded := true), cfg.retryMax);
      WorkAfterUpdate(db.rows, id, r.(retry := r.retry + 1), cfg.retryMax);
    }
  }

  lemma Updated(cfg: Settings, p: Proto)
    requires Updating(p.net.pc)
    ensures
      var q, id := Step(cfg, true, p, Go), p.net.pc.id;
      (q.db == Marked(p.db, id) || q.db == Retried(p.db, id)) && UploadRank(q.net) < UploadRank(p.net)
  {
  }

  lemma UpdatesOn(cfg: Settings, p: Proto)
    requires Updating(p.net.pc)
    ensures Less(cfg, p, Step(cfg, true, p, Go))
  {
    NoMoreWork(cfg, p.db, p.net.pc.id);
    Updated(cfg, p);
  }

  lemma SendsOn(cfg: Settings, p: Proto)
    requires p.net.pc.Send? && p.net.conns != []
    ensures
      var q := Step(cfg, true, p, Break);
      q.db == p.db && q.net.pc == Fail(p.net.pc.id, p.net.pc.drain)
  {
    assert Step(cfg, true, p, Break) == SendStep(cfg, p, Break);
  }

  lemma EndsQuery(cfg: Settings, p: Proto)
    requires p.net.pc.Read? && p.net.conns != [] && CanEnd(cfg, p)
    ensures Less(cfg, p, Step(cfg, true, p, EndOfRows))
  {
    assert Step(cfg, true, p, EndOfRows) == p.(net := EndScan(p.net, true));
  }

  lemma ReadsOn(cfg: Settings, p: Proto, id: nat)
    requires UploaderInv(cfg, p) && p.net.pc.Read? && p.net.conns != [] && CanRead(cfg, p, id)
    ensures
      var q := Step(cfg, true, p, NextRow(id));
      q.db == p.db && q.net.conns == p.net.conns && q.net.pc.Send? && q.net.pc.id == id &&
      q.net.pc.drain == p.net.pc.drain
  {
    assert |LineOf(cfg, Seen(p.net.scan, p.db.rows, id).value.payload)| < 512;
    assert Step(cfg, true, p, NextRow(id)) == ReadStep(cfg, p, NextRow(id));
  }

  /** No SELECT fails. */
  predicate Answering(acts: seq<Act>) {
    forall i :: 0 <= i < |acts| ==> acts[i] != QueryFails && acts[i] != ReadFails
  }

  lemma OneStep(cfg: Settings, p: Proto, a: Act) returns (acts: seq<Act>)
    requires UploaderInv(cfg, p) && a != QueryFails && a != ReadFails
    ensures Answering(acts) && Steps(cfg, p, acts) == Step(cfg, true, p, a) && UploaderInv(cfg, Steps(cfg, p, acts))
  {
    DrainRuns.OneMore(cfg, p, [], a);
    StepInv(cfg, p, a);
    acts := [] + [a];
  }

  lemma {:induction false} StepsJoined(cfg: Settings, p: Proto, a: seq<Act>, b: seq<Act>)
    ensures Steps(cfg, p, a + b) == Steps(cfg, Steps(cfg, p, a), b)
    decreases |b|
  {
    if b == [] {
      assert a + b == a;
    } else {
      assert (a + b)[..|a + b| - 1] == a + b[..|b| - 1];
      StepsJoined(cfg, p, a, b[..|b| - 1]);
    }
  }

  lemma ThenSteps(cfg: Settings, p: Proto, a: seq<Act>, b: seq<Act>) returns (acts: seq<Act>)
    requires Answering(a) && Answering(b)
    ensures Answering(acts) && Steps(cfg, p, acts) == Steps(cfg, Steps(cfg, p, a), b)
  {
    StepsJoined(cfg, p, a, b);
    acts := a + b;
  }

  lemma FailsOn(cfg: Settings, p: Proto, id: nat)
    requires p.net.pc == Fail(id, true) && id in p.db.rows && IsPending(p.db.rows[id], cfg.retryMax)
    ensures Work(Step(cfg, true, p, Go).db.rows, cfg.retryMax) < Work(p.db.rows, cfg.retryMax)
  {
    NoMoreWork(cfg, p.db, id);
    assert Step(cfg, true, p, Go).db == Retried(p.db, id);
  }

  /** A row that is still pending is read, its send breaks off, and it has one retry less left. */
  lemma RetryOnce(cfg: Settings, p: Proto) returns (acts: seq<Act>)
    requires UploaderInv(cfg, p) && p.net.pc == Read(true) && p.net.conns != [] && !CanEnd(cfg, p)
    ensures Answering(acts) && UploaderInv(cfg, Steps(cfg, p, acts)) && Less(cfg, p, Steps(cfg, p, acts))
  {
    var id := PendingCanBeRead(cfg, p);
    var a := OneStep(cfg, p, NextRow(id));
    ReadsOn(cfg, p, id);
    var sending := Steps(cfg, p, a);
    var b := OneStep(cfg, sending, Break);
    SendsOn(cfg, sending);
    var failed := Steps(cfg, sending, b);
    var c := OneStep(cfg, failed, Go);
    FailsOn(cfg, failed, id);
    var bc := ThenSteps(cfg, sending, b, c);
    acts := ThenSteps(cfg, p, a, bc);
  }

  lemma NearerRow(cfg: Settings, p: Proto) returns (acts: seq<Act>)
    requires UploaderInv(cfg, p) && p.net.pc == Read(false) && p.net.conns != [] && !CanEnd(cfg, p)
    ensures Answering(acts) && UploaderInv(cfg, Steps(cfg, p, acts)) && Less(cfg, p, Steps(cfg, p, acts))
  {
    var id := PendingCanBeRead(cfg, p);
    ReadsOn(cfg, p, id);
    acts := OneStep(cfg, p, NextRow(id));
  }

  /** Wherever the uploader is, it can get closer to its end. */
  lemma Nearer(cfg: Settings, p: Proto) returns (acts: seq<Act>)
    requires UploaderInv(cfg, p) && !p.net.pc.Done?
    ensures Answering(acts) && UploaderInv(cfg, Steps(cfg, p, acts)) && Less(cfg, p, Steps(cfg, p, acts))
  {
    match p.net.pc
    case Query(_) =>
      QueriesOn(cfg, p);
      acts := OneStep(cfg, p, Go);
    case Read(drain) => acts := NearerRead(cfg, p);
    case Send(_, _, _, _, _) =>
      SendsOn(cfg, p);
      acts := OneStep(cfg, p, Break);
    case Mark(_, _) =>
      UpdatesOn(cfg, p);
      acts := OneStep(cfg, p, Go);
    case Fail(_, _) =>
      UpdatesOn(cfg, p);
      acts := OneStep(cfg, p, Go);
    case _ =>
      var a := MovesOn(cfg, p);
      acts := OneStep(cfg, p, a);
  }

  lemma NearerRead(cfg: Settings, p: Proto) returns (acts: seq<Act>)
    requires UploaderInv(cfg, p) && p.net.pc.Read? && p.net.conns != []
    ensures Answering(acts) && UploaderInv(cfg, Steps(cfg, p, acts)) && Less(cfg, p, Steps(cfg, p, acts))
  {
    if CanEnd(cfg, p) {
      EndsQuery(cfg, p);
      acts := OneStep(cfg, p, EndOfRows);
    } else if p.net.pc.drain {
      acts := RetryOnce(cfg, p);
    } else {
      acts := NearerRow(cfg, p);
    }
  }

  lemma {:induction false} UploaderEnds(cfg: Settings, p: Proto) returns (acts: seq<Act>)
    requires UploaderInv(cfg, p)
    ensures Answering(acts) && Steps(cfg, p, acts).net.pc.Done?
    decreases Work(p.db.rows, cfg.retryMax), UploadRank(p.net)
  {
    if p.net.pc.Done? {
      acts := [];
    } else {
      var a := Nearer(cfg, p);
      var b := UploaderEnds(cfg, Steps(cfg, p, a));
      acts := ThenSteps(cfg, p, a, b);
    }
  }

  // ---------------------------------------------------------------------------------------
  // All threads
  // ---------------------------------------------------------------------------------------

  /** The uploader's steps as steps of the whole, once its flag is up. */
  lemma {:induction false} AsActions(cfg: Config, s: State, steps: seq<Act>) returns (acts: seq<Action>)
    requires s.main >= UPLOADER_STOPPED && Answering(steps)
    ensures NoFailure(acts) && Execution(cfg, s, acts) == s.(proto := Steps(cfg.up, s.proto, steps))
    decreases |steps|
  {
    if steps == [] {
      acts := [];
    } else {
      var init, a := steps[..|steps| - 1], steps[|steps| - 1];
      var before := AsActions(cfg, s, init);
      acts := Move(cfg, s, before, Upload(a), s.(proto := Steps(cfg.up, s.proto, steps)));
    }
  }

  lemma LastJoin(cfg: Config, s: State) returns (acts: seq<Action>)
    requires UPLOADER_STOPPED <= s.main <= UPLOADER_JOINED && s.proto.net.pc.Done?
    ensures NoFailure(acts) && Execution(cfg, s, acts).main == UPLOADER_JOINED
  {
    if s.main == UPLOADER_JOINED {
      acts := [];
    } else {
      acts := OneAction(cfg, s, Main);
    }
  }

  lemma UploaderJoins(cfg: Config, s: State) returns (acts: seq<Action>)
    requires UPLOADER_STOPPED <= s.main <= UPLOADER_JOINED && UploaderInv(cfg.up, s.proto)
    ensures NoFailure(acts) && Execution(cfg, s, acts).main == UPLOADER_JOINED
  {
    var steps := UploaderEnds(cfg.up, s.proto);
    var a := AsActions(cfg, s, steps);
    var b := LastJoin(cfg, Execution(cfg, s, a));
    acts := Then(cfg, s, a, b);
  }

  /** From every reachable state in which the signal has come, whatever the threads have in hand, some
      continuation without a failing statement ends with every thread joined. */
  lemma Finishes(cfg: Config, marked: set<nat>, s: State, sample: Sample) returns (acts: seq<Action>)
    requires SystemInv(cfg, marked, s) && Fits(cfg.up) && cfg.up.retryMax >= 0 && s.signalled
    ensures NoFailure(acts) && Execution(cfg, s, acts).main == UPLOADER_JOINED
  {
    var a := OthersEnd(cfg, s, sample);
    RunSystem(cfg, marked, s, a);
    var b := UploaderJoins(cfg, Execution(cfg, s, a));
    acts := Then(cfg, s, a, b);
  }

  /** The same from the start of the program: no run can get stuck, before or after the signal. */
  lemma AlwaysFinishes(cfg: Config, device: string, th: Thresholds, db: Table<Item>, hist: map<nat, Item>,
                       rawCapacity: nat, storeCapacity: nat, acts: seq<Action>, sample: Sample)
    returns (more: seq<Action>)
    requires Configured(cfg, device, th) && Startable(cfg, db, hist, rawCapacity, storeCapacity)
    ensures NoFailure(more)
    ensures
      var s := Execution(cfg, Init(db, hist, rawCapacity, storeCapacity), acts);
      Execution(cfg, s, more).main == UPLOADER_JOINED
  {
    var s := Execution(cfg, Init(db, hist, rawCapacity, storeCapacity), acts);
    Reached(cfg, device, th, db, hist, rawCapacity, storeCapacity, acts);
    var signal := OneAction(cfg, s, Signal);
    NextSystem(cfg, Uploaded(db.rows), s, Signal);
    var rest := Finishes(cfg, Uploaded(db.rows), Next(cfg, s, Signal), sample);
    more := Then(cfg, s, signal, rest);
  }
}
