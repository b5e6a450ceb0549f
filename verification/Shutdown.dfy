/** The shutdown in main (app/src/main.c), over every interleaving: which flags are up while which
    thread still runs, how many samples the two queues can lose to it, and what the uploader's
    drain leaves in the table. */
module Shutdown {
  import opened Samples
  import opened Tables
  import opened Queues
  import opened UploadProtocol
  import opened Pipeline
  import opened Flow

  /** The store thread has left its main loop. */
  predicate Leaving(pc: StorePc) {
    PastDrain(pc) || pc.DrainCheck? || pc.DrainPop? || (pc.Insert? && pc.drain)
  }

  /** The store thread has seen store_queue empty and will not look again. */
  predicate PastDrain(pc: StorePc) {
    pc.StoreDone? || ((pc.Count? || pc.DeleteSent? || pc.Recount? || pc.DeleteOld?) && pc.final)
  }

  // ---------------------------------------------------------------------------------------
  // Flags and joins
  // ---------------------------------------------------------------------------------------

  predicate FlagInv(s: State) {
    var m := s.main;
    m <= UPLOADER_JOINED && (m > 0 ==> s.signalled) &&
    (s.front.raw.shutdown <==> m >= RAW_CLOSED) && (s.front.sq.shutdown <==> m >= STORE_CLOSED) &&
    (s.front.col.ColDone? ==> s.signalled) && (m >= COLLECTOR_JOINED ==> s.front.col.ColDone?) &&
    (s.front.proc.ProcDone? ==> m >= PROCESSOR_STOPPED) && (m >= PROCESSOR_JOINED ==> s.front.proc.ProcDone?) &&
    (Leaving(s.back.pc) ==> m >= STORE_STOPPED) && (m >= STORE_JOINED ==> s.back.pc.StoreDone?) &&
    (InDrain(s.proto.net.pc) || s.proto.net.pc.Done? ==> m >= UPLOADER_STOPPED) &&
    (m >= UPLOADER_JOINED ==> s.proto.net.pc.Done?)
  }

  lemma TrimMoves(cfg: Config, s: State, ok: bool)
    requires s.back.pc.Count? || s.back.pc.DeleteSent? || s.back.pc.Recount? || s.back.pc.DeleteOld?
    ensures
      var t := TrimStep(cfg, s, ok);
      t.front == s.front && (Leaving(t.back.pc) <==> s.back.pc.final) && (PastDrain(t.back.pc) <==> s.back.pc.final)
  {
  }

  lemma StorePcMoves(cfg: Config, s: State, ok: bool)
    ensures
      var to := StoreStep(cfg, s, ok).back.pc;
      (s.back.pc.StoreDone? ==> StoreStep(cfg, s, ok) == s) &&
      (Leaving(to) ==> Leaving(s.back.pc) || s.main >= STORE_STOPPED) &&
      (PastDrain(to) ==> PastDrain(s.back.pc) || StoreStep(cfg, s, ok).front.sq.items == []) &&
      (PastDrain(s.back.pc) ==> StoreStep(cfg, s, ok).front == s.front)
  {
    if s.back.pc.Count? || s.back.pc.DeleteSent? || s.back.pc.Recount? || s.back.pc.DeleteOld? {
      TrimMoves(cfg, s, ok);
    }
  }

  lemma StoreFlags(cfg: Config, s: State, ok: bool)
    requires FlagInv(s)
    ensures FlagInv(StoreStep(cfg, s, ok))
  {
    StoreParts(cfg, s, ok);
    StorePcMoves(cfg, s, ok);
  }

  lemma MovesPc(cfg: Settings, shutdown: bool, p: Proto, a: Act)
    requires Moving(p.net.pc)
    ensures
      var to := Step(cfg, shutdown, p, a).net.pc;
      (InDrain(to) || to.Done? ==> p.net.pc.Done? || (shutdown && p.net.pc.Check?)) &&
      (p.net.pc.Done? ==> Step(cfg, shutdown, p, a) == p)
  {
  }

  lemma QueryOrUpdatePc(cfg: Settings, shutdown: bool, p: Proto, a: Act)
    requires p.net.pc.Query? || Updating(p.net.pc)
    ensures
      var to := Step(cfg, shutdown, p, a).net.pc;
      InDrain(to) || to.Done? ==> InDrain(p.net.pc)
  {
  }

  lemma UploadPcMoves(cfg: Settings, shutdown: bool, p: Proto, a: Act)
    ensures
      var to := Step(cfg, shutdown, p, a).net.pc;
      (InDrain(to) || to.Done? ==> InDrain(p.net.pc) || p.net.pc.Done? || (shutdown && p.net.pc.Check?)) &&
      (p.net.pc.Done? ==> Step(cfg, shutdown, p, a) == p)
  {
    if p.net.pc.Read? || p.net.pc.Send? {
      RowPcMoves(cfg, shutdown, p, a);
    } else if Moving(p.net.pc) {
      MovesPc(cfg, shutdown, p, a);
    } else {
      QueryOrUpdatePc(cfg, shutdown, p, a);
    }
  }

  lemma MainFlags(s: State)
    requires FlagInv(s)
    ensures FlagInv(MainStep(s))
  {
  }

  lemma NextFlags(cfg: Config, s: State, a: Action)
    requires FlagInv(s)
    ensures FlagInv(Next(cfg, s, a))
  {
    match a
    case Main => MainFlags(s);
    case Store(ok) => StoreFlags(cfg, s, ok);
    case Upload(act) => UploadPcMoves(cfg.up, s.main >= UPLOADER_STOPPED, s.proto, act);
    case _ =>
  }

  /** Where each thread can be after the first, second, ... ninth statement of the shutdown: processor
      told, store thread told, raw_queue closed, store_queue closed, collector, processor and store
      thread joined, uploader told and joined. */
  lemma ShutdownOrder(s: State)
    requires FlagInv(s)
    ensures s.front.col.ColDone? ==> s.signalled
    ensures (s.front.proc.ProcDone? ==> s.main >= 1) && (Leaving(s.back.pc) ==> s.main >= 2)
    ensures (s.front.raw.shutdown <==> s.main >= 3) && (s.front.sq.shutdown <==> s.main >= 4)
    ensures (s.main >= 5 ==> s.front.col.ColDone?) && (s.main >= 6 ==> s.front.proc.ProcDone?)
    ensures s.main >= 7 ==> s.back.pc.StoreDone?
    ensures InDrain(s.proto.net.pc) ==> s.main >= 8
    ensures (s.proto.net.pc.Done? ==> s.main >= 8) && (s.main >= 9 ==> s.proto.net.pc.Done?) && s.main <= 9
  {
  }

  // ---------------------------------------------------------------------------------------
  // Samples lost to the shutdown
  // ---------------------------------------------------------------------------------------

  function OneIf(b: bool): nat { if b then 1 else 0 }

  /** The samples raw_queue turned away, and the one the collector may still offer it. */
  predicate RawLate(signalled: bool, raw: Queue<Item>, col: ColPc) {
    (!raw.shutdown ==> raw.rejected == []) &&
    (signalled ==> |raw.rejected| + OneIf(col.ColPush?) <= 1)
  }

  /** The samples store_queue turned away or keeps for good, and the one the processor may still
      offer it. */
  predicate StoreLate(stopped: bool, sq: Queue<Item>, proc: ProcPc, past: bool) {
    (!sq.shutdown ==> sq.rejected == []) &&
    (stopped ==>
      |sq.rejected| + OneIf(proc.ProcPop? || proc.ProcPush?) + (if past then |sq.items| else 0) <= 1)
  }

  predicate LateInv(s: State) {
    RawLate(s.signalled, s.front.raw, s.front.col) &&
    StoreLate(s.main >= PROCESSOR_STOPPED, s.front.sq, s.front.proc, PastDrain(s.back.pc))
  }

  lemma CollectLate(f: Front, signalled: bool, sample: Sample)
    requires RawLate(signalled, f.raw, f.col)
    ensures
      var g := CollectStep(f, signalled, sample);
      RawLate(signalled, g.raw, g.col) && g.sq == f.sq && g.proc == f.proc
  {
  }

  lemma ProcessLate(cfg: Config, f: Front, stop: bool, past: bool, signalled: bool)
    requires StoreLate(stop, f.sq, f.proc, past) && (past ==> stop) && (f.sq.shutdown ==> stop)
    requires RawLate(signalled, f.raw, f.col)
    ensures
      var g := ProcessStep(cfg, f, stop);
      StoreLate(stop, g.sq, g.proc, past) && RawLate(signalled, g.raw, g.col)
  {
  }

  lemma StoreStepLate(cfg: Config, s: State, ok: bool)
    requires LateInv(s)
    ensures LateInv(StoreStep(cfg, s, ok))
  {
    StoreParts(cfg, s, ok);
    StorePcMoves(cfg, s, ok);
  }

  lemma MainLate(s: State)
    requires LateInv(s) && FlagInv(s)
    ensures LateInv(MainStep(s))
  {
  }

  lemma NextLate(cfg: Config, s: State, a: Action)
    requires LateInv(s) && FlagInv(s)
    ensures LateInv(Next(cfg, s, a))
  {
    match a
    case Main => MainLate(s);
    case Collect(sample) => CollectLate(s.front, s.signalled, sample);
    case Process => ProcessLate(cfg, s.front, s.main >= PROCESSOR_STOPPED, PastDrain(s.back.pc), s.signalled);
    case Store(ok) => StoreStepLate(cfg, s, ok);
    case _ =>
  }

  /** What the program can have lost when everything is joined: besides what raw_queue overwrote or
      still holds and what store_queue overwrote, one sample that came too late for raw_queue and
      one that came too late for the store thread. */
  lemma LossAtTheEnd(cfg: Config, s: State)
    requires FlowInv(cfg, s) && FlagInv(s) && LateInv(s) && s.main == UPLOADER_JOINED
    ensures
      var f, b := s.front, s.back;
      |f.collected| ==
        |b.written| + |b.failed| + |f.raw.overwritten| + |f.raw.items| + |f.sq.overwritten| +
        |f.raw.rejected| + (|f.sq.rejected| + |f.sq.items|)
    ensures |s.front.raw.rejected| <= 1 && |s.front.sq.rejected| + |s.front.sq.items| <= 1
  {
    Conservation(cfg, s);
  }

  /** The store thread has left, and the processor is not about to pop. */
  predicate HandedOver(s: State) {
    PastDrain(s.back.pc) && s.main >= STORE_STOPPED && !s.front.proc.ProcPop?
  }

  /** What store_queue keeps or turned away, with the sample the processor still holds. */
  function LateSamples(s: State): nat {
    |s.front.sq.rejected| + |s.front.sq.items| + |ProcHeld(s.front.proc)|
  }

  lemma ProcessFixed(cfg: Config, s: State)
    requires LateInv(s) && HandedOver(s)
    ensures
      var t := Next(cfg, s, Process);
      HandedOver(t) && LateSamples(t) == LateSamples(s)
  {
  }

  lemma NextFixed(cfg: Config, s: State, a: Action)
    requires FlagInv(s) && LateInv(s) && HandedOver(s)
    ensures
      var t := Next(cfg, s, a);
      HandedOver(t) && LateSamples(t) == LateSamples(s)
  {
    match a
    case Process => ProcessFixed(cfg, s);
    case Store(ok) =>
      StoreParts(cfg, s, ok);
      StorePcMoves(cfg, s, ok);
      StaysPast(cfg, s, ok);
    case _ =>
  }

  lemma StaysPast(cfg: Config, s: State, ok: bool)
    requires PastDrain(s.back.pc)
    ensures PastDrain(StoreStep(cfg, s, ok).back.pc)
  {
    if !s.back.pc.StoreDone? {
      TrimMoves(cfg, s, ok);
    }
  }

  lemma {:induction false} RunFixed(cfg: Config, s: State, acts: seq<Action>)
    requires FlagInv(s) && LateInv(s) && HandedOver(s)
    ensures
      var t := Execution(cfg, s, acts);
      FlagInv(t) && LateInv(t) && HandedOver(t) && LateSamples(t) == LateSamples(s)
    decreases |acts|
  {
    if acts != [] {
      var t := Execution(cfg, s, acts[..|acts| - 1]);
      RunFixed(cfg, s, acts[..|acts| - 1]);
      NextFlags(cfg, t, acts[|acts| - 1]);
      NextLate(cfg, t, acts[|acts| - 1]);
      NextFixed(cfg, t, acts[|acts| - 1]);
    }
  }

  /** Exactly when the shutdown loses a sample at store_queue: what is lost there when all threads
      are joined is what was there, or in the processor's hands, once the store thread had left and
      the processor was past its pop, however the run went on from that moment. */
  lemma LostExactly(cfg: Config, s: State, acts: seq<Action>)
    requires FlagInv(s) && LateInv(s) && HandedOver(s)
    requires Execution(cfg, s, acts).main == UPLOADER_JOINED
    ensures
      var sq := Execution(cfg, s, acts).front.sq;
      |sq.rejected| + |sq.items| == |s.front.sq.rejected| + |s.front.sq.items| + OneIf(s.front.proc.ProcPush?)
  {
    RunFixed(cfg, s, acts);
  }

  // ---------------------------------------------------------------------------------------
  // Samples left in raw_queue
  // ---------------------------------------------------------------------------------------

  /** What raw_queue keeps, turned away or overwrote, with the sample the collector still holds. */
  function RawUnused(f: Front): nat {
    |f.raw.rejected| + |f.raw.items| + |f.raw.overwritten| + |ColHeld(f.col)|
  }

  /** Nothing leaves raw_queue for the processor any more, and nothing new is collected. */
  predicate RawFixed(before: Front, f: Front) {
    f.proc.ProcDone? && f.collected == before.collected && f.raw.popped == before.raw.popped &&
    RawUnused(f) == RawUnused(before) && |f.raw.overwritten| >= |before.raw.overwritten|
  }

  lemma CollectRawFixed(f: Front, sample: Sample)
    requires f.proc.ProcDone?
    ensures RawFixed(f, CollectStep(f, true, sample))
  {
  }

  lemma MainRawFixed(s: State)
    requires s.front.proc.ProcDone?
    ensures RawFixed(s.front, MainStep(s).front)
  {
  }

  lemma NextRawFixed(cfg: Config, s: State, a: Action)
    requires FlagInv(s) && s.front.proc.ProcDone?
    ensures RawFixed(s.front, Next(cfg, s, a).front)
  {
    match a
    case Main => MainRawFixed(s);
    case Collect(sample) => CollectRawFixed(s.front, sample);
    case Store(ok) => StoreParts(cfg, s, ok);
    case _ =>
  }

  lemma {:induction false} RunRawFixed(cfg: Config, s: State, acts: seq<Action>)
    requires FlagInv(s) && s.front.proc.ProcDone?
    ensures FlagInv(Execution(cfg, s, acts)) && RawFixed(s.front, Execution(cfg, s, acts).front)
    decreases |acts|
  {
    if acts != [] {
      var t := Execution(cfg, s, acts[..|acts| - 1]);
      RunRawFixed(cfg, s, acts[..|acts| - 1]);
      NextFlags(cfg, t, acts[|acts| - 1]);
      NextRawFixed(cfg, t, acts[|acts| - 1]);
    }
  }

  /** Between f and end raw_queue has lost what f held of it, and nothing exactly if that was nothing. */
  predicate RawLoss(f: Front, end: Front) {
    var raw := f.raw;
    end.collected == f.collected && end.raw.popped == raw.popped &&
    |end.raw.rejected| + |end.raw.items| + (|end.raw.overwritten| - |raw.overwritten|) ==
      |raw.rejected| + |raw.items| + |ColHeld(f.col)| &&
    (end.raw.rejected == [] && end.raw.items == [] && |end.raw.overwritten| == |raw.overwritten| <==>
      raw.rejected == [] && raw.items == [] && !f.col.ColPush?)
  }

  /** Exactly what raw_queue loses to the shutdown: what it held, had turned away or the collector
      had in hand when the processor stopped. However the run goes on, that is what it keeps, turns
      away or overwrites from then on, and it is nothing exactly when there was nothing. */
  lemma RawLostExactly(cfg: Config, s: State, acts: seq<Action>)
    requires FlagInv(s) && s.front.proc.ProcDone?
    ensures Execution(cfg, s, acts).main == UPLOADER_JOINED ==> RawLoss(s.front, Execution(cfg, s, acts).front)
  {
    RunRawFixed(cfg, s, acts);
  }

  /** Both queues together, from a moment when the processor has stopped and the store thread has
      left: the run ends with every sample written or counted as failed exactly when no queue has
      overwritten or turned away a sample, both are empty and the collector holds nothing. */
  lemma LosslessExactly(cfg: Config, s: State, acts: seq<Action>)
    requires FlowInv(cfg, s) && FlagInv(s) && LateInv(s) && HandedOver(s) && s.front.proc.ProcDone?
    requires Execution(cfg, s, acts).main == UPLOADER_JOINED
    ensures
      var f, end := s.front, Execution(cfg, s, acts);
      |end.front.collected| == |end.back.written| + |end.back.failed| <==>
        f.raw.rejected == [] && f.raw.items == [] && f.raw.overwritten == [] && !f.col.ColPush? &&
        f.sq.rejected == [] && f.sq.items == [] && f.sq.overwritten == []
  {
    RunKeeps(cfg, s, acts);
    RunRawFixed(cfg, s, acts);
    RunFixed(cfg, s, acts);
    RunOverwritten(cfg, s, acts);
    LossAtTheEnd(cfg, Execution(cfg, s, acts));
  }

  lemma NextOverwritten(cfg: Config, s: State, a: Action)
    requires s.front.proc.ProcDone?
    ensures
      var t := Next(cfg, s, a);
      t.front.proc.ProcDone? && t.front.sq.overwritten == s.front.sq.overwritten
  {
    if a.Store? {
      StoreParts(cfg, s, a.ok);
    }
  }

  lemma {:induction false} RunOverwritten(cfg: Config, s: State, acts: seq<Action>)
    requires s.front.proc.ProcDone?
    ensures
      var t := Execution(cfg, s, acts);
      t.front.proc.ProcDone? && t.front.sq.overwritten == s.front.sq.overwritten
    decreases |acts|
  {
    if acts != [] {
      RunOverwritten(cfg, s, acts[..|acts| - 1]);
      NextOverwritten(cfg, Execution(cfg, s, acts[..|acts| - 1]), acts[|acts| - 1]);
    }
  }

  // ---------------------------------------------------------------------------------------
  // What the drain leaves in the table
  // ---------------------------------------------------------------------------------------

  ghost predicate NothingPending(db: Table<Item>, retryMax: int) {
    forall id :: id in db.rows ==> !IsPending(db.rows[id], retryMax)
  }

  /** No row is inserted during the drain, so its queries see all of them; and having ended it
      leaves none pending, unless a SELECT that failed ended it. */
  ghost predicate DrainInv(cfg: Settings, p: Proto) {
    UnreadOk(cfg, p.net) && (p.net.gaveUp ==> p.net.pc.Done?) &&
    (Scanning(p.net.pc) && InDrain(p.net.pc) ==> p.net.scan.bound == p.db.nextId) &&
    (p.net.pc.Done? && p.net.connected && cfg.batchMax != 0 && !p.net.gaveUp ==> NothingPending(p.db, cfg.retryMax))
  }

  /** How the query's range moves, and how the thread ends. */
  predicate BoundMoved(p: Proto, q: Proto) {
    q.db.nextId == p.db.nextId &&
    (Scanning(q.net.pc) && InDrain(q.net.pc) && !p.net.pc.Query? ==>
      Scanning(p.net.pc) && InDrain(p.net.pc) && q.net.scan.bound == p.net.scan.bound) &&
    (Scanning(q.net.pc) && p.net.pc.Query? ==> q.net.scan.bound == p.db.nextId) &&
    (q.net.pc.Done? && !p.net.pc.Done? ==> !q.net.connected || q.net.gaveUp || p.net.pc == Read(true)) &&
    (q.net.gaveUp ==> p.net.gaveUp || q.net.pc.Done?) && (p.net.pc.Done? ==> q == p)
  }

  lemma BoundOnMove(cfg: Settings, shutdown: bool, p: Proto, a: Act)
    requires Moving(p.net.pc)
    ensures BoundMoved(p, Step(cfg, shutdown, p, a))
  {
  }

  lemma BoundOnQuery(cfg: Settings, shutdown: bool, p: Proto, a: Act)
    requires p.net.pc.Query?
    ensures BoundMoved(p, Step(cfg, shutdown, p, a))
  {
  }

  lemma BoundOnUpdate(cfg: Settings, shutdown: bool, p: Proto, a: Act)
    requires Updating(p.net.pc)
    ensures BoundMoved(p, Step(cfg, shutdown, p, a))
  {
  }

  lemma RowGivesUp(cfg: Settings, shutdown: bool, p: Proto, a: Act)
    requires p.net.pc.Read? || p.net.pc.Send?
    ensures
      var q := Step(cfg, shutdown, p, a);
      q.net.gaveUp ==> p.net.gaveUp || q.net.pc.Done?
  {
    if p.net.conns != [] && p.net.pc.Send? {
      assert SendStep(cfg, p, a).net.gaveUp == p.net.gaveUp;
    }
  }

  lemma BoundMoves(cfg: Settings, shutdown: bool, p: Proto, a: Act)
    ensures BoundMoved(p, Step(cfg, shutdown, p, a))
  {
    if p.net.pc.Read? || p.net.pc.Send? {
      RowPcMoves(cfg, shutdown, p, a);
      RowGivesUp(cfg, shutdown, p, a);
    } else if p.net.pc.Query? {
      BoundOnQuery(cfg, shutdown, p, a);
    } else if Updating(p.net.pc) {
      BoundOnUpdate(cfg, shutdown, p, a);
    } else {
      BoundOnMove(cfg, shutdown, p, a);
    }
  }

  lemma UploadDrains(cfg: Settings, shutdown: bool, p: Proto, a: Act)
    requires TableInv(cfg, p) && DrainInv(cfg, p)
    ensures DrainInv(cfg, Step(cfg, shutdown, p, a))
  {
    var q := Step(cfg, shutdown, p, a);
    UnreadKeeps(cfg, shutdown, p, a);
    BoundMoves(cfg, shutdown, p, a);
    UploadPcMoves(cfg, shutdown, p, a);
    if q.net.pc.Done? && p.net.pc == Read(true) && cfg.batchMax != 0 && !q.net.gaveUp {
      DrainEnds(cfg, shutdown, p, a);
      assert NothingPending(q.db, cfg.retryMax);
    }
  }

  /** The store thread is gone before the uploader may drain. */
  lemma StoreDrains(cfg: Config, s: State, ok: bool)
    requires FlagInv(s) && DrainInv(cfg.up, s.proto)
    ensures DrainInv(cfg.up, StoreStep(cfg, s, ok).proto)
  {
    StoreParts(cfg, s, ok);
    StorePcMoves(cfg, s, ok);
  }

  lemma NextDrains(cfg: Config, s: State, a: Action)
    requires FlagInv(s) && TableInv(cfg.up, s.proto) && DrainInv(cfg.up, s.proto)
    ensures DrainInv(cfg.up, Next(cfg, s, a).proto)
  {
    match a
    case Store(ok) => StoreDrains(cfg, s, ok);
    case Upload(act) => UploadDrains(cfg.up, s.main >= UPLOADER_STOPPED, s.proto, act);
    case _ =>
      assert Next(cfg, s, a).proto == s.proto;
  }

  // ---------------------------------------------------------------------------------------
  // From the moment the uploader tests the flag
  // ---------------------------------------------------------------------------------------

  /** The uploader is about to test its flag, which is up. */
  predicate AtFlagTest(s: State) {
    s.main >= UPLOADER_STOPPED && s.proto.net.pc.Check?
  }

  /** It is past that test. */
  predicate Tested(pc: Pc) { InDrain(pc) || pc.Done? }

  lemma NextTested(cfg: Config, s: State, a: Action)
    requires Tested(Next(cfg, s, a).proto.net.pc) && !Tested(s.proto.net.pc)
    ensures AtFlagTest(s)
  {
    match a
    case Upload(act) => UploadPcMoves(cfg.up, s.main >= UPLOADER_STOPPED, s.proto, act);
    case Store(ok) => StoreParts(cfg, s, ok);
    case _ =>
  }

  /** No run gets past the flag test without passing it. */
  lemma {:induction false} PassesFlagTest(cfg: Config, s: State, acts: seq<Action>) returns (n: nat)
    requires !Tested(s.proto.net.pc) && Tested(Execution(cfg, s, acts).proto.net.pc)
    ensures n <= |acts| && AtFlagTest(Execution(cfg, s, acts[..n]))
    decreases |acts|
  {
    var init := acts[..|acts| - 1];
    if Tested(Execution(cfg, s, init).proto.net.pc) {
      n := PassesFlagTest(cfg, s, init);
      assert init[..n] == acts[..n];
    } else {
      n := |acts| - 1;
      NextTested(cfg, Execution(cfg, s, init), acts[|acts| - 1]);
    }
  }

  // ---------------------------------------------------------------------------------------
  // What the uploader's main loop still does once its flag is up
  // ---------------------------------------------------------------------------------------

  /** The main loop's query returns a row. */
  predicate TakesRow(pc: Pc, next: Pc) { pc == Read(false) && next.Send? }

  /** The main loop begins a query. */
  predicate Queries(pc: Pc, next: Pc) { pc == Query(false) && next == ScanCheck }

  /** Rows still to be taken, and queries still to be begun, with the flag up. */
  function RowsDue(pc: Pc): nat { OneIf(pc == Read(false)) }

  function QueriesDue(pc: Pc): nat { OneIf(pc.Connect? || pc == Query(false)) }

  predicate LessDue(pc: Pc, next: Pc) {
    RowsDue(next) + OneIf(TakesRow(pc, next)) <= RowsDue(pc) &&
    QueriesDue(next) + OneIf(Queries(pc, next)) <= QueriesDue(pc)
  }

  lemma ConnectLate(cfg: Settings, p: Proto, a: Act)
    requires p.net.pc.Connect?
    ensures LessDue(p.net.pc, Step(cfg, true, p, a).net.pc)
  {
  }

  lemma MoveLate(cfg: Settings, p: Proto, a: Act)
    requires p.net.pc.Check? || p.net.pc.ScanCheck? || p.net.pc.Done?
    ensures LessDue(p.net.pc, Step(cfg, true, p, a).net.pc)
  {
  }

  lemma QueryLate(cfg: Settings, p: Proto, a: Act)
    requires p.net.pc.Query?
    ensures LessDue(p.net.pc, Step(cfg, true, p, a).net.pc)
  {
  }

  lemma UpdateLate(cfg: Settings, p: Proto, a: Act)
    requires Updating(p.net.pc)
    ensures LessDue(p.net.pc, Step(cfg, true, p, a).net.pc)
  {
  }

  lemma ReadLate(cfg: Settings, p: Proto, a: Act)
    requires p.net.pc.Read? && p.net.conns != []
    ensures LessDue(p.net.pc, ReadStep(cfg, p, a).net.pc)
  {
  }

  lemma SendLate(cfg: Settings, p: Proto, a: Act)
    requires p.net.pc.Send? && p.net.conns != []
    ensures LessDue(p.net.pc, SendStep(cfg, p, a).net.pc)
  {
  }

  lemma UploadLate(cfg: Settings, p: Proto, a: Act)
    ensures LessDue(p.net.pc, Step(cfg, true, p, a).net.pc)
  {
    if p.net.pc.Read? || p.net.pc.Send? {
      if p.net.conns == [] {
        assert Step(cfg, true, p, a) == p;
      } else if p.net.pc.Read? {
        ReadLate(cfg, p, a);
      } else {
        SendLate(cfg, p, a);
      }
    } else if p.net.pc.Query? {
      QueryLate(cfg, p, a);
    } else if Updating(p.net.pc) {
      UpdateLate(cfg, p, a);
    } else if p.net.pc.Connect? {
      ConnectLate(cfg, p, a);
    } else {
      MoveLate(cfg, p, a);
    }
  }

  lemma NextLess(cfg: Config, s: State, a: Action)
    requires s.main >= UPLOADER_STOPPED
    ensures Next(cfg, s, a).main >= UPLOADER_STOPPED
    ensures LessDue(s.proto.net.pc, Next(cfg, s, a).proto.net.pc)
  {
    match a
    case Upload(act) => UploadLate(cfg.up, s.proto, act);
    case Store(ok) => StoreParts(cfg, s, ok);
    case _ => assert Next(cfg, s, a).proto == s.proto;
  }

  /** In how many steps of a run the main loop takes a row, and in how many it begins a query. */
  ghost function RowsTaken(cfg: Config, s: State, acts: seq<Action>): nat
    decreases |acts|
  {
    if acts == [] then 0
    else
      var init := acts[..|acts| - 1];
      RowsTaken(cfg, s, init) +
      OneIf(TakesRow(Execution(cfg, s, init).proto.net.pc, Execution(cfg, s, acts).proto.net.pc))
  }

  ghost function QueriesBegun(cfg: Config, s: State, acts: seq<Action>): nat
    decreases |acts|
  {
    if acts == [] then 0
    else
      var init := acts[..|acts| - 1];
      QueriesBegun(cfg, s, init) +
      OneIf(Queries(Execution(cfg, s, init).proto.net.pc, Execution(cfg, s, acts).proto.net.pc))
  }

  lemma {:induction false} RunLate(cfg: Config, s: State, acts: seq<Action>)
    requires s.main >= UPLOADER_STOPPED
    ensures
      var t := Execution(cfg, s, acts);
      t.main >= UPLOADER_STOPPED &&
      RowsDue(t.proto.net.pc) + RowsTaken(cfg, s, acts) <= RowsDue(s.proto.net.pc) &&
      QueriesDue(t.proto.net.pc) + QueriesBegun(cfg, s, acts) <= QueriesDue(s.proto.net.pc)
    decreases |acts|
  {
    if acts != [] {
      var init := acts[..|acts| - 1];
      RunLate(cfg, s, init);
      NextLess(cfg, Execution(cfg, s, init), acts[|acts| - 1]);
    }
  }

  /** Once its flag is up the uploader's main loop begins at most one more query and takes at most one
      more row, however the threads and the network go on: it tests the flag before every row. */
  lemma StopsSoon(cfg: Config, s: State, acts: seq<Action>)
    requires s.main >= UPLOADER_STOPPED
    ensures RowsTaken(cfg, s, acts) <= 1 && QueriesBegun(cfg, s, acts) <= 1
    ensures s.proto.net.pc != Read(false) ==> RowsTaken(cfg, s, acts) == 0
    ensures s.proto.net.pc != Connect && s.proto.net.pc != Query(false) ==> QueriesBegun(cfg, s, acts) == 0
  {
    RunLate(cfg, s, acts);
  }

  lemma NothingPendingEvolves(t: Table<Item>, u: Table<Item>, retryMax: int)
    requires NothingPending(t, retryMax) && Evolves(t, u)
    ensures NothingPending(u, retryMax)
  {
  }

  lemma NextNothingPending(cfg: Config, s: State, a: Action)
    requires FlagInv(s) && s.main >= UPLOADER_STOPPED && NothingPending(s.proto.db, cfg.up.retryMax)
    ensures Next(cfg, s, a).main >= UPLOADER_STOPPED && NothingPending(Next(cfg, s, a).proto.db, cfg.up.retryMax)
  {
    match a
    case Store(ok) => StorePcMoves(cfg, s, ok);
    case Upload(act) =>
      StepEvolves(cfg.up, s.main >= UPLOADER_STOPPED, s.proto, act);
      NothingPendingEvolves(s.proto.db, Next(cfg, s, a).proto.db, cfg.up.retryMax);
    case _ =>
      assert Next(cfg, s, a).proto == s.proto;
  }

  /** With the store thread gone a row that is not pending never is again. */
  lemma {:induction false} RunNothingPending(cfg: Config, s: State, acts: seq<Action>)
    requires FlagInv(s) && s.main >= UPLOADER_STOPPED && NothingPending(s.proto.db, cfg.up.retryMax)
    ensures FlagInv(Execution(cfg, s, acts)) && Execution(cfg, s, acts).main >= UPLOADER_STOPPED
    ensures NothingPending(Execution(cfg, s, acts).proto.db, cfg.up.retryMax)
    decreases |acts|
  {
    if acts != [] {
      var t := Execution(cfg, s, acts[..|acts| - 1]);
      RunNothingPending(cfg, s, acts[..|acts| - 1]);
      NextFlags(cfg, t, acts[|acts| - 1]);
      NextNothingPending(cfg, t, acts[|acts| - 1]);
    }
  }

  /** No SELECT fails, neither when it is prepared nor at one of its rows. */
  predicate SelectsRun(acts: seq<Action>) {
    forall i :: 0 <= i < |acts| ==> acts[i] != Upload(QueryFails) && acts[i] != Upload(ReadFails)
  }

  lemma MoveGoesOn(cfg: Settings, shutdown: bool, p: Proto, a: Act)
    requires Moving(p.net.pc)
    ensures Step(cfg, shutdown, p, a).net.gaveUp == p.net.gaveUp
  {
  }

  lemma UpdateGoesOn(cfg: Settings, shutdown: bool, p: Proto, a: Act)
    requires Updating(p.net.pc) || (p.net.pc.Query? && a != QueryFails)
    ensures Step(cfg, shutdown, p, a).net.gaveUp == p.net.gaveUp
  {
  }

  lemma StepGoesOn(cfg: Settings, shutdown: bool, p: Proto, a: Act)
    requires a != QueryFails && a != ReadFails
    ensures Step(cfg, shutdown, p, a).net.gaveUp == p.net.gaveUp
  {
    if Moving(p.net.pc) {
      MoveGoesOn(cfg, shutdown, p, a);
    } else if !p.net.pc.Read? && !p.net.pc.Send? {
      UpdateGoesOn(cfg, shutdown, p, a);
    } else {
      RowGoesOn(cfg, shutdown, p, a);
    }
  }

  lemma RowGoesOn(cfg: Settings, shutdown: bool, p: Proto, a: Act)
    requires (p.net.pc.Read? || p.net.pc.Send?) && a != ReadFails
    ensures Step(cfg, shutdown, p, a).net.gaveUp == p.net.gaveUp
  {
    if p.net.conns != [] && p.net.pc.Send? {
      assert SendStep(cfg, p, a).net.gaveUp == p.net.gaveUp;
    } else if p.net.conns != [] && p.net.pc.Read? {
      assert ReadStep(cfg, p, a).net.gaveUp == p.net.gaveUp;
    }
  }

  /** Then none ends the drain. */
  lemma {:induction false} RunGoesOn(cfg: Config, s: State, acts: seq<Action>)
    requires SelectsRun(acts)
    ensures Execution(cfg, s, acts).proto.net.gaveUp == s.proto.net.gaveUp
    decreases |acts|
  {
    if acts != [] {
      var t, a := Execution(cfg, s, acts[..|acts| - 1]), acts[|acts| - 1];
      RunGoesOn(cfg, s, acts[..|acts| - 1]);
      match a
      case Upload(act) => StepGoesOn(cfg.up, t.main >= UPLOADER_STOPPED, t.proto, act);
      case Store(ok) => StoreParts(cfg, t, ok);
      case _ =>
        assert Next(cfg, t, a).proto == t.proto;
    }
  }

  /** It has no connection, so it will not drain ... */
  predicate Unconnected(net: Net) {
    !net.connected && (net.pc.Check? || net.pc.Done?)
  }

  /** ... or its drain's queries may return no row. */
  predicate NoRows(cfg: Settings, net: Net) {
    cfg.batchMax == 0 &&
    (net.pc.Check? || net.pc == Query(true) || net.pc.Done? ||
     (net.pc == Read(true) && net.scan.left == 0 && !net.drained))
  }

  /** Either way the table stays as it was. */
  predicate Idle(cfg: Config, db: Table<Item>, s: State) {
    s.main >= UPLOADER_STOPPED && s.proto.db == db && (Unconnected(s.proto.net) || NoRows(cfg.up, s.proto.net))
  }

  lemma StepIdle(cfg: Settings, p: Proto, a: Act)
    requires Unconnected(p.net) || NoRows(cfg, p.net)
    ensures
      var q := Step(cfg, true, p, a);
      q.db == p.db && (Unconnected(q.net) || NoRows(cfg, q.net))
  {
  }

  lemma NextIdle(cfg: Config, db: Table<Item>, s: State, a: Action)
    requires FlagInv(s) && Idle(cfg, db, s)
    ensures Idle(cfg, db, Next(cfg, s, a))
  {
    match a
    case Store(ok) => StorePcMoves(cfg, s, ok);
    case Upload(act) => StepIdle(cfg.up, s.proto, act);
    case _ =>
      assert Next(cfg, s, a).proto == s.proto;
  }

  lemma {:induction false} RunIdle(cfg: Config, db: Table<Item>, s: State, acts: seq<Action>)
    requires FlagInv(s) && Idle(cfg, db, s)
    ensures FlagInv(Execution(cfg, s, acts)) && Idle(cfg, db, Execution(cfg, s, acts))
    decreases |acts|
  {
    if acts != [] {
      var t := Execution(cfg, s, acts[..|acts| - 1]);
      RunIdle(cfg, db, s, acts[..|acts| - 1]);
      NextFlags(cfg, t, acts[|acts| - 1]);
      NextIdle(cfg, db, t, acts[|acts| - 1]);
    }
  }

  /** With a connection it drains, and keeps the connection to the end. */
  predicate Draining(s: State) {
    s.main >= UPLOADER_STOPPED && s.proto.net.connected &&
    (s.proto.net.pc.Check? || InDrain(s.proto.net.pc) || s.proto.net.pc.Done?)
  }

  lemma StepDraining(cfg: Settings, p: Proto, a: Act)
    requires p.net.connected && (p.net.pc.Check? || InDrain(p.net.pc) || p.net.pc.Done?)
    ensures
      var q := Step(cfg, true, p, a);
      q.net.connected && (q.net.pc.Check? || InDrain(q.net.pc) || q.net.pc.Done?)
  {
    if p.net.pc.Read? || p.net.pc.Send? {
      RowPcMoves(cfg, true, p, a);
    }
  }

  lemma {:induction false} RunDraining(cfg: Config, s: State, acts: seq<Action>)
    requires Draining(s)
    ensures Draining(Execution(cfg, s, acts))
    decreases |acts|
  {
    if acts != [] {
      var t, a := Execution(cfg, s, acts[..|acts| - 1]), acts[|acts| - 1];
      RunDraining(cfg, s, acts[..|acts| - 1]);
      match a
      case Upload(act) => StepDraining(cfg.up, t.proto, act);
      case Store(ok) => StoreParts(cfg, t, ok);
      case _ =>
        assert Next(cfg, t, a).proto == t.proto;
    }
  }
}
