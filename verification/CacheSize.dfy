/** How large the samples table can get while the store thread trims it every hundred samples, and
    which samples its ids stand for (app/src/sqlite_store.c), over every interleaving. */
module CacheSize {
  import opened Tables
  import opened UploadProtocol
  import opened Pipeline

  predicate Trimming(pc: StorePc) { pc.Count? || pc.DeleteSent? || pc.Recount? || pc.DeleteOld? }

  /** The store thread's main loop, its periodic trims included. */
  predicate InMainLoop(pc: StorePc) {
    pc.StoreCheck? || pc.StorePop? || (pc.Insert? && !pc.drain) || (Trimming(pc) && !pc.final)
  }

  /** The counter counts the samples handled, whether or not their insert succeeded. */
  predicate Handled(b: Back) { b.counter == |b.written| + |b.failed| }

  lemma NextHandled(cfg: Config, s: State, a: Action)
    requires Handled(s.back)
    ensures Handled(Next(cfg, s, a).back)
  {
    if a.Store? {
      StoreHandled(cfg, s, a.ok);
    } else {
      assert Next(cfg, s, a).back == s.back;
    }
  }

  lemma StoreHandled(cfg: Config, s: State, ok: bool)
    requires Handled(s.back)
    ensures Handled(StoreStep(cfg, s, ok).back)
  {
    if s.back.pc.Insert? {
      InsertHandled(cfg, s, ok);
    } else {
      OthersHandle(cfg, s, ok);
    }
  }

  lemma InsertHandled(cfg: Config, s: State, ok: bool)
    requires Handled(s.back) && s.back.pc.Insert?
    ensures Handled(InsertStep(cfg, s, ok).back)
  {
  }

  /** Nothing more is handled, and no trim begins in the main loop. */
  predicate HandlesNone(b: Back, c: Back) {
    c.counter == b.counter && c.written == b.written && c.failed == b.failed && (c.pc == Count(false) ==> c.pc == b.pc)
  }

  lemma TrimHandles(cfg: Config, s: State, ok: bool)
    requires Trimming(s.back.pc)
    ensures HandlesNone(s.back, TrimStep(cfg, s, ok).back)
  {
  }

  lemma OthersHandle(cfg: Config, s: State, ok: bool)
    requires !s.back.pc.Insert?
    ensures HandlesNone(s.back, StoreStep(cfg, s, ok).back)
  {
    if Trimming(s.back.pc) {
      TrimHandles(cfg, s, ok);
    }
  }

  /** The main loop goes into a trim right after every hundredth sample handled, if there is a limit,
      and at no other time. */
  lemma TrimsEveryHundredth(cfg: Config, s: State, a: Action)
    requires Handled(s.back)
    ensures
      var b := Next(cfg, s, a).back;
      b.pc == Count(false) && b.pc != s.back.pc <==>
      cfg.maxCache > 0 && a.Store? && s.back.pc.Insert? && !s.back.pc.drain && (|b.written| + |b.failed|) % 100 == 0
  {
    if a.Store? {
      if s.back.pc.Insert? {
        InsertHandled(cfg, s, a.ok);
      } else {
        OthersHandle(cfg, s, a.ok);
      }
    } else {
      assert Next(cfg, s, a).back == s.back;
    }
  }

  /** In every state a run reaches the counter is right. */
  lemma {:induction false} RunHandled(cfg: Config, s: State, acts: seq<Action>)
    requires Handled(s.back)
    ensures Handled(Execution(cfg, s, acts).back)
    decreases |acts|
  {
    if acts != [] {
      RunHandled(cfg, s, acts[..|acts| - 1]);
      NextHandled(cfg, Execution(cfg, s, acts[..|acts| - 1]), acts[|acts| - 1]);
    }
  }

  /** The bound right after the last trim, or at the start. */
  function Ceiling(maxCache: int, initial: nat, counter: nat): int {
    if counter >= 100 then maxCache else initial
  }

  /** Between its count and the delete that follows, the number of rows stays what was counted. */
  predicate CountedOk(maxCache: int, size: nat, pc: StorePc) {
    (pc.DeleteSent? ==> pc.excess > 0 && size == maxCache + pc.excess) &&
    (pc.DeleteOld? ==> pc.excess > 0 && size == maxCache + pc.excess)
  }

  predicate LoopOk(maxCache: int, initial: nat, size: nat, b: Back) {
    if Trimming(b.pc) then
      b.counter >= 100 && b.counter % 100 == 0 && size <= Ceiling(maxCache, initial, b.counter - 1) + 100
    else size <= Ceiling(maxCache, initial, b.counter) + b.counter % 100
  }

  /** As long as no trim statement has failed: at most the samples since the last multiple of a
      hundred above the bound in the main loop, and within the limit at the end. */
  predicate SizeOk(maxCache: int, initial: nat, size: nat, b: Back) {
    CountedOk(maxCache, size, b.pc) &&
    (!b.trimFailed && InMainLoop(b.pc) ==> LoopOk(maxCache, initial, size, b)) &&
    (!b.trimFailed && b.pc.StoreDone? ==> size <= maxCache)
  }

  predicate SizeInv(cfg: Config, initial: nat, s: State) {
    SizeOk(cfg.maxCache, initial, |s.proto.db.rows|, s.back)
  }

  /** The counter goes up whether or not the insert succeeds. */
  lemma InsertSize(cfg: Config, initial: nat, size: nat, b: Back, more: nat, next: Back)
    requires cfg.maxCache > 0 && b.pc.Insert? && SizeOk(cfg.maxCache, initial, size, b) && more <= 1
    requires next.pc == AfterInsert(cfg, b.counter + 1, b.pc.drain) && next.counter == b.counter + 1
    requires next.trimFailed == b.trimFailed
    ensures SizeOk(cfg.maxCache, initial, size + more, next)
  {
    var c := b.counter;
    assert (c + 1) % 100 == if c % 100 == 99 then 0 else c % 100 + 1;
  }

  lemma InsertKeeps(cfg: Config, initial: nat, s: State, ok: bool)
    requires cfg.maxCache > 0 && s.back.pc.Insert? && SizeInv(cfg, initial, s) && Wellformed(s.proto.db)
    ensures SizeInv(cfg, initial, InsertStep(cfg, s, ok))
  {
    var t := InsertStep(cfg, s, ok);
    InsertedOne(s.proto.db, s.back.pc.item);
    InsertSize(cfg, initial, |s.proto.db.rows|, s.back, if ok then 1 else 0, t.back);
  }

  /** The first DELETE leaves at least maxCount rows: it takes only as many as are too many. */
  lemma SentSize<P>(t: Table<P>, maxCount: nat, excess: nat)
    requires excess > 0 && |t.rows| == maxCount + excess
    ensures maxCount <= |DeleteUploaded(t, excess).rows| <= |t.rows|
  {
    FirstDelete(t, maxCount);
    TwoKinds(t.rows);
  }

  lemma OldSize<P>(t: Table<P>, maxCount: nat, excess: nat)
    requires excess > 0 && |t.rows| == maxCount + excess
    ensures |DeleteOldest(t, excess).rows| == maxCount
  {
    SecondDelete(t, maxCount);
  }

  /** Moving on within a trim, or giving it up. */
  lemma CountKeeps(cfg: Config, initial: nat, s: State, ok: bool)
    requires cfg.maxCache > 0 && SizeInv(cfg, initial, s) && (s.back.pc.Count? || s.back.pc.Recount?)
    ensures SizeInv(cfg, initial, TrimStep(cfg, s, ok))
  {
  }

  lemma SentOk(maxCache: nat, initial: nat, size: nat, b: Back, left: nat, waiting: nat)
    requires SizeOk(maxCache, initial, size, b) && b.pc.DeleteSent? && left <= size
    ensures SizeOk(maxCache, initial, left, b.(pc := Recount(b.pc.final), waiting := waiting))
  {
  }

  lemma DeleteSentKeeps(cfg: Config, initial: nat, s: State, ok: bool)
    requires cfg.maxCache > 0 && SizeInv(cfg, initial, s) && s.back.pc.DeleteSent?
    ensures SizeInv(cfg, initial, TrimStep(cfg, s, ok))
  {
    if ok {
      var u := DeleteUploaded(s.proto.db, s.back.pc.excess);
      SentSize(s.proto.db, cfg.maxCache, s.back.pc.excess);
      SentOk(cfg.maxCache, initial, |s.proto.db.rows|, s.back, |u.rows|, |Unuploaded(s.proto.db.rows)|);
    }
  }

  lemma DeleteOldKeeps(cfg: Config, initial: nat, s: State, ok: bool)
    requires cfg.maxCache > 0 && SizeInv(cfg, initial, s) && s.back.pc.DeleteOld?
    ensures SizeInv(cfg, initial, TrimStep(cfg, s, ok))
  {
    OldSize(s.proto.db, cfg.maxCache, s.back.pc.excess);
  }

  /** Checking the flag and popping a sample leave the table alone. */
  lemma QuietStore(cfg: Config, s: State, ok: bool)
    requires !s.back.pc.Insert? && !Trimming(s.back.pc)
    ensures
      var t := StoreStep(cfg, s, ok);
      t.proto == s.proto && t.back == s.back.(pc := t.back.pc) &&
      (InMainLoop(t.back.pc) ==> InMainLoop(s.back.pc) && !Trimming(t.back.pc)) &&
      !t.back.pc.DeleteSent? && !t.back.pc.DeleteOld? && (t.back.pc.StoreDone? ==> s.back.pc.StoreDone?)
  {
  }

  lemma QuietKeeps(cfg: Config, initial: nat, s: State, ok: bool)
    requires SizeInv(cfg, initial, s) && !s.back.pc.Insert? && !Trimming(s.back.pc)
    ensures SizeInv(cfg, initial, StoreStep(cfg, s, ok))
  {
    QuietStore(cfg, s, ok);
  }

  lemma StoreKeeps(cfg: Config, initial: nat, s: State, ok: bool)
    requires cfg.maxCache > 0 && SizeInv(cfg, initial, s) && Wellformed(s.proto.db)
    ensures SizeInv(cfg, initial, StoreStep(cfg, s, ok))
  {
    if s.back.pc.Insert? {
      InsertKeeps(cfg, initial, s, ok);
    } else if s.back.pc.DeleteSent? {
      DeleteSentKeeps(cfg, initial, s, ok);
    } else if s.back.pc.DeleteOld? {
      DeleteOldKeeps(cfg, initial, s, ok);
    } else if Trimming(s.back.pc) {
      CountKeeps(cfg, initial, s, ok);
    } else {
      QuietKeeps(cfg, initial, s, ok);
    }
  }

  lemma UploadKeeps(cfg: Config, initial: nat, s: State, act: Act)
    requires SizeInv(cfg, initial, s)
    ensures SizeInv(cfg, initial, Next(cfg, s, Upload(act)))
  {
    StepEvolves(cfg.up, s.main >= UPLOADER_STOPPED, s.proto, act);
    SameSize(s.proto.db, Next(cfg, s, Upload(act)).proto.db);
  }

  lemma NextKeeps(cfg: Config, initial: nat, s: State, a: Action)
    requires cfg.maxCache > 0 && SizeInv(cfg, initial, s) && Wellformed(s.proto.db)
    ensures SizeInv(cfg, initial, Next(cfg, s, a))
  {
    match a
    case Store(ok) => StoreKeeps(cfg, initial, s, ok);
    case Upload(act) => UploadKeeps(cfg, initial, s, act);
    case _ =>
      assert Next(cfg, s, a).back == s.back && Next(cfg, s, a).proto == s.proto;
  }

  // ---------------------------------------------------------------------------------------
  // A trim among the other threads
  // ---------------------------------------------------------------------------------------

  /** Only other threads move. */
  predicate WithoutStore(acts: seq<Action>) { forall i :: 0 <= i < |acts| ==> !acts[i].Store? }

  lemma EvolvesTwice<P>(t: Table<P>, u: Table<P>, v: Table<P>)
    requires Evolves(t, u) && Evolves(u, v)
    ensures Evolves(t, v)
  {
  }

  lemma OtherStep(cfg: Config, s: State, a: Action)
    requires !a.Store?
    ensures Next(cfg, s, a).back == s.back && Evolves(s.proto.db, Next(cfg, s, a).proto.db)
  {
    if a.Upload? {
      StepEvolves(cfg.up, s.main >= UPLOADER_STOPPED, s.proto, a.act);
    } else {
      assert Next(cfg, s, a).proto == s.proto;
    }
  }

  /** While the store thread stands still, rows only have their upload columns moved forwards. */
  lemma {:induction false} OthersEvolve(cfg: Config, s: State, acts: seq<Action>)
    requires WithoutStore(acts)
    ensures Execution(cfg, s, acts).back == s.back && Evolves(s.proto.db, Execution(cfg, s, acts).proto.db)
    decreases |acts|
  {
    if acts != [] {
      var t := Execution(cfg, s, acts[..|acts| - 1]);
      OthersEvolve(cfg, s, acts[..|acts| - 1]);
      OtherStep(cfg, t, acts[|acts| - 1]);
      EvolvesTwice(s.proto.db, t.proto.db, Next(cfg, t, acts[|acts| - 1]).proto.db);
    } else {
      assert Evolves(s.proto.db, s.proto.db);
    }
  }

  /** The store thread's next statement, and then whatever the others do before its next one. */
  ghost function Statement(cfg: Config, s: State, others: seq<Action>): State {
    Execution(cfg, TrimStep(cfg, s, true), others)
  }

  lemma CountStatement(cfg: Config, s: State, others: seq<Action>)
    requires s.back.pc.Count? && 0 < cfg.maxCache < |s.proto.db.rows| && WithoutStore(others)
    ensures
      var t := Statement(cfg, s, others);
      t.back.pc == DeleteSent(|s.proto.db.rows| - cfg.maxCache, s.back.pc.final) && Evolves(s.proto.db, t.proto.db)
  {
    OthersEvolve(cfg, TrimStep(cfg, s, true), others);
  }

  lemma DeleteStatement(cfg: Config, s: State, others: seq<Action>)
    requires s.back.pc.DeleteSent? && WithoutStore(others)
    ensures
      var t := Statement(cfg, s, others);
      t.back.pc == Recount(s.back.pc.final) && Evolves(DeleteUploaded(s.proto.db, s.back.pc.excess), t.proto.db)
  {
    OthersEvolve(cfg, TrimStep(cfg, s, true), others);
  }

  lemma RecountStatement(cfg: Config, s: State, others: seq<Action>)
    requires s.back.pc.Recount? && cfg.maxCache > 0 && WithoutStore(others)
    ensures
      var t, size := Statement(cfg, s, others), |s.proto.db.rows|;
      Evolves(s.proto.db, t.proto.db) &&
      t.back.pc ==
        if size > cfg.maxCache then DeleteOld(size - cfg.maxCache, s.back.pc.final)
        else AfterTrim(s.back.pc.final)
  {
    OthersEvolve(cfg, TrimStep(cfg, s, true), others);
  }

  /** The table after the second DELETE, if there is one. */
  lemma TrimEnds(cfg: Config, counted: Table<Item>, last: State, final: bool)
    requires cfg.maxCache > 0
    requires last.back.pc ==
      if |counted.rows| > cfg.maxCache then DeleteOld(|counted.rows| - cfg.maxCache, final) else AfterTrim(final)
    ensures
      var end := if last.back.pc.DeleteOld? then TrimStep(cfg, last, true) else last;
      end.back.pc == AfterTrim(final) && end.proto.db == SecondHalf(counted, last.proto.db, cfg.maxCache)
  {
  }

  /** The states before the last three of the four statements, with a, b and c what the other threads
      do after the first three. */
  ghost predicate TrimRun(cfg: Config, s: State, a: seq<Action>, b: seq<Action>, c: seq<Action>,
                          delete: State, recount: State, last: State) {
    s.back.pc.Count? && 0 < cfg.maxCache < |s.proto.db.rows| &&
    WithoutStore(a) && WithoutStore(b) && WithoutStore(c) &&
    delete == Statement(cfg, s, a) && recount == Statement(cfg, delete, b) &&
    last == Statement(cfg, recount, c)
  }

  lemma TrimTables(cfg: Config, s: State, a: seq<Action>, b: seq<Action>, c: seq<Action>,
                   delete: State, recount: State, last: State)
    requires TrimRun(cfg, s, a, b, c, delete, recount, last)
    ensures TrimmedTo(delete.proto.db, SecondHalf(recount.proto.db, last.proto.db, cfg.maxCache), cfg.maxCache)
  {
    CountStatement(cfg, s, a);
    DeleteStatement(cfg, delete, b);
    RecountStatement(cfg, recount, c);
    TrimInterleaved(s.proto.db, delete.proto.db, recount.proto.db, last.proto.db, cfg.maxCache);
  }

  lemma TrimPcs(cfg: Config, s: State, a: seq<Action>, b: seq<Action>, c: seq<Action>,
                delete: State, recount: State, last: State)
    requires TrimRun(cfg, s, a, b, c, delete, recount, last)
    ensures
      var size, final := |recount.proto.db.rows|, s.back.pc.final;
      last.back.pc == if size > cfg.maxCache then DeleteOld(size - cfg.maxCache, final) else AfterTrim(final)
  {
    CountStatement(cfg, s, a);
    DeleteStatement(cfg, delete, b);
    RecountStatement(cfg, recount, c);
  }

  /** A trim that finds too many rows, with the other threads moving between its statements: it
      ends with exactly the limit, and a row waiting for upload at the first DELETE goes only if
      more than the limit were waiting. */
  lemma TrimAmongOthers(cfg: Config, s: State, a: seq<Action>, b: seq<Action>, c: seq<Action>,
                        delete: State, recount: State, last: State)
    requires TrimRun(cfg, s, a, b, c, delete, recount, last)
    ensures
      var end := if last.back.pc.DeleteOld? then TrimStep(cfg, last, true) else last;
      end.back.pc == AfterTrim(s.back.pc.final) && TrimmedTo(delete.proto.db, end.proto.db, cfg.maxCache)
  {
    TrimTables(cfg, s, a, b, c, delete, recount, last);
    TrimPcs(cfg, s, a, b, c, delete, recount, last);
    TrimEnds(cfg, recount.proto.db, last, s.back.pc.final);
  }

  // ---------------------------------------------------------------------------------------
  // Rows that a trim takes
  // ---------------------------------------------------------------------------------------

  /** A second DELETE runs only if more rows than the limit were waiting at the first one. */
  predicate WaitOk(maxCache: int, size: nat, b: Back) {
    (b.pc.Recount? && size > maxCache ==> b.waiting > maxCache) && (b.pc.DeleteOld? ==> b.waiting > maxCache)
  }

  predicate WaitInv(cfg: Config, s: State) {
    CountedOk(cfg.maxCache, |s.proto.db.rows|, s.back.pc) && WaitOk(cfg.maxCache, |s.proto.db.rows|, s.back)
  }

  lemma WaitDelete(cfg: Config, s: State, ok: bool)
    requires cfg.maxCache > 0 && WaitInv(cfg, s) && s.back.pc.DeleteSent?
    ensures WaitInv(cfg, TrimStep(cfg, s, ok))
  {
    if ok {
      FirstDeleteSize(s.proto.db, s.proto.db, cfg.maxCache);
      assert TrimStep(cfg, s, ok).proto.db == DeleteUploaded(s.proto.db, |s.proto.db.rows| - cfg.maxCache);
    }
  }

  lemma WaitTrim(cfg: Config, s: State, ok: bool)
    requires cfg.maxCache > 0 && WaitInv(cfg, s) && Trimming(s.back.pc)
    ensures WaitInv(cfg, TrimStep(cfg, s, ok))
  {
    if s.back.pc.DeleteSent? {
      WaitDelete(cfg, s, ok);
    }
  }

  lemma NotTrimming(cfg: Config, s: State, ok: bool)
    requires !Trimming(s.back.pc)
    ensures
      var pc := StoreStep(cfg, s, ok).back.pc;
      !pc.Recount? && !pc.DeleteSent? && !pc.DeleteOld?
  {
  }

  lemma NextWait(cfg: Config, s: State, a: Action)
    requires cfg.maxCache > 0 && WaitInv(cfg, s)
    ensures WaitInv(cfg, Next(cfg, s, a))
  {
    if a.Store? {
      if Trimming(s.back.pc) {
        WaitTrim(cfg, s, a.ok);
      } else {
        NotTrimming(cfg, s, a.ok);
      }
    } else {
      OtherStep(cfg, s, a);
      SameSize(s.proto.db, Next(cfg, s, a).proto.db);
    }
  }

  /** The second DELETE of a trim takes a row that was never sent, more rows than the limit having
      been waiting for upload at the trim's first DELETE. */
  predicate Dropped(cfg: Config, s: State, t: State, id: nat) {
    s.back.pc.DeleteOld? && s.back.waiting > cfg.maxCache &&
    id in s.proto.db.rows && !s.proto.db.rows[id].uploaded && id !in t.proto.db.rows
  }

  /** Rows disappear only in the two DELETEs, and the first one takes uploaded rows only. */
  lemma RowTaken(cfg: Config, s: State, a: Action, id: nat)
    requires cfg.maxCache > 0 && WaitInv(cfg, s)
    requires id in s.proto.db.rows && id !in Next(cfg, s, a).proto.db.rows
    ensures s.proto.db.rows[id].uploaded || Dropped(cfg, s, Next(cfg, s, a), id)
  {
    if a.Store? {
      StoreTakes(cfg, s, a.ok, id);
    } else {
      OtherStep(cfg, s, a);
    }
  }

  lemma StoreTakes(cfg: Config, s: State, ok: bool, id: nat)
    ensures
      id in s.proto.db.rows && id !in StoreStep(cfg, s, ok).proto.db.rows ==>
        s.back.pc.DeleteOld? || (s.back.pc.DeleteSent? && s.proto.db.rows[id].uploaded)
  {
    if s.back.pc.DeleteSent? {
      LowestAre(Uploaded(s.proto.db.rows), s.back.pc.excess);
    }
  }

  // ---------------------------------------------------------------------------------------
  // Ids
  // ---------------------------------------------------------------------------------------

  /** In a table that started empty at base, id base + i is the i-th sample written. */
  ghost predicate IdsOk(base: nat, db: Table<Item>, hist: map<nat, Item>, written: seq<Item>) {
    Wellformed(db) && db.nextId == base + |written| &&
    (forall id :: id in hist <==> base <= id < db.nextId) &&
    forall id :: id in hist ==> hist[id] == written[id - base]
  }

  ghost predicate IdInv(base: nat, s: State) {
    IdsOk(base, s.proto.db, s.proto.hist, s.back.written)
  }

  lemma InsertIds(base: nat, p: Proto, written: seq<Item>, item: Item)
    requires IdsOk(base, p.db, p.hist, written)
    ensures IdsOk(base, EnvInsert(p, item).db, EnvInsert(p, item).hist, written + [item])
  {
  }

  lemma StoreIds(cfg: Config, base: nat, s: State, ok: bool)
    requires IdInv(base, s)
    ensures IdInv(base, StoreStep(cfg, s, ok))
  {
    if s.back.pc.Insert? {
      InsertIds(base, s.proto, s.back.written, s.back.pc.item);
    } else {
      var t := StoreStep(cfg, s, ok);
      assert t.back.written == s.back.written && t.proto.hist == s.proto.hist && t.proto.db.nextId == s.proto.db.nextId;
      assert t.proto.db.rows.Keys <= s.proto.db.rows.Keys;
    }
  }

  lemma NextIds(cfg: Config, base: nat, s: State, a: Action)
    requires IdInv(base, s)
    ensures IdInv(base, Next(cfg, s, a))
  {
    match a
    case Store(ok) => StoreIds(cfg, base, s, ok);
    case Upload(act) => StepEvolves(cfg.up, s.main >= UPLOADER_STOPPED, s.proto, act);
    case _ =>
      assert Next(cfg, s, a).back == s.back && Next(cfg, s, a).proto == s.proto;
  }
}
