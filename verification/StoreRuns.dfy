/** The imperative store thread of StoreThread and the one of Pipeline are the same: each turn, each
    trim and the drain, run alone, are runs of the machine in which only the store thread moves. */
module StoreRuns {
  import opened Tables
  import opened Queues
  import opened Sequences
  import opened UploadProtocol
  import opened StoreThread
  import opened Pipeline
  import opened Runs

  /** The machine's queue, table and counters. */
  function BooksOf(s: State): Books<Item> {
    Books(s.front.sq, s.proto.db, s.back.counter, |s.back.written|, |s.back.failed|)
  }

  predicate OnlyStore(acts: seq<Action>) { forall i :: 0 <= i < |acts| ==> acts[i].Store? }

  // ---------------------------------------------------------------------------------------
  // A trim
  // ---------------------------------------------------------------------------------------

  /** The trim has left the table as TrimRan says, and nothing else changed. */
  predicate Trimmed(cfg: Config, s: State, t: State, ran: Statements, final: bool) {
    t == s.(proto := s.proto.(db := TrimRan(s.proto.db, cfg.maxCache, ran)),
            back := s.back.(pc := AfterTrim(final), trimFailed := t.back.trimFailed, waiting := t.back.waiting))
  }

  lemma Statement(cfg: Config, s: State, acts: seq<Action>, ok: bool) returns (more: seq<Action>)
    requires OnlyStore(acts)
    ensures OnlyStore(more) && Execution(cfg, s, more) == StoreStep(cfg, Execution(cfg, s, acts), ok)
  {
    more := Move(cfg, s, acts, Store(ok), StoreStep(cfg, Execution(cfg, s, acts), ok));
  }

  /** The trim gives up, or has nothing left to do. */
  predicate TrimOver(s: State, t: State, final: bool) {
    t == s.(back := s.back.(pc := AfterTrim(final), trimFailed := t.back.trimFailed))
  }

  lemma AtCount(cfg: Config, s: State, ok: bool)
    requires s.back.pc.Count?
    ensures
      var t, size := StoreStep(cfg, s, ok), |s.proto.db.rows|;
      if cfg.maxCache > 0 && ok && size > cfg.maxCache then
        t == s.(back := s.back.(pc := DeleteSent(size - cfg.maxCache, s.back.pc.final)))
      else TrimOver(s, t, s.back.pc.final)
  {
  }

  lemma AtDeleteSent(cfg: Config, s: State, ok: bool)
    requires s.back.pc.DeleteSent?
    ensures
      var t := StoreStep(cfg, s, ok);
      if ok then
        t == s.(proto := s.proto.(db := DeleteUploaded(s.proto.db, s.back.pc.excess)),
                back := s.back.(pc := Recount(s.back.pc.final), waiting := t.back.waiting))
      else TrimOver(s, t, s.back.pc.final)
  {
  }

  lemma AtRecount(cfg: Config, s: State, ok: bool)
    requires s.back.pc.Recount?
    ensures
      var t, size := StoreStep(cfg, s, ok), |s.proto.db.rows|;
      if cfg.maxCache > 0 && ok && size > cfg.maxCache then
        t == s.(back := s.back.(pc := DeleteOld(size - cfg.maxCache, s.back.pc.final)))
      else cfg.maxCache > 0 ==> TrimOver(s, t, s.back.pc.final)
  {
  }

  lemma AtDeleteOld(cfg: Config, s: State, ok: bool)
    requires s.back.pc.DeleteOld?
    ensures
      var t := StoreStep(cfg, s, ok);
      t == s.(proto := if ok then s.proto.(db := DeleteOldest(s.proto.db, s.back.pc.excess)) else s.proto,
              back := s.back.(pc := AfterTrim(s.back.pc.final), trimFailed := t.back.trimFailed))
  {
  }

  /** From the second COUNT on. */
  function Recounted(cfg: Config, db: Table<Item>, ran: Statements): Table<Item> {
    if ran.recount && ran.deleteOld && |db.rows| > cfg.maxCache > 0 then DeleteOldest(db, |db.rows| - cfg.maxCache)
    else db
  }

  /** It has left the table so, and nothing else changed. */
  predicate SecondHalf(cfg: Config, s: State, t: State, ran: Statements, final: bool) {
    t == s.(proto := s.proto.(db := Recounted(cfg, s.proto.db, ran)),
            back := s.back.(pc := AfterTrim(final), trimFailed := t.back.trimFailed))
  }

  lemma SecondDelete(cfg: Config, s: State, u: State, ran: Statements)
    requires s.back.pc.Recount? && ran.recount && |s.proto.db.rows| > cfg.maxCache > 0
    requires u == s.(back := s.back.(pc := DeleteOld(|s.proto.db.rows| - cfg.maxCache, s.back.pc.final)))
    ensures SecondHalf(cfg, s, StoreStep(cfg, u, ran.deleteOld), ran, s.back.pc.final)
  {
    AtDeleteOld(cfg, u, ran.deleteOld);
  }

  lemma RecountIsRun(cfg: Config, s: State, ran: Statements) returns (acts: seq<Action>)
    requires s.back.pc.Recount? && cfg.maxCache > 0
    ensures OnlyStore(acts) && SecondHalf(cfg, s, Execution(cfg, s, acts), ran, s.back.pc.final)
  {
    acts := Statement(cfg, s, [], ran.recount);
    AtRecount(cfg, s, ran.recount);
    if ran.recount && |s.proto.db.rows| > cfg.maxCache {
      SecondDelete(cfg, s, Execution(cfg, s, acts), ran);
      acts := Statement(cfg, s, acts, ran.deleteOld);
    }
  }

  lemma BothHalves(cfg: Config, s: State, u: State, t: State, ran: Statements, final: bool)
    requires ran.count && ran.delete && |s.proto.db.rows| > cfg.maxCache > 0 && SecondHalf(cfg, u, t, ran, final)
    requires
      u == s.(proto := s.proto.(db := DeleteUploaded(s.proto.db, |s.proto.db.rows| - cfg.maxCache)),
              back := s.back.(pc := u.back.pc, waiting := u.back.waiting))
    ensures Trimmed(cfg, s, t, ran, final)
  {
  }

  lemma FirstDeleteFails(cfg: Config, s: State, d: State, ran: Statements)
    requires ran.count && !ran.delete && |s.proto.db.rows| > cfg.maxCache > 0 && s.back.pc.Count?
    requires d == s.(back := s.back.(pc := DeleteSent(|s.proto.db.rows| - cfg.maxCache, s.back.pc.final)))
    ensures Trimmed(cfg, s, StoreStep(cfg, d, false), ran, s.back.pc.final)
  {
    AtDeleteSent(cfg, d, false);
  }

  lemma FirstDeleteRuns(cfg: Config, s: State, d: State, u: State)
    requires |s.proto.db.rows| > cfg.maxCache > 0 && s.back.pc.Count? && u == StoreStep(cfg, d, true)
    requires d == s.(back := s.back.(pc := DeleteSent(|s.proto.db.rows| - cfg.maxCache, s.back.pc.final)))
    ensures u.back.pc == Recount(s.back.pc.final)
    ensures
      u == s.(proto := s.proto.(db := DeleteUploaded(s.proto.db, |s.proto.db.rows| - cfg.maxCache)),
              back := s.back.(pc := u.back.pc, waiting := u.back.waiting))
  {
    AtDeleteSent(cfg, d, true);
  }

  lemma DeletesIsRun(cfg: Config, s: State, d: State, ran: Statements) returns (acts: seq<Action>)
    requires ran.count && |s.proto.db.rows| > cfg.maxCache > 0 && s.back.pc.Count?
    requires d == s.(back := s.back.(pc := DeleteSent(|s.proto.db.rows| - cfg.maxCache, s.back.pc.final)))
    ensures OnlyStore(acts) && Trimmed(cfg, s, Execution(cfg, d, acts), ran, s.back.pc.final)
  {
    acts := Statement(cfg, d, [], ran.delete);
    if ran.delete {
      var u := StoreStep(cfg, d, true);
      FirstDeleteRuns(cfg, s, d, u);
      var more := RecountIsRun(cfg, u, ran);
      BothHalves(cfg, s, u, Execution(cfg, u, more), ran, s.back.pc.final);
      Joined(cfg, d, acts, more);
      acts := acts + more;
    } else {
      FirstDeleteFails(cfg, s, d, ran);
    }
  }

  /** A trim by itself, whichever of its statements succeed. */
  lemma TrimIsRun(cfg: Config, s: State, ran: Statements) returns (acts: seq<Action>)
    requires s.back.pc.Count?
    ensures OnlyStore(acts) && Trimmed(cfg, s, Execution(cfg, s, acts), ran, s.back.pc.final)
  {
    acts := Statement(cfg, s, [], ran.count);
    AtCount(cfg, s, ran.count);
    if cfg.maxCache > 0 && ran.count && |s.proto.db.rows| > cfg.maxCache {
      var more := DeletesIsRun(cfg, s, Execution(cfg, s, acts), ran);
      Joined(cfg, s, acts, more);
      acts := acts + more;
    }
  }

  // ---------------------------------------------------------------------------------------
  // A turn of the main loop
  // ---------------------------------------------------------------------------------------

  /** Nothing moved but the store thread and what it works on. */
  predicate StoreMoved(s: State, t: State) {
    t == s.(front := s.front.(sq := t.front.sq), back := t.back,
            proto := s.proto.(db := t.proto.db, hist := t.proto.hist))
  }

  /** The oldest sample has been popped and written, or counted as failed. */
  predicate Wrote(cfg: Config, s: State, t: State, accepted: bool, drain: bool)
    requires s.front.sq.items != []
  {
    var b, x := s.back, s.front.sq.items[0];
    StoreMoved(s, t) && t.front.sq == AfterPop(s.front.sq) &&
    t.back == b.(pc := AfterInsert(cfg, b.counter + 1, drain), counter := b.counter + 1,
                 written := if accepted then b.written + [x] else b.written,
                 failed := if accepted then b.failed else b.failed + [x]) &&
    t.proto.db == if accepted then Inserted(s.proto.db, x) else s.proto.db
  }

  lemma Pops(cfg: Config, s: State, drain: bool)
    requires s.front.sq.items != [] && s.back.pc == if drain then DrainPop else StorePop
    ensures
      var q: ItemQueue := AfterPop(s.front.sq);
      StoreStep(cfg, s, true) ==
      s.(front := s.front.(sq := q), back := s.back.(pc := Insert(s.front.sq.items[0], drain)))
  {
  }

  lemma Looks(cfg: Config, s: State, drain: bool)
    requires s.front.sq.items != [] && s.back.pc == if drain then DrainCheck else StoreCheck
    requires s.main < STORE_STOPPED || drain
    ensures StoreStep(cfg, s, true) == s.(back := s.back.(pc := if drain then DrainPop else StorePop))
  {
  }

  lemma Inserts(cfg: Config, s: State, u: State, v: State, accepted: bool, drain: bool)
    requires s.front.sq.items != [] && u == s.(back := s.back.(pc := u.back.pc))
    requires
      var q: ItemQueue := AfterPop(s.front.sq);
      v == u.(front := s.front.(sq := q), back := u.back.(pc := Insert(s.front.sq.items[0], drain)))
    ensures Wrote(cfg, s, StoreStep(cfg, v, accepted), accepted, drain)
  {
    assert StoreStep(cfg, v, accepted) == InsertStep(cfg, v, accepted);
  }

  lemma WriteIsRun(cfg: Config, s: State, accepted: bool, drain: bool) returns (acts: seq<Action>)
    requires s.front.sq.items != [] && s.back.pc == if drain then DrainCheck else StoreCheck
    requires s.main < STORE_STOPPED || drain
    ensures OnlyStore(acts) && Wrote(cfg, s, Execution(cfg, s, acts), accepted, drain)
  {
    acts := Statement(cfg, s, [], true);
    Looks(cfg, s, drain);
    var u := Execution(cfg, s, acts);
    Pops(cfg, u, drain);
    acts := Statement(cfg, s, acts, true);
    Inserts(cfg, s, u, Execution(cfg, s, acts), accepted, drain);
    acts := Statement(cfg, s, acts, accepted);
  }

  lemma TrimAfterWrite(cfg: Config, s: State, t: State, accepted: bool, ran: Statements) returns (acts: seq<Action>)
    requires s.front.sq.items != [] && Wrote(cfg, s, t, accepted, false)
    ensures OnlyStore(acts)
    ensures
      var u := Execution(cfg, t, acts);
      StoreMoved(s, u) && u.back.pc == StoreCheck &&
      TurnDone(BooksOf(s), BooksOf(u), cfg.maxCache, false, accepted, ran)
  {
    if t.back.pc.Count? {
      acts := TrimIsRun(cfg, t, ran);
    } else {
      acts := [];
    }
  }

  /** One turn of the imperative main loop, whatever its outcomes, is a run of the machine. */
  lemma TurnIsRun(cfg: Config, s: State, expired: bool, accepted: bool, ran: Statements) returns (acts: seq<Action>)
    requires s.back.pc == StoreCheck && s.main < STORE_STOPPED
    ensures OnlyStore(acts)
    ensures
      var t := Execution(cfg, s, acts);
      StoreMoved(s, t) && t.back.pc == StoreCheck &&
      TurnDone(BooksOf(s), BooksOf(t), cfg.maxCache, expired, accepted, ran)
  {
    if expired || s.front.sq.items == [] {
      acts := [];
    } else {
      var a := WriteIsRun(cfg, s, accepted, false);
      var b := TrimAfterWrite(cfg, s, Execution(cfg, s, a), accepted, ran);
      Joined(cfg, s, a, b);
      acts := a + b;
    }
  }

  // ---------------------------------------------------------------------------------------
  // The drain
  // ---------------------------------------------------------------------------------------

  /** The first samples, done, have been written or counted as failed; rest is left. */
  predicate Drained(s: State, t: State, done: seq<Item>, rest: seq<Item>, written: seq<Item>, failed: seq<Item>) {
    StoreMoved(s, t) && t.front.sq == s.front.sq.(items := rest, popped := s.front.sq.popped + done) &&
    t.back == s.back.(counter := s.back.counter + |done|, written := s.back.written + written,
                      failed := s.back.failed + failed) &&
    t.proto.db == InsertedAll(s.proto.db, written)
  }

  lemma DrainedMore(cfg: Config, s: State, t: State, u: State, done: seq<Item>, rest: seq<Item>,
                    written: seq<Item>, failed: seq<Item>, accepted: bool)
    requires rest != [] && Drained(s, t, done, rest, written, failed) && Wrote(cfg, t, u, accepted, true)
    requires s.back.pc == DrainCheck
    ensures
      Drained(s, u, done + [rest[0]], rest[1..], if accepted then written + [rest[0]] else written,
              if accepted then failed else failed + [rest[0]])
  {
    var x := rest[0];
    Associative(s.front.sq.popped, done, [x]);
    Associative(s.back.written, written, [x]);
    Associative(s.back.failed, failed, [x]);
    InsertedAllSnoc(s.proto.db, written, x);
  }

  /** How the last sample of an interleaving came to it. */
  lemma LastOne(written: seq<Item>, failed: seq<Item>, done: seq<Item>)
    returns (before: seq<Item>, x: Item, w: seq<Item>, f: seq<Item>, accepted: bool)
    requires Interleaving(written, failed, done) && done != []
    ensures done == before + [x] && |before| < |done| && Interleaving(w, f, before)
    ensures if accepted then written == w + [x] && failed == f else written == w && failed == f + [x]
  {
    x, before := done[|done| - 1], done[..|done| - 1];
    accepted := written != [] && written[|written| - 1] == x && Interleaving(written[..|written| - 1], failed, before);
    w := if accepted then written[..|written| - 1] else written;
    f := if accepted then failed else failed[..|failed| - 1];
  }

  lemma DrainsNext(cfg: Config, s: State, t: State, done: seq<Item>, x: Item, rest: seq<Item>,
                   written: seq<Item>, failed: seq<Item>, accepted: bool) returns (acts: seq<Action>)
    requires s.back.pc == DrainCheck && Drained(s, t, done, [x] + rest, written, failed)
    ensures OnlyStore(acts)
    ensures
      Drained(s, Execution(cfg, t, acts), done + [x], rest, if accepted then written + [x] else written,
              if accepted then failed else failed + [x])
  {
    acts := WriteIsRun(cfg, t, accepted, true);
    DrainedMore(cfg, s, t, Execution(cfg, t, acts), done, [x] + rest, written, failed, accepted);
    assert ([x] + rest)[1..] == rest;
  }

  lemma {:induction false} DrainsFirst(cfg: Config, s: State, done: seq<Item>, rest: seq<Item>,
                                       written: seq<Item>, failed: seq<Item>) returns (acts: seq<Action>)
    requires s.back.pc == DrainCheck && s.front.sq.items == done + rest && Interleaving(written, failed, done)
    ensures OnlyStore(acts) && Drained(s, Execution(cfg, s, acts), done, rest, written, failed)
    decreases |done|
  {
    if done == [] {
      acts := [];
      NothingDrained(s, rest);
    } else {
      var before, x, w, f, accepted := LastOne(written, failed, done);
      Associative(before, [x], rest);
      var a := DrainsFirst(cfg, s, before, [x] + rest, w, f);
      var b := DrainsNext(cfg, s, Execution(cfg, s, a), before, x, rest, w, f, accepted);
      Joined(cfg, s, a, b);
      acts := a + b;
    }
  }

  lemma NothingDrained(s: State, rest: seq<Item>)
    requires s.front.sq.items == rest
    ensures Drained(s, s, [], rest, [], [])
  {
    var q: Queue<Item> := s.front.sq;
    assert q.popped + [] == q.popped && q.(items := rest, popped := q.popped) == q;
    assert s.back.written + [] == s.back.written && s.back.failed + [] == s.back.failed;
  }

  lemma TrimAfterDrain(cfg: Config, s: State, t: State, written: seq<Item>, failed: seq<Item>, ran: Statements)
    returns (acts: seq<Action>)
    requires s.back.pc == DrainCheck && Interleaving(written, failed, s.front.sq.items)
    requires Drained(s, t, s.front.sq.items, [], written, failed)
    ensures OnlyStore(acts)
    ensures
      var u := Execution(cfg, t, acts);
      StoreMoved(s, u) && u.back.pc == StoreDone &&
      DrainDone(BooksOf(s), BooksOf(u), cfg.maxCache, written, failed, ran)
  {
    var first := Statement(cfg, t, [], true);
    var c := t.(back := t.back.(pc := Count(true)));
    assert Execution(cfg, t, first) == c;
    var more := TrimIsRun(cfg, c, ran);
    Joined(cfg, t, first, more);
    acts := first + more;
  }

  /** The imperative drain, whichever samples it fails to write and whichever statements of its trim
      succeed, is a run of the machine that ends the store thread. */
  lemma DrainIsRun(cfg: Config, s: State, written: seq<Item>, failed: seq<Item>, ran: Statements)
    returns (acts: seq<Action>)
    requires s.back.pc == DrainCheck && Interleaving(written, failed, s.front.sq.items)
    ensures OnlyStore(acts)
    ensures
      var t := Execution(cfg, s, acts);
      StoreMoved(s, t) && t.back.pc == StoreDone &&
      DrainDone(BooksOf(s), BooksOf(t), cfg.maxCache, written, failed, ran)
  {
    var q := s.front.sq;
    assert q.items + [] == q.items;
    var a := DrainsFirst(cfg, s, q.items, [], written, failed);
    var b := TrimAfterDrain(cfg, s, Execution(cfg, s, a), written, failed, ran);
    Joined(cfg, s, a, b);
    acts := a + b;
  }
}
