/** Which rows the uploader has marked: exactly those whose line it sent completely, and those
    marked before it started. */
module UploadMarks {
  import opened Tables
  import opened UploadProtocol

  function Ids(log: seq<Entry>): set<nat>
    decreases |log|
  {
    if log == [] then {} else Ids(log[..|log| - 1]) + {log[|log| - 1].id}
  }

  lemma {:induction false} IdAt(log: seq<Entry>, id: nat) returns (k: nat)
    requires id in Ids(log)
    ensures k < |log| && log[k].id == id
    decreases |log|
  {
    if id == log[|log| - 1].id {
      k := |log| - 1;
    } else {
      k := IdAt(log[..|log| - 1], id);
    }
  }

  lemma {:induction false} IdIn(log: seq<Entry>, k: nat)
    requires k < |log|
    ensures log[k].id in Ids(log)
    decreases |log|
  {
    if k < |log| - 1 {
      IdIn(log[..|log| - 1], k);
    }
  }

  lemma IdsSnoc(log: seq<Entry>, e: Entry)
    ensures Ids(log + [e]) == Ids(log) + {e.id}
  {
    assert (log + [e])[..|log|] == log;
  }

  /** A marked row was marked before the start, or its line was sent ... */
  ghost predicate MarkedWasSent(before: set<nat>, rows: Rows, sent: set<nat>) {
    forall id :: id in rows && rows[id].uploaded ==> id in before || id in sent
  }

  /** ... and a row whose line was sent is marked, unless marking it is the very next step. */
  ghost predicate SentIsMarked(rows: Rows, sent: set<nat>, pc: Pc) {
    forall id :: id in rows && id in sent ==> rows[id].uploaded || (pc.Mark? && pc.id == id)
  }

  /** ... and a row marked before the start stays marked. */
  ghost predicate StaysMarked(before: set<nat>, db: Table<Item>) {
    forall id :: id in before ==> id < db.nextId && (id in db.rows ==> db.rows[id].uploaded)
  }

  ghost predicate MarksInv(before: set<nat>, p: Proto) {
    MarkedWasSent(before, p.db.rows, Ids(p.net.log)) && SentIsMarked(p.db.rows, Ids(p.net.log), p.net.pc) &&
    StaysMarked(before, p.db)
  }

  lemma {:induction false} IdsKnown(log: seq<Entry>, hist: map<nat, Item>)
    requires LogKnown(log, hist)
    ensures forall id :: id in Ids(log) ==> id in hist
    decreases |log|
  {
    if log != [] {
      IdsKnown(log[..|log| - 1], hist);
    }
  }

  /** A new row cannot have an id that was sent before. */
  lemma InsertMarks(before: set<nat>, cfg: Settings, p: Proto, item: Item)
    requires MarksInv(before, p) && TableInv(cfg, p)
    ensures MarksInv(before, EnvInsert(p, item))
  {
    IdsKnown(p.net.log, p.hist);
  }

  lemma DeleteMarks(before: set<nat>, p: Proto, gone: set<nat>)
    requires MarksInv(before, p)
    ensures MarksInv(before, EnvDelete(p, gone))
  {
  }

  /** A line is logged just when its row comes to be marked. */
  lemma SendLog(cfg: Settings, p: Proto, a: Act, q: Proto)
    requires p.net.pc.Send? && p.net.conns != [] && q == SendStep(cfg, p, a)
    ensures q.db == p.db
    ensures
      if q.net.pc.Mark? then
        q.net.pc.id == p.net.pc.id && q.net.log == p.net.log + [Entry(p.net.pc.id, p.net.pc.item, p.net.pc.before)]
      else q.net.log == p.net.log
  {
  }

  lemma SentMarks(before: set<nat>, p: Proto, q: Proto, e: Entry)
    requires MarksInv(before, p) && !p.net.pc.Mark? && q.db == p.db && q.net.log == p.net.log + [e]
    requires q.net.pc.Mark? && q.net.pc.id == e.id
    ensures MarksInv(before, q)
  {
    IdsSnoc(p.net.log, e);
  }

  lemma QuietMarks(before: set<nat>, p: Proto, q: Proto)
    requires MarksInv(before, p) && !p.net.pc.Mark? && q.db == p.db && q.net.log == p.net.log
    ensures MarksInv(before, q)
  {
  }

  lemma SendMarks(before: set<nat>, cfg: Settings, p: Proto, a: Act, q: Proto)
    requires MarksInv(before, p) && p.net.pc.Send? && p.net.conns != [] && q == SendStep(cfg, p, a)
    ensures MarksInv(before, q)
  {
    SendLog(cfg, p, a, q);
    if q.net.pc.Mark? {
      SentMarks(before, p, q, Entry(p.net.pc.id, p.net.pc.item, p.net.pc.before));
    } else {
      QuietMarks(before, p, q);
    }
  }

  lemma MarkMarks(before: set<nat>, cfg: Settings, p: Proto, pc: Pc)
    requires MarksInv(before, p) && TableInv(cfg, p) && p.net.pc.Mark?
    ensures MarksInv(before, p.(db := Marked(p.db, p.net.pc.id), net := p.net.(pc := pc)))
  {
    var id := p.net.pc.id;
    if id in p.db.rows {
      LastOfLog(p.net.log, p.hist, id);
      assert id in Ids(p.net.log);
    }
  }

  lemma FailMarks(before: set<nat>, p: Proto, net: Net)
    requires MarksInv(before, p) && p.net.pc.Fail? && net.log == p.net.log
    ensures MarksInv(before, p.(db := Retried(p.db, p.net.pc.id), net := net))
  {
  }

  lemma QuietLog(cfg: Settings, shutdown: bool, p: Proto, a: Act)
    requires !p.net.pc.Send? && !p.net.pc.Mark? && !p.net.pc.Fail?
    ensures Step(cfg, shutdown, p, a).db == p.db && Step(cfg, shutdown, p, a).net.log == p.net.log
  {
    if p.net.pc.Read? {
      if p.net.conns != [] {
        ReadLog(cfg, p, a);
      }
    } else if Moving(p.net.pc) {
      OnlyMoves(cfg, shutdown, p, a, Step(cfg, shutdown, p, a));
    }
  }

  lemma ReadLog(cfg: Settings, p: Proto, a: Act)
    requires p.net.pc.Read? && p.net.conns != []
    ensures ReadStep(cfg, p, a).net.log == p.net.log && ReadStep(cfg, p, a).db == p.db
  {
  }

  /** Every step of the uploader keeps marked and completely sent rows the same. */
  lemma StepMarks(before: set<nat>, cfg: Settings, shutdown: bool, p: Proto, a: Act)
    requires MarksInv(before, p) && TableInv(cfg, p)
    ensures MarksInv(before, Step(cfg, shutdown, p, a))
  {
    var q := Step(cfg, shutdown, p, a);
    if p.net.pc.Send? {
      if p.net.conns != [] {
        SendMarks(before, cfg, p, a, q);
      }
    } else if p.net.pc.Mark? {
      MarkMarks(before, cfg, p, q.net.pc);
      assert q == p.(db := Marked(p.db, p.net.pc.id), net := p.net.(pc := q.net.pc));
    } else if p.net.pc.Fail? {
      FailMarks(before, p, q.net);
      assert q == p.(db := Retried(p.db, p.net.pc.id), net := q.net);
    } else {
      QuietLog(cfg, shutdown, p, a);
      QuietMarks(before, p, q);
    }
  }

  /** What was sent stays sent. */
  lemma IdsGrow(cfg: Settings, shutdown: bool, p: Proto, a: Act)
    ensures Ids(p.net.log) <= Ids(Step(cfg, shutdown, p, a).net.log)
  {
    var q := Step(cfg, shutdown, p, a);
    if p.net.pc.Send? {
      if p.net.conns != [] {
        SendGrows(cfg, p, a);
      }
    } else if p.net.pc.Mark? || p.net.pc.Fail? {
      assert q.net.log == p.net.log;
    } else {
      QuietLog(cfg, shutdown, p, a);
    }
  }

  lemma SendGrows(cfg: Settings, p: Proto, a: Act)
    requires p.net.pc.Send? && p.net.conns != []
    ensures Ids(p.net.log) <= Ids(SendStep(cfg, p, a).net.log)
  {
    SendLog(cfg, p, a, SendStep(cfg, p, a));
    IdsSnoc(p.net.log, Entry(p.net.pc.id, p.net.pc.item, p.net.pc.before));
  }
}
