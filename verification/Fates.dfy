/** What becomes of every sample written, over every run from an empty table. */
module Fates {
  import opened Samples
  import opened Tables
  import opened Sequences
  import opened UploadProtocol
  import opened Pipeline
  import opened EndToEnd

  /** At some point of the run a trim dropped the row unsent. */
  ghost predicate DroppedIn(cfg: Config, s: State, acts: seq<Action>, id: nat) {
    exists n :: 0 <= n < |acts| && DroppedAt(cfg, s, acts, n, id)
  }

  ghost predicate DroppedAt(cfg: Config, s: State, acts: seq<Action>, n: nat, id: nat)
    requires n < |acts|
  {
    var t := Execution(cfg, s, acts[..n]);
    CacheSize.Dropped(cfg, t, Next(cfg, t, acts[n]), id)
  }

  lemma DroppedBefore(cfg: Config, s: State, acts: seq<Action>, a: Action, id: nat)
    requires DroppedIn(cfg, s, acts, id)
    ensures DroppedIn(cfg, s, acts + [a], id)
  {
    var n :| 0 <= n < |acts| && DroppedAt(cfg, s, acts, n, id);
    assert (acts + [a])[..n] == acts[..n];
    assert DroppedAt(cfg, s, acts + [a], n, id);
  }

  lemma DroppedNow(cfg: Config, s: State, acts: seq<Action>, a: Action, id: nat)
    requires CacheSize.Dropped(cfg, Execution(cfg, s, acts), Next(cfg, Execution(cfg, s, acts), a), id)
    ensures DroppedIn(cfg, s, acts + [a], id)
  {
    assert (acts + [a])[..|acts|] == acts;
    assert DroppedAt(cfg, s, acts + [a], |acts|, id);
  }

  lemma StoreInserts(cfg: Config, s: State, ok: bool, id: nat)
    requires id !in s.proto.hist
    ensures id in StoreStep(cfg, s, ok).proto.hist ==> id in StoreStep(cfg, s, ok).proto.db.rows
  {
    if !s.back.pc.Insert? {
      assert StoreStep(cfg, s, ok).proto.hist == s.proto.hist;
    }
  }

  lemma NextInserts(cfg: Config, s: State, a: Action, id: nat)
    requires id in Next(cfg, s, a).proto.hist && id !in s.proto.hist
    ensures id in Next(cfg, s, a).proto.db.rows
  {
    if a.Upload? {
      StepEvolves(cfg.up, s.main >= UPLOADER_STOPPED, s.proto, a.act);
    } else if a.Store? {
      StoreInserts(cfg, s, a.ok, id);
    }
  }

  lemma NextSent(cfg: Config, s: State, a: Action)
    ensures UploadMarks.Ids(s.proto.net.log) <= UploadMarks.Ids(Next(cfg, s, a).proto.net.log)
  {
    match a
    case Upload(act) => UploadMarks.IdsGrow(cfg.up, s.main >= UPLOADER_STOPPED, s.proto, act);
    case Store(ok) => StoreParts(cfg, s, ok);
    case _ =>
      assert Next(cfg, s, a).proto == s.proto;
  }

  /** Sent, still there, or dropped. */
  ghost predicate Fate(cfg: Config, s0: State, acts: seq<Action>, id: nat) {
    var p := Execution(cfg, s0, acts).proto;
    id in p.db.rows || id in UploadMarks.Ids(p.net.log) || DroppedIn(cfg, s0, acts, id)
  }

  /** One more step, from a state the run has reached. */
  lemma NextFate(cfg: Config, s0: State, acts: seq<Action>, s: State, a: Action, id: nat)
    requires s == Execution(cfg, s0, acts) && UploadMarks.MarksInv({}, s.proto)
    requires cfg.maxCache > 0 && CacheSize.WaitInv(cfg, s)
    requires id in Next(cfg, s, a).proto.hist && (id in s.proto.hist ==> Fate(cfg, s0, acts, id))
    ensures Fate(cfg, s0, acts + [a], id)
  {
    assert (acts + [a])[..|acts|] == acts;
    NextSent(cfg, s, a);
    if id !in s.proto.hist {
      NextInserts(cfg, s, a, id);
    } else if DroppedIn(cfg, s0, acts, id) {
      DroppedBefore(cfg, s0, acts, a, id);
    } else if id in s.proto.db.rows && id !in Next(cfg, s, a).proto.db.rows {
      CacheSize.RowTaken(cfg, s, a, id);
      if !s.proto.db.rows[id].uploaded {
        DroppedNow(cfg, s0, acts, a, id);
      }
    }
  }

  lemma {:induction false} RunWait(cfg: Config, s0: State, acts: seq<Action>)
    requires cfg.maxCache > 0 && CacheSize.WaitInv(cfg, s0)
    ensures CacheSize.WaitInv(cfg, Execution(cfg, s0, acts))
    decreases |acts|
  {
    if acts != [] {
      RunWait(cfg, s0, acts[..|acts| - 1]);
      CacheSize.NextWait(cfg, Execution(cfg, s0, acts[..|acts| - 1]), acts[|acts| - 1]);
    }
  }

  /** Marks and trims are in order all along the run. */
  ghost predicate GoodRun(cfg: Config, s0: State, acts: seq<Action>)
    decreases |acts|
  {
    UploadMarks.MarksInv({}, Execution(cfg, s0, acts).proto) && CacheSize.WaitInv(cfg, Execution(cfg, s0, acts)) &&
    (acts == [] || GoodRun(cfg, s0, acts[..|acts| - 1]))
  }

  lemma {:induction false} RunIsGood(cfg: Config, s0: State, acts: seq<Action>)
    requires SystemInv(cfg, {}, s0) && Fits(cfg.up) && cfg.up.retryMax >= 0
    requires cfg.maxCache > 0 && CacheSize.WaitInv(cfg, s0)
    ensures GoodRun(cfg, s0, acts)
    decreases |acts|
  {
    RunSystem(cfg, {}, s0, acts);
    RunWait(cfg, s0, acts);
    if acts != [] {
      RunIsGood(cfg, s0, acts[..|acts| - 1]);
    }
  }

  /** Started by main on an empty table, and trimming. */
  ghost predicate FromEmpty(cfg: Config, device: string, th: Thresholds, base: nat, s0: State) {
    Configured(cfg, device, th) && base >= 1 && cfg.maxCache > 0 &&
    s0 == Init(Table(map[], base), map[], s0.front.raw.capacity, s0.front.sq.capacity)
  }

  lemma FreshRun(cfg: Config, device: string, th: Thresholds, base: nat, s0: State, acts: seq<Action>)
    requires FromEmpty(cfg, device, th, base, s0)
    ensures GoodRun(cfg, s0, acts)
  {
    var db: Table<Item> := Table(map[], base);
    RendersFits(cfg.up, device);
    InitSystem(cfg, db, map[], s0.front.raw.capacity, s0.front.sq.capacity);
    assert Uploaded(db.rows) == {};
    RunIsGood(cfg, s0, acts);
  }

  lemma LastFate(cfg: Config, device: string, th: Thresholds, base: nat, s0: State, acts: seq<Action>,
                 before: seq<Action>, a: Action, id: nat)
    requires FromEmpty(cfg, device, th, base, s0) && acts == before + [a]
    requires id in Next(cfg, Execution(cfg, s0, before), a).proto.hist
    requires id in Execution(cfg, s0, before).proto.hist ==> Fate(cfg, s0, before, id)
    ensures Fate(cfg, s0, acts, id)
  {
    FreshRun(cfg, device, th, base, s0, before);
    NextFate(cfg, s0, before, Execution(cfg, s0, before), a, id);
  }

  lemma {:induction false} RunFate(cfg: Config, device: string, th: Thresholds, base: nat, s0: State,
                                   acts: seq<Action>, id: nat)
    requires FromEmpty(cfg, device, th, base, s0) && id in Execution(cfg, s0, acts).proto.hist
    ensures Fate(cfg, s0, acts, id)
    decreases |acts|
  {
    if acts != [] {
      var before, a := acts[..|acts| - 1], acts[|acts| - 1];
      if id in Execution(cfg, s0, before).proto.hist {
        RunFate(cfg, device, th, base, s0, before, id);
      }
      LastApart(acts);
      LastFate(cfg, device, th, base, s0, acts, before, a, id);
    }
  }

  lemma WrittenHist(cfg: Config, base: nat, s0: State, acts: seq<Action>, i: nat)
    requires s0.proto.db == Table(map[], base) && s0.proto.hist == map[] && s0.back.written == [] && base >= 1
    requires i < |Execution(cfg, s0, acts).back.written|
    ensures
      var s := Execution(cfg, s0, acts);
      base + i in s.proto.hist && s.proto.hist[base + i] == s.back.written[i]
  {
    RunIds(cfg, base, s0, acts);
    WrittenKnown(base, Execution(cfg, s0, acts), i);
  }

  lemma WrittenKnown(base: nat, s: State, i: nat)
    requires CacheSize.IdInv(base, s) && i < |s.back.written|
    ensures base + i in s.proto.hist && s.proto.hist[base + i] == s.back.written[i]
  {
  }

  /** The i-th sample written went in under id base + i, which was sent, is still there, or was
      dropped. */
  ghost predicate SampleFate(cfg: Config, base: nat, s0: State, acts: seq<Action>, i: nat) {
    var s := Execution(cfg, s0, acts);
    i < |s.back.written| && base + i in s.proto.hist && s.proto.hist[base + i] == s.back.written[i] &&
    Fate(cfg, s0, acts, base + i)
  }

  /** Conservation from the store thread to the uploader: after every run from an empty table, each
      sample written was sent completely, is still in the table, or was dropped unsent by the second
      DELETE of a trim that had found more rows waiting than the limit at its first. */
  lemma EverySampleWritten(cfg: Config, device: string, th: Thresholds, base: nat, s0: State,
                           acts: seq<Action>, i: nat)
    requires FromEmpty(cfg, device, th, base, s0) && i < |Execution(cfg, s0, acts).back.written|
    ensures SampleFate(cfg, base, s0, acts, i)
  {
    WrittenHist(cfg, base, s0, acts, i);
    RunFate(cfg, device, th, base, s0, acts, base + i);
  }
}
