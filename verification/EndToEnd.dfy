/** The whole gateway, from the samples collected to the messages the receiver counts: what holds
    after any run of any length, whatever the threads, the database and the network do. */
module EndToEnd {
  import opened Options
  import opened Samples
  import opened Json
  import opened JsonBalance
  import opened Tables
  import opened Receiver
  import opened UploadProtocol
  import opened UploadWire
  import opened Delivery
  import UploadHeads
  import UploadMarks
  import opened Pipeline
  import Flow
  import CacheSize
  import Shutdown
  import opened Runs

  /** The processor tags with these thresholds and the uploader renders for this device. */
  ghost predicate Configured(cfg: Config, device: string, th: Thresholds) {
    Renders(cfg.up, device) && DeviceName(device) && cfg.up.retryMax >= 0 &&
    forall s :: cfg.tag(s) == Tagged(s, th)
  }

  // ---------------------------------------------------------------------------------------
  // The table and the connections
  // ---------------------------------------------------------------------------------------

  ghost predicate UploadInv(cfg: Config, marked: set<nat>, p: Proto) {
    TableInv(cfg.up, p) && WireInv(cfg.up, p.net) && UploadMarks.MarksInv(marked, p) && UploadHeads.HeadInv(p.net)
  }

  lemma InsertUpload(cfg: Config, marked: set<nat>, p: Proto, item: Item)
    requires UploadInv(cfg, marked, p) && cfg.up.retryMax >= 0
    ensures UploadInv(cfg, marked, EnvInsert(p, item))
  {
    UploadProtocol.InsertKeeps(cfg.up, p, item);
    UploadMarks.InsertMarks(marked, cfg.up, p, item);
  }

  lemma DeleteUpload(cfg: Config, marked: set<nat>, p: Proto, gone: set<nat>)
    requires UploadInv(cfg, marked, p)
    ensures UploadInv(cfg, marked, EnvDelete(p, gone))
  {
    UploadProtocol.DeleteKeeps(cfg.up, p, gone);
    UploadMarks.DeleteMarks(marked, p, gone);
  }

  lemma StoreUpload(cfg: Config, marked: set<nat>, s: State, ok: bool)
    requires UploadInv(cfg, marked, s.proto) && cfg.up.retryMax >= 0
    ensures UploadInv(cfg, marked, StoreStep(cfg, s, ok).proto)
  {
    var p := s.proto;
    if s.back.pc.Insert? {
      InsertUpload(cfg, marked, p, s.back.pc.item);
    } else if s.back.pc.DeleteSent? {
      DeleteUpload(cfg, marked, p, Lowest(Uploaded(p.db.rows), s.back.pc.excess));
    } else if s.back.pc.DeleteOld? {
      DeleteUpload(cfg, marked, p, Lowest(p.db.rows.Keys, s.back.pc.excess));
    } else {
      assert StoreStep(cfg, s, ok).proto == p;
    }
  }

  lemma StepUpload(cfg: Config, marked: set<nat>, shutdown: bool, p: Proto, act: Act)
    requires UploadInv(cfg, marked, p) && Fits(cfg.up)
    ensures UploadInv(cfg, marked, Step(cfg.up, shutdown, p, act))
  {
    StepKeeps(cfg.up, shutdown, p, act);
    StepKeepsWire(cfg.up, shutdown, p, act);
    UploadMarks.StepMarks(marked, cfg.up, shutdown, p, act);
    UploadHeads.StepHead(cfg.up, shutdown, p, act);
  }

  lemma NextUpload(cfg: Config, marked: set<nat>, s: State, a: Action)
    requires UploadInv(cfg, marked, s.proto) && Fits(cfg.up) && cfg.up.retryMax >= 0
    ensures UploadInv(cfg, marked, Next(cfg, s, a).proto)
  {
    match a
    case Store(ok) => StoreUpload(cfg, marked, s, ok);
    case Upload(act) => StepUpload(cfg, marked, s.main >= UPLOADER_STOPPED, s.proto, act);
    case _ =>
      assert Next(cfg, s, a).proto == s.proto;
  }

  // ---------------------------------------------------------------------------------------
  // Everything together
  // ---------------------------------------------------------------------------------------

  ghost predicate SystemInv(cfg: Config, marked: set<nat>, s: State) {
    UploadInv(cfg, marked, s.proto) && Flow.FlowInv(cfg, s) && Shutdown.FlagInv(s) && Shutdown.LateInv(s) &&
    Shutdown.DrainInv(cfg.up, s.proto)
  }

  lemma NextSystem(cfg: Config, marked: set<nat>, s: State, a: Action)
    requires SystemInv(cfg, marked, s) && Fits(cfg.up) && cfg.up.retryMax >= 0
    ensures SystemInv(cfg, marked, Next(cfg, s, a))
  {
    NextUpload(cfg, marked, s, a);
    Flow.NextKeeps(cfg, s, a);
    Shutdown.NextFlags(cfg, s, a);
    Shutdown.NextLate(cfg, s, a);
    Shutdown.NextDrains(cfg, s, a);
  }

  lemma {:induction false} RunSystem(cfg: Config, marked: set<nat>, s: State, acts: seq<Action>)
    requires SystemInv(cfg, marked, s) && Fits(cfg.up) && cfg.up.retryMax >= 0
    ensures SystemInv(cfg, marked, Execution(cfg, s, acts))
    decreases |acts|
  {
    if acts != [] {
      var before := acts[..|acts| - 1];
      RunSystem(cfg, marked, s, before);
      NextSystem(cfg, marked, Execution(cfg, s, before), acts[|acts| - 1]);
    }
  }

  /** A table left by an earlier run: its rows are known, and none has been tried too often. */
  lemma InitSystem(cfg: Config, db: Table<Item>, hist: map<nat, Item>, rawCapacity: nat, storeCapacity: nat)
    requires TableOk(db, hist, cfg.up.retryMax) && rawCapacity > 0 && storeCapacity > 0
    ensures SystemInv(cfg, Uploaded(db.rows), Init(db, hist, rawCapacity, storeCapacity))
  {
    Flow.InitFlow(cfg, db, hist, rawCapacity, storeCapacity);
    assert TableInv(cfg.up, Proto(db, hist, IDLE));
  }

  lemma {:induction false} RunSize(cfg: Config, initial: nat, marked: set<nat>, s: State, acts: seq<Action>)
    requires SystemInv(cfg, marked, s) && Fits(cfg.up) && cfg.up.retryMax >= 0
    requires cfg.maxCache > 0 && CacheSize.SizeInv(cfg, initial, s)
    ensures CacheSize.SizeInv(cfg, initial, Execution(cfg, s, acts))
    decreases |acts|
  {
    if acts != [] {
      var before := acts[..|acts| - 1];
      RunSystem(cfg, marked, s, before);
      RunSize(cfg, initial, marked, s, before);
      CacheSize.NextKeeps(cfg, initial, Execution(cfg, s, before), acts[|acts| - 1]);
    }
  }

  lemma {:induction false} RunIds(cfg: Config, base: nat, s: State, acts: seq<Action>)
    requires CacheSize.IdInv(base, s)
    ensures CacheSize.IdInv(base, Execution(cfg, s, acts))
    decreases |acts|
  {
    if acts != [] {
      var before := acts[..|acts| - 1];
      RunIds(cfg, base, s, before);
      CacheSize.NextIds(cfg, base, Execution(cfg, s, before), acts[|acts| - 1]);
    }
  }

  // ---------------------------------------------------------------------------------------
  // Main results
  // ---------------------------------------------------------------------------------------

  /** A start from a given table: what the threads find when main has created them. */
  ghost predicate Startable(cfg: Config, db: Table<Item>, hist: map<nat, Item>, rawCapacity: nat, storeCapacity: nat) {
    TableOk(db, hist, cfg.up.retryMax) && rawCapacity > 0 && storeCapacity > 0
  }

  lemma Reached(cfg: Config, device: string, th: Thresholds, db: Table<Item>, hist: map<nat, Item>,
                rawCapacity: nat, storeCapacity: nat, acts: seq<Action>)
    requires Configured(cfg, device, th) && Startable(cfg, db, hist, rawCapacity, storeCapacity)
    ensures SystemInv(cfg, Uploaded(db.rows), Execution(cfg, Init(db, hist, rawCapacity, storeCapacity), acts))
    ensures Fits(cfg.up)
  {
    RendersFits(cfg.up, device);
    InitSystem(cfg, db, hist, rawCapacity, storeCapacity);
    RunSystem(cfg, Uploaded(db.rows), Init(db, hist, rawCapacity, storeCapacity), acts);
  }

  /** Whatever the threads do, every sample collected is in exactly one place, and the samples
      collected are as many as the counters, queues and hands together account for. */
  lemma NothingUnaccounted(cfg: Config, db: Table<Item>, hist: map<nat, Item>,
                           rawCapacity: nat, storeCapacity: nat, acts: seq<Action>, tag: nat)
    requires rawCapacity > 0 && storeCapacity > 0
    ensures
      var s := Execution(cfg, Init(db, hist, rawCapacity, storeCapacity), acts);
      var f, b := s.front, s.back;
      Flow.Times(Flow.ColHeld(f.col), tag) + Flow.Times(f.raw.rejected, tag) + Flow.Times(f.raw.overwritten, tag) +
      Flow.Times(f.raw.items, tag) + Flow.Times(Flow.ProcHeld(f.proc), tag) + Flow.Times(f.sq.rejected, tag) +
      Flow.Times(f.sq.overwritten, tag) + Flow.Times(f.sq.items, tag) + Flow.Times(Flow.StoreHeld(b.pc), tag) +
      Flow.Times(b.written, tag) + Flow.Times(b.failed, tag) == (if tag < |f.collected| then 1 else 0) &&
      |f.collected| ==
        |Flow.ColHeld(f.col)| + |f.raw.rejected| + |f.raw.overwritten| + |f.raw.items| + |Flow.ProcHeld(f.proc)| +
        |f.sq.rejected| + |f.sq.overwritten| + |f.sq.items| + |Flow.StoreHeld(b.pc)| + |b.written| + |b.failed|
  {
    var s0 := Init(db, hist, rawCapacity, storeCapacity);
    Flow.InitFlow(cfg, db, hist, rawCapacity, storeCapacity);
    Flow.RunKeeps(cfg, s0, acts);
    Flow.InExactlyOnePlace(cfg, Execution(cfg, s0, acts), tag);
    Flow.Conservation(cfg, Execution(cfg, s0, acts));
  }

  /** After every run each queue has overwritten as many samples as there were pushes that found it
      open and full, so neither loses a sample before its shutdown unless it is full. */
  lemma OverwrittenAfterRun(cfg: Config, db: Table<Item>, hist: map<nat, Item>,
                            rawCapacity: nat, storeCapacity: nat, acts: seq<Action>)
    requires rawCapacity > 0 && storeCapacity > 0
    ensures
      var s0 := Init(db, hist, rawCapacity, storeCapacity);
      var f := Execution(cfg, s0, acts).front;
      |f.raw.overwritten| == Flow.RawOverflowed(cfg, s0, acts) &&
      |f.sq.overwritten| == Flow.StoreOverflowed(cfg, s0, acts) &&
      f.raw.capacity == rawCapacity && f.sq.capacity == storeCapacity
  {
    Flow.InitFlow(cfg, db, hist, rawCapacity, storeCapacity);
    Flow.OverwrittenExactly(cfg, Init(db, hist, rawCapacity, storeCapacity), acts);
  }

  lemma SizeFrom(maxCache: int, initial: nat, size: nat, b: Back)
    requires CacheSize.SizeOk(maxCache, initial, size, b) && !b.trimFailed && maxCache > 0
    ensures CacheSize.InMainLoop(b.pc) ==> size <= (if initial > maxCache then initial else maxCache) + 100
    ensures CacheSize.InMainLoop(b.pc) && b.counter > 100 ==> size <= maxCache + 100
    ensures CacheSize.InMainLoop(b.pc) && b.counter == 100 && !CacheSize.Trimming(b.pc) ==> size <= maxCache
    ensures b.pc.StoreDone? ==> size <= maxCache
  {
  }

  /** As long as the trim statements succeed, the table never grows more than a hundred rows over
      the larger of its initial size and the limit, from the first trim on not more than a hundred
      over the limit, and it is within the limit when the store thread exits. */
  lemma TableBounded(cfg: Config, device: string, th: Thresholds, db: Table<Item>, hist: map<nat, Item>,
                     rawCapacity: nat, storeCapacity: nat, acts: seq<Action>)
    requires Configured(cfg, device, th) && Startable(cfg, db, hist, rawCapacity, storeCapacity) && cfg.maxCache > 0
    ensures
      var s := Execution(cfg, Init(db, hist, rawCapacity, storeCapacity), acts);
      var size, b, initial := |s.proto.db.rows|, s.back, |db.rows|;
      !b.trimFailed ==>
        (CacheSize.InMainLoop(b.pc) ==> size <= (if initial > cfg.maxCache then initial else cfg.maxCache) + 100) &&
        (CacheSize.InMainLoop(b.pc) && b.counter > 100 ==> size <= cfg.maxCache + 100) &&
        (CacheSize.InMainLoop(b.pc) && b.counter == 100 && !CacheSize.Trimming(b.pc) ==> size <= cfg.maxCache) &&
        (b.pc.StoreDone? ==> size <= cfg.maxCache)
  {
    var s0 := Init(db, hist, rawCapacity, storeCapacity);
    RendersFits(cfg.up, device);
    InitSystem(cfg, db, hist, rawCapacity, storeCapacity);
    RunSize(cfg, |db.rows|, Uploaded(db.rows), s0, acts);
    var s := Execution(cfg, s0, acts);
    if !s.back.trimFailed {
      SizeFrom(cfg.maxCache, |db.rows|, |s.proto.db.rows|, s.back);
    }
  }

  /** In every reachable state, across all disconnects and queries: the ids of completely sent
      lines rise strictly; a row that survives at or below the last of them is marked or out of
      retries, unless it is in hand; retries stay within the limit; and a row is marked exactly when
      its line was sent completely, or it was marked from the start. */
  lemma UploadedOnce(cfg: Config, device: string, th: Thresholds, db: Table<Item>, hist: map<nat, Item>,
                     rawCapacity: nat, storeCapacity: nat, acts: seq<Action>, id: nat)
    requires Configured(cfg, device, th) && Startable(cfg, db, hist, rawCapacity, storeCapacity)
    ensures
      var p := Execution(cfg, Init(db, hist, rawCapacity, storeCapacity), acts).proto;
      AscendingIds(p.net.log) &&
      (id in p.db.rows ==>
        p.db.rows[id].retry <= cfg.up.retryMax &&
        (id <= LastId(p.net.log) ==> !IsPending(p.db.rows[id], cfg.up.retryMax) || Hand(p.net.pc) == Some(id)) &&
        (p.db.rows[id].uploaded ==> id in Uploaded(db.rows) || id in UploadMarks.Ids(p.net.log)) &&
        (id in Uploaded(db.rows) ==> p.db.rows[id].uploaded) &&
        (id in UploadMarks.Ids(p.net.log) ==> p.db.rows[id].uploaded || (p.net.pc.Mark? && p.net.pc.id == id)))
  {
    Reached(cfg, device, th, db, hist, rawCapacity, storeCapacity, acts);
  }

  /** What the receiver has counted comes from samples in collection order. */
  ghost predicate FromCollected(got: seq<Entry>, collected: seq<Item>, th: Thresholds) {
    (forall i, j :: 0 <= i < j < |got| ==> got[i].item.tag < got[j].item.tag) &&
    (forall i :: 0 <= i < |got| ==>
      got[i].item.tag < |collected| && OnlyAlarmsAdded(collected[got[i].item.tag].sample, th, got[i].item.sample))
  }

  lemma GotWritten(base: nat, s: State, got: seq<Entry>, i: nat)
    requires CacheSize.IdInv(base, s) && LogKnown(got, s.proto.hist) && i < |got|
    ensures base <= got[i].id < base + |s.back.written| && got[i].item == s.back.written[got[i].id - base]
  {
  }

  lemma GotCollected(cfg: Config, device: string, th: Thresholds, base: nat, s: State, got: seq<Entry>)
    requires Configured(cfg, device, th) && CacheSize.IdInv(base, s)
    requires Flow.InOrder(cfg.tag, s.back.written, s.front.collected)
    requires AscendingIds(got) && LogKnown(got, s.proto.hist)
    ensures FromCollected(got, s.front.collected, th)
  {
    var w := s.back.written;
    forall i, j | 0 <= i < j < |got|
      ensures got[i].item.tag < got[j].item.tag
    {
      GotWritten(base, s, got, i);
      GotWritten(base, s, got, j);
      assert w[got[i].id - base].tag < w[got[j].id - base].tag;
    }
    forall i | 0 <= i < |got|
      ensures got[i].item.tag < |s.front.collected|
      ensures OnlyAlarmsAdded(s.front.collected[got[i].item.tag].sample, th, got[i].item.sample)
    {
      GotWritten(base, s, got, i);
      var item := w[got[i].id - base];
      assert item.sample == cfg.tag(s.front.collected[item.tag].sample);
      TaggedExactly(s.front.collected[item.tag].sample, th);
    }
  }

  /** Started on an empty table, over every interleaving of the threads, whatever reader of JSON the
      receiver uses and however much of each connection has arrived in whatever chunks: the messages
      counted are those of a subsequence of the collected samples, in collection order, none twice
      and none invented, and each sample is as collected except for the computed alarm bits. */
  lemma EndToEndOrder<M>(v: View<M>, cfg: Config, device: string, th: Thresholds, base: nat,
                         rawCapacity: nat, storeCapacity: nat, acts: seq<Action>, seen: seq<string>)
    requires Configured(cfg, device, th) && Understands(v, device, cfg.up)
    requires base >= 1 && rawCapacity > 0 && storeCapacity > 0
    requires
      var s := Execution(cfg, Init(Table(map[], base), map[], rawCapacity, storeCapacity), acts);
      SeenOf(seen, s.proto.net.conns)
    ensures
      var s := Execution(cfg, Init(Table(map[], base), map[], rawCapacity, storeCapacity), acts);
      var got := Got(v, seen, s.proto.net.conns);
      AllMessages(v, seen) == MessagesFor(v, got) && FromCollected(got, s.front.collected, th)
  {
    var s0 := Init(Table(map[], base), map[], rawCapacity, storeCapacity);
    var s := Execution(cfg, s0, acts);
    Reached(cfg, device, th, Table(map[], base), map[], rawCapacity, storeCapacity, acts);
    RunIds(cfg, base, s0, acts);
    ReceivedInOrder(v, device, cfg.up, s.proto, seen);
    Flow.WrittenInOrder(cfg, s);
    GotCollected(cfg, device, th, base, s, Got(v, seen, s.proto.net.conns));
  }

  lemma SameMeasurements(m: Message, s: Sample, th: Thresholds, r: Sample)
    requires CarriesMeasurements(m, r) && OnlyAlarmsAdded(s, th, r)
    ensures CarriesMeasurements(m, s)
  {
  }

  /** What the receiver makes of a sample once it is tagged. */
  lemma TaggedArrives(device: string, th: Thresholds, s: Sample) returns (r: Sample, m: Message)
    requires Plain(device)
    ensures r == Tagged(s, th) && OnlyAlarmsAdded(s, th, r) && Decode(Body(device, r)) == Some(m)
    ensures CarriesMeasurements(m, s) && CarriesStatus(m, device, r)
  {
    r := Tagged(s, th);
    TaggedExactly(s, th);
    LineCarries(device, r);
    m := Decode(Body(device, r)).value;
    SameMeasurements(m, s, th, r);
  }

  /** From the wire to the receiver: of a good reply of at least seven registers the message carries
      register 0 as pH, register 1 as the signed temperature, register 2 as turbidity, all three in
      hundredths, then conductivity, sensor status and sequence, and register 5 with only the bits of
      the exceeded limits added. */
  lemma ReplyArrives(device: string, th: Thresholds, reply: seq<bv8>, mockSequence: bv32, now: Millis)
    returns (s: Sample, r: Sample, m: Message)
    requires Plain(device) && SevenRegisters(reply)
    ensures s == Acquired(reply, mockSequence, now).0 && CarriesRegisters(reply, now, s)
    ensures r == Tagged(s, th) && OnlyAlarmsAdded(s, th, r)
    ensures Decode(Body(device, r)) == Some(m) && CarriesMeasurements(m, s) && CarriesStatus(m, device, r)
  {
    s := GoodReply(reply, mockSequence, now);
    r, m := TaggedArrives(device, th, s);
  }

  /** Which register stands under which key, and in which unit. */
  predicate CarriesNumbers(m: Message, regs: seq<bv16>, temperature: int)
    requires |regs| == 7
  {
    Lookup(m, "ph") == Some(Number(regs[0] as int, 2)) && Lookup(m, "temperature") == Some(Number(temperature, 2)) &&
    Lookup(m, "turbidity") == Some(Number(regs[2] as int, 2)) &&
    Lookup(m, "conductivity") == Some(Number(regs[3] as int, 0)) &&
    Lookup(m, "sensor_status") == Some(Number(regs[4] as int, 0)) &&
    Lookup(m, "sequence") == Some(Number(regs[6] as int, 0))
  }

  /** The message carries the registers, with the temperature as the signed number of the same bits,
      and the alarm word that was reported with the bits of the exceeded limits added. */
  predicate Arrived(m: Message, regs: seq<bv16>, th: Thresholds, temperature: int, reported: bv32, alarm: bv32)
    requires |regs| == 7
  {
    CarriesNumbers(m, regs, temperature) && Lookup(m, "alarm_status") == Some(Number(alarm as int, 0)) &&
    -0x8000 <= temperature < 0x8000 && (temperature - regs[1] as int) % 0x1_0000 == 0 &&
    reported as int == regs[5] as int &&
    var before := StatusOf(reported);
    StatusOf(alarm) ==
    Status(before.phLow || regs[0] as int < th.phMin,
           before.phHigh || (regs[0] as int >= th.phMin && regs[0] as int > th.phMax),
           before.turbHigh || regs[2] as int > th.turbMax,
           before.condHigh || regs[3] as int > th.condMax,
           before.tempHigh || temperature > th.tempMax,
           before.others)
  }

  lemma ArrivesFrom(m: Message, device: string, regs: seq<bv16>, now: Millis, s: Sample, th: Thresholds, r: Sample)
    requires |regs| == 7 && Carries(regs, now, s) && OnlyAlarmsAdded(s, th, r)
    requires CarriesMeasurements(m, s) && CarriesStatus(m, device, r)
    ensures Arrived(m, regs, th, s.temperature, s.alarmStatus, r.alarmStatus)
  {
  }

  lemma SampleArrives(device: string, th: Thresholds, regs: seq<bv16>, now: Millis, s: Sample)
    returns (temperature: int, reported: bv32, alarm: bv32)
    requires Plain(device) && |regs| == 7 && Carries(regs, now, s)
    ensures
      Decode(Body(device, Tagged(s, th))).Some? &&
      Arrived(Decode(Body(device, Tagged(s, th))).value, regs, th, temperature, reported, alarm)
  {
    var r, m := TaggedArrives(device, th, s);
    ArrivesFrom(m, device, regs, now, s, th, r);
    temperature, reported, alarm := s.temperature, s.alarmStatus, r.alarmStatus;
  }

  /** The same of seven encoded registers, number by number. */
  lemma RegistersArrive(device: string, th: Thresholds, regs: seq<bv16>, mockSequence: bv32, now: Millis)
    returns (temperature: int, reported: bv32, alarm: bv32)
    requires Plain(device) && |regs| == 7
    ensures
      var s := Acquired(ModbusFrame.EncodeResponse(regs), mockSequence, now).0;
      Decode(Body(device, Tagged(s, th))).Some? &&
      Arrived(Decode(Body(device, Tagged(s, th))).value, regs, th, temperature, reported, alarm)
  {
    AcquireRoundTrip(regs, mockSequence, now);
    temperature, reported, alarm :=
      SampleArrives(device, th, regs, now, Acquired(ModbusFrame.EncodeResponse(regs), mockSequence, now).0);
  }

  // ---------------------------------------------------------------------------------------
  // After the shutdown
  // ---------------------------------------------------------------------------------------

  /** When main has joined every thread, at most one sample is lost to each queue's closing. */
  lemma LossAtShutdown(cfg: Config, device: string, th: Thresholds, db: Table<Item>, hist: map<nat, Item>,
                       rawCapacity: nat, storeCapacity: nat, acts: seq<Action>)
    requires Configured(cfg, device, th) && Startable(cfg, db, hist, rawCapacity, storeCapacity)
    ensures
      var s := Execution(cfg, Init(db, hist, rawCapacity, storeCapacity), acts);
      var f, b := s.front, s.back;
      s.main == UPLOADER_JOINED ==>
        |f.raw.rejected| <= 1 && |f.sq.rejected| + |f.sq.items| <= 1 &&
        |f.collected| ==
          |b.written| + |b.failed| + |f.raw.overwritten| + |f.raw.items| + |f.sq.overwritten| +
          |f.raw.rejected| + (|f.sq.rejected| + |f.sq.items|)
  {
    Reached(cfg, device, th, db, hist, rawCapacity, storeCapacity, acts);
    var s := Execution(cfg, Init(db, hist, rawCapacity, storeCapacity), acts);
    if s.main == UPLOADER_JOINED {
      Shutdown.LossAtTheEnd(cfg, s);
    }
  }

  /** A row still in the table after the drain was sent, or is out of retries. */
  lemma SentUnlessExhausted(cfg: Config, s: State, id: nat)
    requires SystemInv(cfg, {}, s) && s.main == UPLOADER_JOINED && s.proto.net.connected && cfg.up.batchMax != 0
    requires !s.proto.net.gaveUp
    requires id in s.proto.db.rows && s.proto.db.rows[id].retry < cfg.up.retryMax
    ensures id in UploadMarks.Ids(s.proto.net.log)
  {
  }

  lemma AllCounted<M>(v: View<M>, cfg: Config, device: string, s: State, seen: seq<string>)
    requires Understands(v, device, cfg.up) && WireInv(cfg.up, s.proto.net) && UploadHeads.HeadInv(s.proto.net)
    requires !s.proto.net.broke && SeenAll(seen, s.proto.net.conns)
    ensures AllMessages(v, seen) == MessagesFor(v, s.proto.net.log)
  {
    CountedExactly(v, device, cfg.up, s.proto.net, seen);
    FlatClean(s.proto.net.conns);
    CleanDelivered(s.proto.net.log);
  }

  lemma {:induction false} FlatClean(conns: seq<Conn>)
    requires AllClean(conns)
    ensures Clean(Flat(conns))
    decreases |conns|
  {
    if conns != [] {
      FlatClean(conns[..|conns| - 1]);
      assert Clean(conns[|conns| - 1].lines);
    }
  }

  /** If the uploader was connected when it saw the shutdown flag, its batch limit is not zero and
      neither a send nor a SELECT failed in the drain, then once all threads are joined and everything sent has
      arrived, the receiver has counted one message for every line sent, and every row still in the
      table was sent or is out of retries. */
  lemma EndToEndComplete<M>(v: View<M>, cfg: Config, device: string, th: Thresholds, base: nat,
                            rawCapacity: nat, storeCapacity: nat, acts: seq<Action>, seen: seq<string>)
    requires Configured(cfg, device, th) && Understands(v, device, cfg.up)
    requires base >= 1 && rawCapacity > 0 && storeCapacity > 0 && cfg.up.batchMax != 0
    requires
      var s := Execution(cfg, Init(Table(map[], base), map[], rawCapacity, storeCapacity), acts);
      s.main == UPLOADER_JOINED && s.proto.net.connected && !s.proto.net.broke && !s.proto.net.gaveUp &&
      SeenAll(seen, s.proto.net.conns)
    ensures
      var s := Execution(cfg, Init(Table(map[], base), map[], rawCapacity, storeCapacity), acts);
      AllMessages(v, seen) == MessagesFor(v, s.proto.net.log) &&
      forall id :: id in s.proto.db.rows && s.proto.db.rows[id].retry < cfg.up.retryMax ==>
        id in UploadMarks.Ids(s.proto.net.log)
  {
    var db: Table<Item> := Table(map[], base);
    var s := Execution(cfg, Init(db, map[], rawCapacity, storeCapacity), acts);
    Reached(cfg, device, th, db, map[], rawCapacity, storeCapacity, acts);
    assert Uploaded(db.rows) == {};
    AllCounted(v, cfg, device, s, seen);
    forall id | id in s.proto.db.rows && s.proto.db.rows[id].retry < cfg.up.retryMax
      ensures id in UploadMarks.Ids(s.proto.net.log)
    {
      SentUnlessExhausted(cfg, s, id);
    }
  }

  // ---------------------------------------------------------------------------------------
  // Exactly when the shutdown uploads everything
  // ---------------------------------------------------------------------------------------

  /** Nothing was waiting, or the uploader drains: it has a connection, and its queries return rows. */
  ghost predicate WillDrain(cfg: Config, s: State) {
    Shutdown.NothingPending(s.proto.db, cfg.up.retryMax) || (s.proto.net.connected && cfg.up.batchMax != 0)
  }

  ghost predicate AllUploaded(db: Table<Item>) {
    forall id :: id in db.rows ==> db.rows[id].uploaded
  }

  ghost predicate NoneExhausted(db: Table<Item>, retryMax: int) {
    forall id :: id in db.rows ==> db.rows[id].uploaded || db.rows[id].retry < retryMax
  }

  /** What the flag test at s decides of the table at the end: no row is pending there only if nothing
      was waiting or the uploader drained, and if so none is unless a SELECT that failed ended the
      drain. */
  ghost predicate PendingDecided(cfg: Config, s: State, end: Proto) {
    (Shutdown.NothingPending(end.db, cfg.up.retryMax) ==> WillDrain(cfg, s)) &&
    (WillDrain(cfg, s) ==> Shutdown.NothingPending(end.db, cfg.up.retryMax) || end.net.gaveUp)
  }

  /** With all threads joined no row is pending exactly when, as the uploader tested the flag, none
      was, or it was connected and its batch limit is not zero. Only a SELECT that fails and so ends
      the drain can still leave one. */
  lemma PendingExactly(cfg: Config, marked: set<nat>, s: State, acts: seq<Action>)
    requires SystemInv(cfg, marked, s) && Fits(cfg.up) && cfg.up.retryMax >= 0 && Shutdown.AtFlagTest(s)
    requires Execution(cfg, s, acts).main == UPLOADER_JOINED
    ensures
      var end := Execution(cfg, s, acts).proto;
      PendingDecided(cfg, s, end) && (end.net.gaveUp ==> !Shutdown.SelectsRun(acts)) &&
      (Shutdown.NothingPending(s.proto.db, cfg.up.retryMax) ==> Shutdown.NothingPending(end.db, cfg.up.retryMax))
  {
    RunSystem(cfg, marked, s, acts);
    if Shutdown.SelectsRun(acts) {
      Shutdown.RunGoesOn(cfg, s, acts);
    }
    if Shutdown.NothingPending(s.proto.db, cfg.up.retryMax) {
      Shutdown.RunNothingPending(cfg, s, acts);
    } else if s.proto.net.connected && cfg.up.batchMax != 0 {
      Shutdown.RunDraining(cfg, s, acts);
    } else {
      Shutdown.RunIdle(cfg, s.proto.db, s, acts);
    }
  }

  /** Then every row is uploaded exactly when in addition none is out of retries, with the same
      exception. */
  lemma UploadedExactly(cfg: Config, marked: set<nat>, s: State, acts: seq<Action>)
    requires SystemInv(cfg, marked, s) && Fits(cfg.up) && cfg.up.retryMax >= 0 && Shutdown.AtFlagTest(s)
    requires Execution(cfg, s, acts).main == UPLOADER_JOINED
    ensures
      var end := Execution(cfg, s, acts).proto;
      (AllUploaded(end.db) ==> WillDrain(cfg, s) && NoneExhausted(end.db, cfg.up.retryMax)) &&
      (WillDrain(cfg, s) && NoneExhausted(end.db, cfg.up.retryMax) ==> AllUploaded(end.db) || end.net.gaveUp)
  {
    PendingExactly(cfg, marked, s, acts);
    PendingOrExhausted(Execution(cfg, s, acts).proto.db, cfg.up.retryMax);
  }

  lemma PendingSplit(cfg: Config, marked: set<nat>, s0: State, acts: seq<Action>) returns (n: nat)
    requires SystemInv(cfg, marked, s0) && Fits(cfg.up) && cfg.up.retryMax >= 0
    requires !Shutdown.Tested(s0.proto.net.pc) && Execution(cfg, s0, acts).main == UPLOADER_JOINED
    ensures n <= |acts|
    ensures
      var s := Execution(cfg, s0, acts[..n]);
      Shutdown.AtFlagTest(s) && PendingDecided(cfg, s, Execution(cfg, s0, acts).proto)
  {
    EndTested(cfg, marked, s0, acts);
    n := Shutdown.PassesFlagTest(cfg, s0, acts);
    PendingFrom(cfg, marked, s0, acts, n);
  }

  lemma EndTested(cfg: Config, marked: set<nat>, s0: State, acts: seq<Action>)
    requires SystemInv(cfg, marked, s0) && Fits(cfg.up) && cfg.up.retryMax >= 0
    requires Execution(cfg, s0, acts).main == UPLOADER_JOINED
    ensures Shutdown.Tested(Execution(cfg, s0, acts).proto.net.pc)
  {
    RunSystem(cfg, marked, s0, acts);
  }

  lemma PendingFrom(cfg: Config, marked: set<nat>, s0: State, acts: seq<Action>, n: nat)
    requires SystemInv(cfg, marked, s0) && Fits(cfg.up) && cfg.up.retryMax >= 0 && n <= |acts|
    requires Shutdown.AtFlagTest(Execution(cfg, s0, acts[..n])) && Execution(cfg, s0, acts).main == UPLOADER_JOINED
    ensures PendingDecided(cfg, Execution(cfg, s0, acts[..n]), Execution(cfg, s0, acts).proto)
  {
    RunSystem(cfg, marked, s0, acts[..n]);
    Resumed(cfg, s0, acts, n);
    PendingExactly(cfg, marked, Execution(cfg, s0, acts[..n]), acts[n..]);
  }

  /** Every run that ends has such a moment: what it leaves pending is decided there. */
  lemma PendingAfterRun(cfg: Config, device: string, th: Thresholds, db: Table<Item>, hist: map<nat, Item>,
                        rawCapacity: nat, storeCapacity: nat, acts: seq<Action>) returns (n: nat)
    requires Configured(cfg, device, th) && Startable(cfg, db, hist, rawCapacity, storeCapacity)
    requires Execution(cfg, Init(db, hist, rawCapacity, storeCapacity), acts).main == UPLOADER_JOINED
    ensures
      n <= |acts| &&
      var s0 := Init(db, hist, rawCapacity, storeCapacity);
      var s := Execution(cfg, s0, acts[..n]);
      Shutdown.AtFlagTest(s) && PendingDecided(cfg, s, Execution(cfg, s0, acts).proto)
  {
    RendersFits(cfg.up, device);
    InitSystem(cfg, db, hist, rawCapacity, storeCapacity);
    n := PendingSplit(cfg, Uploaded(db.rows), Init(db, hist, rawCapacity, storeCapacity), acts);
  }

  lemma PendingOrExhausted(db: Table<Item>, retryMax: int)
    ensures AllUploaded(db) <==> Shutdown.NothingPending(db, retryMax) && NoneExhausted(db, retryMax)
  {
  }

  /** Some message counted is that of the row's line. */
  ghost predicate RowCounted<M>(v: View<M>, seen: seq<string>, net: Net, id: nat)
    requires |seen| == |net.conns|
  {
    exists k :: 0 <= k < |net.log| && net.log[k].id == id && net.log[k] in Got(v, seen, net.conns)
  }

  /** No row still in the table has a spoilt line. */
  ghost predicate NoneSpoilt(p: Proto) {
    forall k :: 0 <= k < |p.net.log| && p.net.log[k].id in p.db.rows ==> p.net.log[k].before == ""
  }

  /** In every reachable state a sent line is a balanced text exactly when nothing unfinished stands
      before it: a spoilt line is no JSON for any reader. */
  lemma SpoiltLines(cfg: Config, device: string, th: Thresholds, db: Table<Item>, hist: map<nat, Item>,
                    rawCapacity: nat, storeCapacity: nat, acts: seq<Action>, k: nat)
    requires Configured(cfg, device, th) && Startable(cfg, db, hist, rawCapacity, storeCapacity)
    requires k < |Execution(cfg, Init(db, hist, rawCapacity, storeCapacity), acts).proto.net.log|
    ensures
      var e := Execution(cfg, Init(db, hist, rawCapacity, storeCapacity), acts).proto.net.log[k];
      Balanced(TextOf(cfg.up, e)) <==> e.before == ""
  {
    Reached(cfg, device, th, db, hist, rawCapacity, storeCapacity, acts);
    var e := Execution(cfg, Init(db, hist, rawCapacity, storeCapacity), acts).proto.net.log[k];
    UploadHeads.SpoiltUnbalanced(device, cfg.up, e);
  }

  /** In every reachable state, with everything seen: a message is counted for each line sent
      exactly when no line is spoilt, and a row whose line was sent, and which is therefore marked
      but for the step in between, is counted exactly when its line is not spoilt. */
  lemma CountedAfterRun<M>(v: View<M>, cfg: Config, device: string, th: Thresholds, db: Table<Item>,
                           hist: map<nat, Item>, rawCapacity: nat, storeCapacity: nat, acts: seq<Action>,
                           seen: seq<string>)
    requires Understands(v, device, cfg.up)
    requires Configured(cfg, device, th) && Startable(cfg, db, hist, rawCapacity, storeCapacity)
    requires
      var s := Execution(cfg, Init(db, hist, rawCapacity, storeCapacity), acts);
      SeenAll(seen, s.proto.net.conns)
    ensures
      var p := Execution(cfg, Init(db, hist, rawCapacity, storeCapacity), acts).proto;
      (|AllMessages(v, seen)| == |p.net.log| <==> Clean(p.net.log)) &&
      forall k :: 0 <= k < |p.net.log| ==>
        var id := p.net.log[k].id;
        (id in p.db.rows ==> p.db.rows[id].uploaded || (p.net.pc.Mark? && p.net.pc.id == id)) &&
        (RowCounted(v, seen, p.net, id) <==> p.net.log[k].before == "")
  {
    Reached(cfg, device, th, db, hist, rawCapacity, storeCapacity, acts);
    var p := Execution(cfg, Init(db, hist, rawCapacity, storeCapacity), acts).proto;
    CountedExactly(v, device, cfg.up, p.net, seen);
    forall k | 0 <= k < |p.net.log|
      ensures
        var id := p.net.log[k].id;
        (id in p.db.rows ==> p.db.rows[id].uploaded || (p.net.pc.Mark? && p.net.pc.id == id)) &&
        (RowCounted(v, seen, p.net, id) <==> p.net.log[k].before == "")
    {
      UploadMarks.IdIn(p.net.log, k);
      LineCounted(v, device, cfg, p, seen, k);
    }
  }

  lemma LineCounted<M>(v: View<M>, device: string, cfg: Config, p: Proto, seen: seq<string>, k: nat)
    requires Understands(v, device, cfg.up) && TableInv(cfg.up, p) && WireInv(cfg.up, p.net)
    requires UploadHeads.HeadInv(p.net)
    requires SeenAll(seen, p.net.conns) && k < |p.net.log|
    ensures RowCounted(v, seen, p.net, p.net.log[k].id) <==> p.net.log[k].before == ""
  {
    CountedExactly(v, device, cfg.up, p.net, seen);
    SameLine(p.net.log);
  }

  lemma SameLine(log: seq<Entry>)
    requires AscendingIds(log)
    ensures forall i, j :: 0 <= i < |log| && 0 <= j < |log| && log[i].id == log[j].id ==> i == j
  {
  }

  lemma SentRow(cfg: Config, s: State, id: nat)
    requires SystemInv(cfg, {}, s) && s.main == UPLOADER_JOINED && id in s.proto.db.rows
    ensures s.proto.db.rows[id].uploaded <==> exists k :: 0 <= k < |s.proto.net.log| && s.proto.net.log[k].id == id
  {
    var log := s.proto.net.log;
    if s.proto.db.rows[id].uploaded {
      var k := UploadMarks.IdAt(log, id);
      assert log[k].id == id;
    }
    if k :| 0 <= k < |log| && log[k].id == id {
      UploadMarks.IdIn(log, k);
    }
  }

  lemma UploadedCounted<M>(v: View<M>, cfg: Config, device: string, s: State, seen: seq<string>)
    requires SystemInv(cfg, {}, s) && s.main == UPLOADER_JOINED && Understands(v, device, cfg.up)
    requires SeenAll(seen, s.proto.net.conns)
    ensures
      (forall id :: id in s.proto.db.rows ==> RowCounted(v, seen, s.proto.net, id)) <==>
      AllUploaded(s.proto.db) && NoneSpoilt(s.proto)
  {
    var p := s.proto;
    if forall id :: id in p.db.rows ==> RowCounted(v, seen, p.net, id) {
      forall id | id in p.db.rows
        ensures p.db.rows[id].uploaded
      {
        assert RowCounted(v, seen, p.net, id);
        SentRow(cfg, s, id);
      }
      forall k | 0 <= k < |p.net.log| && p.net.log[k].id in p.db.rows
        ensures p.net.log[k].before == ""
      {
        LineCounted(v, device, cfg, p, seen, k);
      }
    }
    if AllUploaded(p.db) && NoneSpoilt(p) {
      forall id | id in p.db.rows
        ensures RowCounted(v, seen, p.net, id)
      {
        SentRow(cfg, s, id);
        var k :| 0 <= k < |p.net.log| && p.net.log[k].id == id;
        LineCounted(v, device, cfg, p, seen, k);
      }
    }
  }

  /** What the flag test at s, the retries and the lines say of the rows the receiver has counted. */
  ghost predicate CompleteDecided<M>(v: View<M>, cfg: Config, s: State, end: Proto, seen: seq<string>)
    requires |seen| == |end.net.conns|
  {
    var all := forall id :: id in end.db.rows ==> RowCounted(v, seen, end.net, id);
    var favourable := WillDrain(cfg, s) && NoneExhausted(end.db, cfg.up.retryMax) && NoneSpoilt(end);
    (all ==> favourable) && (favourable ==> all || end.net.gaveUp)
  }

  /** Exactly when the shutdown delivers everything: with all threads joined and everything sent
      seen, every row left in the table is counted by the receiver if and only if, as the uploader
      tested the flag, nothing was waiting or it was connected with a batch limit other than zero,
      no row is out of retries, and no row's line is spoilt; with the same exception. */
  lemma CompleteExactly<M>(v: View<M>, cfg: Config, device: string, th: Thresholds, s: State, acts: seq<Action>,
                           seen: seq<string>)
    requires Configured(cfg, device, th) && Understands(v, device, cfg.up)
    requires SystemInv(cfg, {}, s) && Shutdown.AtFlagTest(s)
    ensures
      var end := Execution(cfg, s, acts);
      end.main == UPLOADER_JOINED && SeenAll(seen, end.proto.net.conns) ==>
        CompleteDecided(v, cfg, s, end.proto, seen)
  {
    var end := Execution(cfg, s, acts);
    if end.main == UPLOADER_JOINED && SeenAll(seen, end.proto.net.conns) {
      RendersFits(cfg.up, device);
      RunSystem(cfg, {}, s, acts);
      UploadedExactly(cfg, {}, s, acts);
      UploadedCounted(v, cfg, device, end, seen);
    }
  }

  /** Every run from an empty table that ends has such a moment: it decides what is delivered. */
  lemma CompleteAfterRun<M>(v: View<M>, cfg: Config, device: string, th: Thresholds, base: nat,
                            rawCapacity: nat, storeCapacity: nat, acts: seq<Action>, seen: seq<string>)
    returns (n: nat)
    requires Configured(cfg, device, th) && Understands(v, device, cfg.up)
    requires base >= 1 && rawCapacity > 0 && storeCapacity > 0
    requires
      var end := Execution(cfg, Init(Table(map[], base), map[], rawCapacity, storeCapacity), acts);
      end.main == UPLOADER_JOINED && SeenAll(seen, end.proto.net.conns)
    ensures
      n <= |acts| &&
      var s0 := Init(Table(map[], base), map[], rawCapacity, storeCapacity);
      var s := Execution(cfg, s0, acts[..n]);
      Shutdown.AtFlagTest(s) && CompleteDecided(v, cfg, s, Execution(cfg, s0, acts).proto, seen)
  {
    var db: Table<Item> := Table(map[], base);
    var s0 := Init(db, map[], rawCapacity, storeCapacity);
    RendersFits(cfg.up, device);
    InitSystem(cfg, db, map[], rawCapacity, storeCapacity);
    assert Uploaded(db.rows) == {};
    n := CompleteSplit(v, cfg, device, th, s0, acts, seen);
  }

  lemma CompleteSplit<M>(v: View<M>, cfg: Config, device: string, th: Thresholds, s0: State, acts: seq<Action>,
                         seen: seq<string>) returns (n: nat)
    requires Configured(cfg, device, th) && Understands(v, device, cfg.up) && Fits(cfg.up)
    requires SystemInv(cfg, {}, s0) && !Shutdown.Tested(s0.proto.net.pc)
    requires Execution(cfg, s0, acts).main == UPLOADER_JOINED && SeenAll(seen, Execution(cfg, s0, acts).proto.net.conns)
    ensures n <= |acts|
    ensures
      var s := Execution(cfg, s0, acts[..n]);
      Shutdown.AtFlagTest(s) && CompleteDecided(v, cfg, s, Execution(cfg, s0, acts).proto, seen)
  {
    EndTested(cfg, {}, s0, acts);
    n := Shutdown.PassesFlagTest(cfg, s0, acts);
    CompleteFrom(v, cfg, device, th, s0, acts, n, seen);
  }

  lemma CompleteFrom<M>(v: View<M>, cfg: Config, device: string, th: Thresholds, s0: State, acts: seq<Action>,
                        n: nat, seen: seq<string>)
    requires Configured(cfg, device, th) && Understands(v, device, cfg.up) && Fits(cfg.up)
    requires SystemInv(cfg, {}, s0) && n <= |acts| && Shutdown.AtFlagTest(Execution(cfg, s0, acts[..n]))
    requires Execution(cfg, s0, acts).main == UPLOADER_JOINED && SeenAll(seen, Execution(cfg, s0, acts).proto.net.conns)
    ensures CompleteDecided(v, cfg, Execution(cfg, s0, acts[..n]), Execution(cfg, s0, acts).proto, seen)
  {
    RunSystem(cfg, {}, s0, acts[..n]);
    Resumed(cfg, s0, acts, n);
    CompleteExactly(v, cfg, device, th, Execution(cfg, s0, acts[..n]), acts[n..], seen);
  }

  /** In every reachable state, on each of the uploader's connections, a receiver that has seen this
      much of it is alive and has counted every message on it. */
  lemma ReceiverLives<M>(v: View<M>, cfg: Config, device: string, th: Thresholds, db: Table<Item>,
                         hist: map<nat, Item>, rawCapacity: nat, storeCapacity: nat, acts: seq<Action>,
                         i: nat, seen: string, counted: seq<M>, died: bool)
    requires Understands(v, device, cfg.up)
    requires Configured(cfg, device, th) && Startable(cfg, db, hist, rawCapacity, storeCapacity)
    requires
      var conns := Execution(cfg, Init(db, hist, rawCapacity, storeCapacity), acts).proto.net.conns;
      i < |conns| && IsPrefix(seen, conns[i].bytes) && CountedOn(v.reader, counted, seen, died)
    ensures !died && counted == MessagesOn(v, seen)
  {
    Reached(cfg, device, th, db, hist, rawCapacity, storeCapacity, acts);
    var net := Execution(cfg, Init(db, hist, rawCapacity, storeCapacity), acts).proto.net;
    BracedConn(net.conns, i);
    assert ConnOk(cfg.up, net.conns[i]);
    NeverDies(v, device, cfg.up, net.conns[i], seen, counted, died);
  }
}
