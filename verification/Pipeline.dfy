/** The gateway's threads together: collector, processor, store, uploader, and the shutdown in
    main (app/src/main.c, app/src/processor.c, app/src/sqlite_store.c). One program counter per
    thread; every section with a queue's mutex held, every SQL statement and every flag test is one
    atomic step, and the threads interleave freely. */
module Pipeline {
  import opened Samples
  import opened Tables
  import opened Queues
  import opened UploadProtocol

  type ItemQueue = q: Queue<Item> | q.capacity > 0 witness Empty<Item>(1)

  /** tag is what the processor does to a sample. */
  datatype Config = Config(up: Settings, tag: Sample -> Sample, maxCache: int)

  datatype ColPc = ColCheck | ColPush(item: Item) | ColDone

  datatype ProcPc = ProcCheck | ProcPop | ProcPush(item: Item) | ProcDone

  datatype StorePc =
    | StoreCheck
    | StorePop
    | Insert(item: Item, drain: bool)
    | Count(final: bool)
    | DeleteSent(excess: nat, final: bool)
    | Recount(final: bool)
    | DeleteOld(excess: nat, final: bool)
    | DrainCheck
    | DrainPop
    | StoreDone

  /** Collector, raw_queue, processor and store_queue; collected is every sample ever taken. */
  datatype Front = Front(collected: seq<Item>, col: ColPc, raw: ItemQueue, proc: ProcPc, sq: ItemQueue)

  /** The store thread: what it wrote, what it failed to write, whether a trim statement failed, and
      how many rows were waiting for upload at the last trim's first DELETE. */
  datatype Back = Back(pc: StorePc, counter: nat, written: seq<Item>, failed: seq<Item>, trimFailed: bool, waiting: nat)

  /** main counts how far the shutdown in main has come. */
  datatype State = State(signalled: bool, main: nat, front: Front, back: Back, proto: Proto)

  // main's stages: each constant is the stage from which on the statement has been executed.
  const PROCESSOR_STOPPED := 1
  const STORE_STOPPED := 2
  const RAW_CLOSED := 3
  const STORE_CLOSED := 4
  const COLLECTOR_JOINED := 5
  const PROCESSOR_JOINED := 6
  const STORE_JOINED := 7
  const UPLOADER_STOPPED := 8
  const UPLOADER_JOINED := 9

  function Init(db: Table<Item>, hist: map<nat, Item>, rawCapacity: nat, storeCapacity: nat): State
    requires rawCapacity > 0 && storeCapacity > 0
  {
    State(false, 0, Front([], ColCheck, Empty(rawCapacity), ProcCheck, Empty(storeCapacity)),
          Back(StoreCheck, 0, [], [], false, 0), Proto(db, hist, IDLE))
  }

  // ---------------------------------------------------------------------------------------
  // Steps
  // ---------------------------------------------------------------------------------------

  /** Any sample may come in: what Samples.Acquired makes of a reply, in particular. */
  function CollectStep(f: Front, stop: bool, sample: Sample): Front {
    match f.col
    case ColCheck =>
      if stop then f.(col := ColDone)
      else
        var item := Item(|f.collected|, sample);
        f.(collected := f.collected + [item], col := ColPush(item))
    case ColPush(item) => f.(raw := Pushed(f.raw, item), col := ColCheck)
    case ColDone => f
  }

  function TagItem(tag: Sample -> Sample, item: Item): Item { item.(sample := tag(item.sample)) }

  function ProcessStep(cfg: Config, f: Front, stop: bool): Front {
    match f.proc
    case ProcCheck => f.(proc := if stop then ProcDone else ProcPop)
    case ProcPop =>
      if f.raw.items == [] then f.(proc := ProcCheck)
      else f.(raw := AfterPop(f.raw), proc := ProcPush(TagItem(cfg.tag, f.raw.items[0])))
    case ProcPush(item) => f.(sq := Pushed(f.sq, item), proc := ProcCheck)
    case ProcDone => f
  }

  function AfterTrim(final: bool): StorePc { if final then StoreDone else StoreCheck }

  function AfterInsert(cfg: Config, counter: nat, drain: bool): StorePc {
    if drain then DrainCheck
    else if cfg.maxCache > 0 && counter % 100 == 0 then Count(false)
    else StoreCheck
  }

  /** Taking the next sample off store_queue; none there means the wait timed out. */
  function PopStep(s: State, drain: bool): State {
    var q := s.front.sq;
    if q.items == [] then s.(back := s.back.(pc := if drain then Count(true) else StoreCheck))
    else s.(front := s.front.(sq := AfterPop(q)), back := s.back.(pc := Insert(q.items[0], drain)))
  }

  function InsertStep(cfg: Config, s: State, ok: bool): State
    requires s.back.pc.Insert?
  {
    var b, item := s.back, s.back.pc.item;
    var next := b.(pc := AfterInsert(cfg, b.counter + 1, b.pc.drain), counter := b.counter + 1);
    if ok then s.(back := next.(written := b.written + [item]), proto := EnvInsert(s.proto, item))
    else s.(back := next.(failed := b.failed + [item]))
  }

  /** The four statements of sqlite_store_trim_cache; ok says whether the statement succeeds. */
  function TrimStep(cfg: Config, s: State, ok: bool): State {
    var b, rows := s.back, s.proto.db.rows;
    match b.pc
    case Count(final) =>
      if cfg.maxCache <= 0 then s.(back := b.(pc := AfterTrim(final)))
      else if !ok then s.(back := b.(pc := AfterTrim(final), trimFailed := true))
      else if |rows| <= cfg.maxCache then s.(back := b.(pc := AfterTrim(final)))
      else s.(back := b.(pc := DeleteSent(|rows| - cfg.maxCache, final)))
    case DeleteSent(excess, final) =>
      if !ok then s.(back := b.(pc := AfterTrim(final), trimFailed := true))
      else
        s.(back := b.(pc := Recount(final), waiting := |Unuploaded(rows)|),
           proto := EnvDelete(s.proto, Lowest(Uploaded(rows), excess)))
    case Recount(final) =>
      if !ok then s.(back := b.(pc := AfterTrim(final), trimFailed := true))
      else if |rows| <= cfg.maxCache then s.(back := b.(pc := AfterTrim(final)))
      else s.(back := b.(pc := DeleteOld(|rows| - cfg.maxCache, final)))
    case DeleteOld(excess, final) =>
      if !ok then s.(back := b.(pc := AfterTrim(final), trimFailed := true))
      else s.(back := b.(pc := AfterTrim(final)), proto := EnvDelete(s.proto, Lowest(rows.Keys, excess)))
    case _ => s
  }

  function StoreStep(cfg: Config, s: State, ok: bool): State {
    var b := s.back;
    match b.pc
    case StoreCheck => s.(back := b.(pc := if s.main >= STORE_STOPPED then DrainCheck else StorePop))
    case StorePop => PopStep(s, false)
    case Insert(_, _) => InsertStep(cfg, s, ok)
    case DrainCheck => s.(back := b.(pc := if s.front.sq.items != [] then DrainPop else Count(true)))
    case DrainPop => PopStep(s, true)
    case _ => TrimStep(cfg, s, ok)
  }

  /** The shutdown: flags and queues in this order, then the joins, the uploader last. */
  function MainStep(s: State): State {
    var f := s.front;
    if s.main == 0 then if s.signalled then s.(main := PROCESSOR_STOPPED) else s
    else if s.main == PROCESSOR_STOPPED then s.(main := STORE_STOPPED)
    else if s.main == STORE_STOPPED then s.(main := RAW_CLOSED, front := f.(raw := Closed(f.raw)))
    else if s.main == RAW_CLOSED then s.(main := STORE_CLOSED, front := f.(sq := Closed(f.sq)))
    else if s.main == STORE_CLOSED then if f.col.ColDone? then s.(main := COLLECTOR_JOINED) else s
    else if s.main == COLLECTOR_JOINED then if f.proc.ProcDone? then s.(main := PROCESSOR_JOINED) else s
    else if s.main == PROCESSOR_JOINED then if s.back.pc.StoreDone? then s.(main := STORE_JOINED) else s
    else if s.main == STORE_JOINED then s.(main := UPLOADER_STOPPED)
    else if s.main == UPLOADER_STOPPED then if s.proto.net.pc.Done? then s.(main := UPLOADER_JOINED) else s
    else s
  }

  /** Which thread moves, and what its environment answers. */
  datatype Action = Signal | Main | Collect(sample: Sample) | Process | Store(ok: bool) | Upload(act: Act)

  ghost function Next(cfg: Config, s: State, a: Action): State {
    match a
    case Signal => s.(signalled := true)
    case Main => MainStep(s)
    case Collect(sample) => s.(front := CollectStep(s.front, s.signalled, sample))
    case Process => s.(front := ProcessStep(cfg, s.front, s.main >= PROCESSOR_STOPPED))
    case Store(ok) => StoreStep(cfg, s, ok)
    case Upload(act) => s.(proto := Step(cfg.up, s.main >= UPLOADER_STOPPED, s.proto, act))
  }

  ghost function Execution(cfg: Config, s: State, acts: seq<Action>): State
    decreases |acts|
  {
    if acts == [] then s else Next(cfg, Execution(cfg, s, acts[..|acts| - 1]), acts[|acts| - 1])
  }

  /** What the store thread can do to the parts it shares. */
  lemma StoreParts(cfg: Config, s: State, ok: bool)
    ensures
      var t := StoreStep(cfg, s, ok);
      t.signalled == s.signalled && t.main == s.main && t.front == s.front.(sq := t.front.sq) &&
      t.proto.net == s.proto.net && (t.front.sq == s.front.sq || t.front.sq == AfterPop(s.front.sq))
  {
  }
}
