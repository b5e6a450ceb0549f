/** Where every sample is, and in which order samples arrive: conservation and order over every
    interleaving of the threads. */
module Flow {
  import opened Samples
  import opened Tables
  import opened Queues
  import opened Sequences
  import opened UploadProtocol
  import opened Pipeline

  function ColHeld(pc: ColPc): seq<Item> {
    match pc
    case ColPush(item) => [item]
    case _ => []
  }

  function ProcHeld(pc: ProcPc): seq<Item> {
    match pc
    case ProcPush(item) => [item]
    case _ => []
  }

  function StoreHeld(pc: StorePc): seq<Item> {
    match pc
    case Insert(item, _) => [item]
    case _ => []
  }

  function TagAll(tag: Sample -> Sample, items: seq<Item>): (r: seq<Item>)
    ensures |r| == |items|
    decreases |items|
  {
    if items == [] then []
    else TagAll(tag, items[..|items| - 1]) + [TagItem(tag, items[|items| - 1])]
  }

  predicate Numbered(items: seq<Item>) {
    forall i :: 0 <= i < |items| ==> items[i].tag == i
  }

  /** A stage was handed exactly stream, in order: it offered all of it to its queue, which
      accepted or, once closed, rejected it, except for what the stage still holds. */
  predicate Offered(stream: seq<Item>, q: Queue<Item>, held: seq<Item>) {
    Consistent(q) && q.accepted + q.rejected + held == stream
  }

  /** What the store thread took out of store_queue it wrote, failed to write, or holds. */
  predicate StoredOk(popped: seq<Item>, b: Back) {
    if b.pc.Insert? then
      popped != [] && popped[|popped| - 1] == b.pc.item && Interleaving(b.written, b.failed, popped[..|popped| - 1])
    else Interleaving(b.written, b.failed, popped)
  }

  /** The collector offers what it collects, the processor what it pops, tagged, and the store
      thread writes what it pops. */
  predicate FlowInv(cfg: Config, s: State) {
    var f := s.front;
    Numbered(f.collected) && Offered(f.collected, f.raw, ColHeld(f.col)) &&
    Offered(TagAll(cfg.tag, f.raw.popped), f.sq, ProcHeld(f.proc)) && StoredOk(f.sq.popped, s.back)
  }

  // ---------------------------------------------------------------------------------------
  // Every step keeps it
  // ---------------------------------------------------------------------------------------

  lemma MoveHeld<T>(a: seq<T>, r: seq<T>, x: T)
    ensures (a + [x]) + [] + [] == a + [] + [x]
    ensures a + (r + [x]) + [] == a + r + [x]
  {
  }

  /** Handing over what a thread holds: accepted if the queue is open, rejected if not. */
  lemma HandOver(stream: seq<Item>, q: Queue<Item>, x: Item)
    requires Offered(stream, q, [x])
    ensures Offered(stream, Pushed(q, x), []) && Pushed(q, x).popped == q.popped
  {
    ApplyConsistent(q, DoPush(x));
    MoveHeld(q.accepted, q.rejected, x);
  }

  lemma TakeOut(stream: seq<Item>, q: Queue<Item>, held: seq<Item>)
    requires Offered(stream, q, held)
    ensures Offered(stream, AfterPop(q), held)
  {
    ApplyConsistent(q, DoPop);
  }

  lemma Close(stream: seq<Item>, q: Queue<Item>, held: seq<Item>)
    requires Offered(stream, q, held)
    ensures Offered(stream, Closed(q), held)
  {
    ApplyConsistent(q, DoShutdown);
  }

  lemma TakeIn(stream: seq<Item>, q: Queue<Item>, x: Item)
    requires Offered(stream, q, [])
    ensures Offered(stream + [x], q, [x])
  {
    assert (q.accepted + q.rejected + []) + [x] == q.accepted + q.rejected + [x];
  }

  lemma NumberedSnoc(items: seq<Item>, sample: Sample)
    requires Numbered(items)
    ensures Numbered(items + [Item(|items|, sample)])
  {
  }

  lemma ColPushKeeps(cfg: Config, s: State)
    requires FlowInv(cfg, s) && s.front.col.ColPush?
    ensures FlowInv(cfg, s.(front := s.front.(raw := Pushed(s.front.raw, s.front.col.item), col := ColCheck)))
  {
    HandOver(s.front.collected, s.front.raw, s.front.col.item);
  }

  lemma ColTakeKeeps(cfg: Config, s: State, item: Item)
    requires FlowInv(cfg, s) && s.front.col.ColCheck? && item.tag == |s.front.collected|
    ensures FlowInv(cfg, s.(front := s.front.(collected := s.front.collected + [item], col := ColPush(item))))
  {
    NumberedSnoc(s.front.collected, item.sample);
    TakeIn(s.front.collected, s.front.raw, item);
  }

  lemma CollectKeeps(cfg: Config, s: State, stop: bool, sample: Sample)
    requires FlowInv(cfg, s)
    ensures FlowInv(cfg, s.(front := CollectStep(s.front, stop, sample)))
  {
    if s.front.col.ColPush? {
      ColPushKeeps(cfg, s);
    } else if s.front.col.ColCheck? && !stop {
      ColTakeKeeps(cfg, s, Item(|s.front.collected|, sample));
    } else {
      assert CollectStep(s.front, stop, sample) == s.front.(col := ColDone);
    }
  }

  lemma TagAllSnoc(tag: Sample -> Sample, items: seq<Item>, item: Item)
    ensures TagAll(tag, items + [item]) == TagAll(tag, items) + [TagItem(tag, item)]
  {
    assert (items + [item])[..|items|] == items;
  }

  lemma ProcPopKeeps(cfg: Config, s: State)
    requires FlowInv(cfg, s) && s.front.proc.ProcPop? && s.front.raw.items != []
    ensures FlowInv(cfg, s.(front := ProcessStep(cfg, s.front, false)))
  {
    var f := s.front;
    var item := f.raw.items[0];
    TakeOut(f.collected, f.raw, ColHeld(f.col));
    TagAllSnoc(cfg.tag, f.raw.popped, item);
    TakeIn(TagAll(cfg.tag, f.raw.popped), f.sq, TagItem(cfg.tag, item));
  }

  lemma ProcPushKeeps(cfg: Config, s: State)
    requires FlowInv(cfg, s) && s.front.proc.ProcPush?
    ensures FlowInv(cfg, s.(front := ProcessStep(cfg, s.front, false)))
  {
    HandOver(TagAll(cfg.tag, s.front.raw.popped), s.front.sq, s.front.proc.item);
  }

  lemma ProcessKeeps(cfg: Config, s: State, stop: bool)
    requires FlowInv(cfg, s)
    ensures FlowInv(cfg, s.(front := ProcessStep(cfg, s.front, stop)))
  {
    var f := s.front;
    if f.proc.ProcPush? {
      ProcPushKeeps(cfg, s);
    } else if f.proc.ProcPop? && f.raw.items != [] {
      ProcPopKeeps(cfg, s);
    } else {
      assert ProcessStep(cfg, f, stop) == f.(proc := ProcessStep(cfg, f, stop).proc);
    }
  }

  lemma StoredMore(popped: seq<Item>, x: Item, b: Back, drain: bool)
    requires StoredOk(popped, b) && !b.pc.Insert?
    ensures StoredOk(popped + [x], b.(pc := Insert(x, drain)))
  {
    assert (popped + [x])[..|popped|] == popped;
  }

  lemma PopKeeps(cfg: Config, s: State, drain: bool)
    requires FlowInv(cfg, s) && (s.back.pc.StorePop? || s.back.pc.DrainPop?)
    ensures FlowInv(cfg, PopStep(s, drain))
  {
    var f, q := s.front, s.front.sq;
    if q.items != [] {
      TakeOut(TagAll(cfg.tag, f.raw.popped), q, ProcHeld(f.proc));
      StoredMore(q.popped, q.items[0], s.back, drain);
    }
  }

  lemma StoredWritten(popped: seq<Item>, b: Back, next: Back)
    requires StoredOk(popped, b) && b.pc.Insert? && !next.pc.Insert?
    requires
      (next.written == b.written + [b.pc.item] && next.failed == b.failed) ||
      (next.written == b.written && next.failed == b.failed + [b.pc.item])
    ensures StoredOk(popped, next)
  {
    var before := popped[..|popped| - 1];
    InterleavingSnoc(b.written, b.failed, before, b.pc.item);
    assert popped == before + [b.pc.item];
  }

  lemma QuietStore(cfg: Config, s: State, ok: bool)
    requires !s.back.pc.StorePop? && !s.back.pc.DrainPop? && !s.back.pc.Insert?
    ensures
      var t := StoreStep(cfg, s, ok);
      t.front == s.front && t.back.written == s.back.written && t.back.failed == s.back.failed && !t.back.pc.Insert?
  {
  }

  lemma InsertKeeps(cfg: Config, s: State, ok: bool)
    requires FlowInv(cfg, s) && s.back.pc.Insert?
    ensures FlowInv(cfg, InsertStep(cfg, s, ok))
  {
    StoredWritten(s.front.sq.popped, s.back, InsertStep(cfg, s, ok).back);
  }

  lemma StoreKeeps(cfg: Config, s: State, ok: bool)
    requires FlowInv(cfg, s)
    ensures FlowInv(cfg, StoreStep(cfg, s, ok))
  {
    if s.back.pc.StorePop? || s.back.pc.DrainPop? {
      PopKeeps(cfg, s, s.back.pc.DrainPop?);
    } else if s.back.pc.Insert? {
      InsertKeeps(cfg, s, ok);
    } else {
      QuietStore(cfg, s, ok);
    }
  }

  lemma CloseRawKeeps(cfg: Config, s: State, t: State)
    requires FlowInv(cfg, s) && t.front == s.front.(raw := Closed(s.front.raw)) && t.back == s.back
    ensures FlowInv(cfg, t)
  {
    Close(s.front.collected, s.front.raw, ColHeld(s.front.col));
  }

  lemma CloseStoreKeeps(cfg: Config, s: State, t: State)
    requires FlowInv(cfg, s) && t.front == s.front.(sq := Closed(s.front.sq)) && t.back == s.back
    ensures FlowInv(cfg, t)
  {
    Close(TagAll(cfg.tag, s.front.raw.popped), s.front.sq, ProcHeld(s.front.proc));
  }

  lemma MainKeeps(cfg: Config, s: State)
    requires FlowInv(cfg, s)
    ensures FlowInv(cfg, MainStep(s))
  {
    var t := MainStep(s);
    if s.main == STORE_STOPPED {
      CloseRawKeeps(cfg, s, t);
    } else if s.main == RAW_CLOSED {
      CloseStoreKeeps(cfg, s, t);
    } else {
      MainLeaves(s);
      SameParts(cfg, s, t);
    }
  }

  /** Outside its two closings main moves nothing that the threads see. */
  lemma MainLeaves(s: State)
    requires s.main != STORE_STOPPED && s.main != RAW_CLOSED
    ensures MainStep(s).front == s.front && MainStep(s).back == s.back
  {
  }

  lemma SameParts(cfg: Config, s: State, t: State)
    requires FlowInv(cfg, s) && t.front == s.front && t.back == s.back
    ensures FlowInv(cfg, t)
  {
  }

  lemma NextKeeps(cfg: Config, s: State, a: Action)
    requires FlowInv(cfg, s)
    ensures FlowInv(cfg, Next(cfg, s, a))
  {
    match a
    case Main => MainKeeps(cfg, s);
    case Collect(sample) => CollectKeeps(cfg, s, s.signalled, sample);
    case Process => ProcessKeeps(cfg, s, s.main >= PROCESSOR_STOPPED);
    case Store(ok) => StoreKeeps(cfg, s, ok);
    case _ =>
  }

  // ---------------------------------------------------------------------------------------
  // Conservation
  // ---------------------------------------------------------------------------------------

  /** From the start of the program, whatever the threads do. */
  lemma {:induction false} RunKeeps(cfg: Config, s: State, acts: seq<Action>)
    requires FlowInv(cfg, s)
    ensures FlowInv(cfg, Execution(cfg, s, acts))
    decreases |acts|
  {
    if acts != [] {
      RunKeeps(cfg, s, acts[..|acts| - 1]);
      NextKeeps(cfg, Execution(cfg, s, acts[..|acts| - 1]), acts[|acts| - 1]);
    }
  }

  // ---------------------------------------------------------------------------------------
  // What is overwritten
  // ---------------------------------------------------------------------------------------

  /** The collector is about to push into an open and full raw_queue. */
  predicate RawOverflows(s: State, a: Action) {
    a.Collect? && s.front.col.ColPush? && !s.front.raw.shutdown && |s.front.raw.items| == s.front.raw.capacity
  }

  /** The processor is about to push into an open and full store_queue. */
  predicate StoreOverflows(s: State, a: Action) {
    a.Process? && s.front.proc.ProcPush? && !s.front.sq.shutdown && |s.front.sq.items| == s.front.sq.capacity
  }

  predicate SameCapacity(f: Front, g: Front) {
    g.raw.capacity == f.raw.capacity && g.sq.capacity == f.sq.capacity
  }

  lemma FrontOverwrites(cfg: Config, s: State, a: Action)
    requires FlowInv(cfg, s) && (a.Collect? || a.Process?)
    ensures
      var f, g := s.front, Next(cfg, s, a).front;
      |g.raw.overwritten| == |f.raw.overwritten| + (if RawOverflows(s, a) then 1 else 0) &&
      |g.sq.overwritten| == |f.sq.overwritten| + (if StoreOverflows(s, a) then 1 else 0) && SameCapacity(f, g)
  {
    var f := s.front;
    if a.Collect? && f.col.ColPush? {
      OnlyPushOverwrites(f.raw, DoPush(f.col.item));
    } else if a.Process? && f.proc.ProcPush? {
      OnlyPushOverwrites(f.sq, DoPush(f.proc.item));
    } else {
      OnlyPushOverwrites(f.raw, DoPop);
    }
  }

  lemma OthersOverwrite(cfg: Config, s: State, a: Action)
    requires !a.Collect? && !a.Process?
    ensures
      var f, g := s.front, Next(cfg, s, a).front;
      g.raw.overwritten == f.raw.overwritten && g.sq.overwritten == f.sq.overwritten && SameCapacity(f, g)
  {
    if a.Store? {
      StoreParts(cfg, s, a.ok);
    }
  }

  /** In how many steps of a run a thread pushed into a queue that was open and full. */
  ghost function RawOverflowed(cfg: Config, s: State, acts: seq<Action>): nat
    decreases |acts|
  {
    if acts == [] then 0
    else
      var init := acts[..|acts| - 1];
      RawOverflowed(cfg, s, init) + if RawOverflows(Execution(cfg, s, init), acts[|acts| - 1]) then 1 else 0
  }

  ghost function StoreOverflowed(cfg: Config, s: State, acts: seq<Action>): nat
    decreases |acts|
  {
    if acts == [] then 0
    else
      var init := acts[..|acts| - 1];
      StoreOverflowed(cfg, s, init) + if StoreOverflows(Execution(cfg, s, init), acts[|acts| - 1]) then 1 else 0
  }

  /** Exactly the pushes that find their queue open and full overwrite a sample, one each: as long
      as the queues have room, none is lost on the way. */
  lemma {:induction false} OverwrittenExactly(cfg: Config, s: State, acts: seq<Action>)
    requires FlowInv(cfg, s)
    ensures
      var f, g := s.front, Execution(cfg, s, acts).front;
      |g.raw.overwritten| == |f.raw.overwritten| + RawOverflowed(cfg, s, acts) &&
      |g.sq.overwritten| == |f.sq.overwritten| + StoreOverflowed(cfg, s, acts) && SameCapacity(f, g)
    decreases |acts|
  {
    if acts != [] {
      var init, a := acts[..|acts| - 1], acts[|acts| - 1];
      OverwrittenExactly(cfg, s, init);
      RunKeeps(cfg, s, init);
      if a.Collect? || a.Process? {
        FrontOverwrites(cfg, Execution(cfg, s, init), a);
      } else {
        OthersOverwrite(cfg, Execution(cfg, s, init), a);
      }
    }
  }

  lemma EmptyOffered(capacity: nat)
    requires capacity > 0
    ensures Offered([], Empty(capacity), [])
  {
    var q: Queue<Item> := Empty(capacity);
    assert Interleaving(q.popped, q.overwritten, q.accepted[..0]);
  }

  lemma InitFlow(cfg: Config, db: Table<Item>, hist: map<nat, Item>, rawCapacity: nat, storeCapacity: nat)
    requires rawCapacity > 0 && storeCapacity > 0
    ensures FlowInv(cfg, Init(db, hist, rawCapacity, storeCapacity))
  {
    EmptyOffered(rawCapacity);
    EmptyOffered(storeCapacity);
  }

  /** How often a tag occurs. */
  function Times(items: seq<Item>, tag: nat): nat
    decreases |items|
  {
    if items == [] then 0
    else Times(items[..|items| - 1], tag) + if items[|items| - 1].tag == tag then 1 else 0
  }

  lemma {:induction false} TimesAppend(a: seq<Item>, b: seq<Item>, tag: nat)
    ensures Times(a + b, tag) == Times(a, tag) + Times(b, tag)
    decreases |b|
  {
    if b == [] {
      assert a + b == a;
    } else {
      assert (a + b)[..|a + b| - 1] == a + b[..|b| - 1];
      TimesAppend(a, b[..|b| - 1], tag);
    }
  }

  lemma {:induction false} TimesInterleaving(p: seq<Item>, o: seq<Item>, w: seq<Item>, tag: nat)
    requires Interleaving(p, o, w)
    ensures Times(w, tag) == Times(p, tag) + Times(o, tag) && |w| == |p| + |o|
    decreases |w|
  {
    if w != [] {
      var x, v := w[|w| - 1], w[..|w| - 1];
      if p != [] && p[|p| - 1] == x && Interleaving(p[..|p| - 1], o, v) {
        TimesInterleaving(p[..|p| - 1], o, v, tag);
      } else {
        TimesInterleaving(p, o[..|o| - 1], v, tag);
      }
    }
  }

  lemma {:induction false} TimesTagged(f: Sample -> Sample, items: seq<Item>, tag: nat)
    ensures Times(TagAll(f, items), tag) == Times(items, tag)
    decreases |items|
  {
    if items != [] {
      TimesTagged(f, items[..|items| - 1], tag);
    }
  }

  lemma {:induction false} TimesNumbered(items: seq<Item>, tag: nat)
    requires Numbered(items)
    ensures Times(items, tag) == if tag < |items| then 1 else 0
    decreases |items|
  {
    if items != [] {
      TimesNumbered(items[..|items| - 1], tag);
    }
  }

  lemma TimesAccepted(q: Queue<Item>, tag: nat)
    requires Consistent(q)
    ensures Times(q.accepted, tag) == Times(q.popped, tag) + Times(q.overwritten, tag) + Times(q.items, tag)
  {
    var n := |q.popped| + |q.overwritten|;
    TimesInterleaving(q.popped, q.overwritten, q.accepted[..n], tag);
    TimesAppend(q.accepted[..n], q.accepted[n..], tag);
    assert q.accepted == q.accepted[..n] + q.accepted[n..];
  }

  /** Everything offered to a queue is held back, rejected, overwritten, waiting or popped. */
  lemma TimesOffered(stream: seq<Item>, q: Queue<Item>, held: seq<Item>, tag: nat)
    requires Offered(stream, q, held)
    ensures Times(stream, tag) ==
      Times(held, tag) + Times(q.rejected, tag) + Times(q.overwritten, tag) + Times(q.items, tag) + Times(q.popped, tag)
    ensures |stream| == |held| + |q.rejected| + |q.overwritten| + |q.items| + |q.popped|
  {
    TimesAppend(q.accepted + q.rejected, held, tag);
    TimesAppend(q.accepted, q.rejected, tag);
    TimesAccepted(q, tag);
  }

  lemma TimesStored(popped: seq<Item>, b: Back, tag: nat)
    requires StoredOk(popped, b)
    ensures Times(popped, tag) == Times(StoreHeld(b.pc), tag) + Times(b.written, tag) + Times(b.failed, tag)
    ensures |popped| == |StoreHeld(b.pc)| + |b.written| + |b.failed|
  {
    if b.pc.Insert? {
      TimesInterleaving(b.written, b.failed, popped[..|popped| - 1], tag);
      assert [b.pc.item][..0] == [];
    } else {
      TimesInterleaving(b.written, b.failed, popped, tag);
    }
  }

  /** In every reachable state every sample collected is in exactly one place: rejected by,
      overwritten in or waiting in one of the two queues, in the hands of one of three threads,
      written, or failed to be written. */
  lemma InExactlyOnePlace(cfg: Config, s: State, tag: nat)
    requires FlowInv(cfg, s)
    ensures
      var f, b := s.front, s.back;
      Times(ColHeld(f.col), tag) + Times(f.raw.rejected, tag) + Times(f.raw.overwritten, tag) +
      Times(f.raw.items, tag) + Times(ProcHeld(f.proc), tag) + Times(f.sq.rejected, tag) +
      Times(f.sq.overwritten, tag) + Times(f.sq.items, tag) + Times(StoreHeld(b.pc), tag) +
      Times(b.written, tag) + Times(b.failed, tag)
      == if tag < |f.collected| then 1 else 0
  {
    var f := s.front;
    TimesNumbered(f.collected, tag);
    TimesOffered(f.collected, f.raw, ColHeld(f.col), tag);
    TimesTagged(cfg.tag, f.raw.popped, tag);
    TimesOffered(TagAll(cfg.tag, f.raw.popped), f.sq, ProcHeld(f.proc), tag);
    TimesStored(f.sq.popped, s.back, tag);
  }

  /** The same as a sum of counts: nothing is lost without one of the counters saying so. */
  lemma Conservation(cfg: Config, s: State)
    requires FlowInv(cfg, s)
    ensures
      var f, b := s.front, s.back;
      |f.collected| ==
        |ColHeld(f.col)| + |f.raw.rejected| + |f.raw.overwritten| + |f.raw.items| +
        |ProcHeld(f.proc)| + |f.sq.rejected| + |f.sq.overwritten| + |f.sq.items| +
        |StoreHeld(b.pc)| + |b.written| + |b.failed|
  {
    var f := s.front;
    TimesOffered(f.collected, f.raw, ColHeld(f.col), 0);
    TimesOffered(TagAll(cfg.tag, f.raw.popped), f.sq, ProcHeld(f.proc), 0);
    TimesStored(f.sq.popped, s.back, 0);
  }

  // ---------------------------------------------------------------------------------------
  // Order
  // ---------------------------------------------------------------------------------------

  lemma {:induction false} InterleavingSub<T>(p: seq<T>, o: seq<T>, w: seq<T>)
    requires Interleaving(p, o, w)
    ensures Sub(p, w)
    decreases |w|
  {
    if w != [] {
      var x, v := w[|w| - 1], w[..|w| - 1];
      if p != [] && p[|p| - 1] == x && Interleaving(p[..|p| - 1], o, v) {
        InterleavingSub(p[..|p| - 1], o, v);
      } else {
        InterleavingSub(p, o[..|o| - 1], v);
      }
    }
  }

  lemma InterleavingSubOf<T>(p: seq<T>, o: seq<T>, w: seq<T>, n: nat)
    requires n <= |w| && Interleaving(p, o, w[..n])
    ensures Sub(p, w)
  {
    InterleavingSub(p, o, w[..n]);
    SubOfPrefix(w, n);
    SubTransitive(p, w[..n], w);
  }

  /** What leaves a queue through pop is a subsequence of what was offered to it. */
  lemma PoppedSub(stream: seq<Item>, q: Queue<Item>, held: seq<Item>)
    requires Offered(stream, q, held)
    ensures Sub(q.popped, stream)
  {
    InterleavingSubOf(q.popped, q.overwritten, q.accepted, |q.popped| + |q.overwritten|);
    SubOfPrefix(stream, |q.accepted|);
    assert stream[..|q.accepted|] == q.accepted;
    SubTransitive(q.popped, q.accepted, stream);
  }

  lemma {:induction false} TagAllSub(f: Sample -> Sample, a: seq<Item>, b: seq<Item>)
    requires Sub(a, b)
    ensures Sub(TagAll(f, a), TagAll(f, b))
    decreases |b|
  {
    if b != [] {
      var init := b[..|b| - 1];
      var y := TagItem(f, b[|b| - 1]);
      if Sub(a, init) {
        TagAllSub(f, a, init);
        SubSnoc(TagAll(f, a), TagAll(f, init), y);
      } else {
        TagAllSub(f, a[..|a| - 1], init);
        SubSnoc(TagAll(f, a[..|a| - 1]), TagAll(f, init), y);
      }
    }
  }

  lemma StoredSub(popped: seq<Item>, b: Back)
    requires StoredOk(popped, b)
    ensures Sub(b.written, popped)
  {
    if b.pc.Insert? {
      InterleavingSubOf(b.written, b.failed, popped, |popped| - 1);
    } else {
      InterleavingSub(b.written, b.failed, popped);
    }
  }

  /** What is written is a subsequence of what was collected, each sample tagged once. */
  lemma WrittenSub(cfg: Config, s: State)
    requires FlowInv(cfg, s)
    ensures Sub(s.back.written, TagAll(cfg.tag, s.front.collected))
  {
    var f, b := s.front, s.back;
    var tagged := TagAll(cfg.tag, f.raw.popped);
    StoredSub(f.sq.popped, b);
    PoppedSub(tagged, f.sq, ProcHeld(f.proc));
    SubTransitive(b.written, f.sq.popped, tagged);
    PoppedSub(f.collected, f.raw, ColHeld(f.col));
    TagAllSub(cfg.tag, f.raw.popped, f.collected);
    SubTransitive(b.written, tagged, TagAll(cfg.tag, f.collected));
  }

  /** Tags rise, and each names the collected sample it was made from. */
  predicate InOrder(f: Sample -> Sample, items: seq<Item>, collected: seq<Item>) {
    (forall i, j :: 0 <= i < j < |items| ==> items[i].tag < items[j].tag) &&
    (forall i :: 0 <= i < |items| ==>
      items[i].tag < |collected| && items[i].sample == f(collected[items[i].tag].sample))
  }

  lemma InOrderSnoc(f: Sample -> Sample, items: seq<Item>, collected: seq<Item>, x: Item)
    requires InOrder(f, items, collected) && collected != [] && x.tag == |collected| - 1
    requires x.sample == f(collected[x.tag].sample) && forall i :: 0 <= i < |items| ==> items[i].tag < x.tag
    ensures InOrder(f, items + [x], collected)
  {
  }

  lemma InOrderMore(f: Sample -> Sample, items: seq<Item>, collected: seq<Item>)
    requires collected != [] && InOrder(f, items, collected[..|collected| - 1])
    ensures InOrder(f, items, collected)
  {
  }

  lemma {:induction false} SubInOrder(f: Sample -> Sample, items: seq<Item>, collected: seq<Item>)
    requires Numbered(collected) && Sub(items, TagAll(f, collected))
    ensures InOrder(f, items, collected)
    decreases |collected|
  {
    if collected != [] {
      var init := collected[..|collected| - 1];
      assert TagAll(f, collected)[..|collected| - 1] == TagAll(f, init);
      if Sub(items, TagAll(f, init)) {
        SubInOrder(f, items, init);
        InOrderMore(f, items, collected);
      } else {
        var front := items[..|items| - 1];
        SubInOrder(f, front, init);
        InOrderMore(f, front, collected);
        InOrderSnoc(f, front, collected, items[|items| - 1]);
        assert items == front + [items[|items| - 1]];
      }
    }
  }

  /** The rows written are samples that were collected, in the order of collection, none twice,
      changed only by the processor's tagging. */
  lemma WrittenInOrder(cfg: Config, s: State)
    requires FlowInv(cfg, s)
    ensures InOrder(cfg.tag, s.back.written, s.front.collected)
  {
    WrittenSub(cfg, s);
    SubInOrder(cfg.tag, s.back.written, s.front.collected);
  }
}
