/** The bounded queue between the threads (app/src/sample_queue.c): a ring buffer that overwrites
    its oldest entry when a push finds it full. The members are the sections that run with the
    mutex held once waiting is over; a timed wait may end at any moment, so a section can start in
    any state. */
module Queues {
  import opened Options

  /** A queue with its whole past: every entry ever offered is in exactly one of the sequences
      rejected and accepted, and every accepted one in exactly one of popped, overwritten, items. */
  datatype Queue<T> = Queue(
    capacity: nat,
    items: seq<T>,
    shutdown: bool,
    accepted: seq<T>,
    popped: seq<T>,
    overwritten: seq<T>,
    rejected: seq<T>)

  function Empty<T>(capacity: nat): Queue<T> {
    Queue(capacity, [], false, [], [], [], [])
  }

  function Pushed<T>(q: Queue<T>, x: T): Queue<T>
    requires q.capacity > 0
  {
    if q.shutdown then q.(rejected := q.rejected + [x])
    else if |q.items| >= q.capacity then
      q.(items := q.items[1..] + [x], accepted := q.accepted + [x], overwritten := q.overwritten + [q.items[0]])
    else
      q.(items := q.items + [x], accepted := q.accepted + [x])
  }

  function AfterPop<T>(q: Queue<T>): Queue<T> {
    if q.items == [] then q
    else q.(items := q.items[1..], popped := q.popped + [q.items[0]])
  }

  function Closed<T>(q: Queue<T>): Queue<T> {
    q.(shutdown := true)
  }

  // ---------------------------------------------------------------------------------------
  // Slots modulo the capacity
  // ---------------------------------------------------------------------------------------

  function Slot(tail: nat, i: nat, c: nat): nat
    requires c > 0
  {
    (tail + i) % c
  }

  lemma Wrapped(a: nat, c: nat)
    requires 0 < c && a < 2 * c
    ensures a % c == if a < c then a else a - c
  {
    var q := a / c;
    assert a == c * q + a % c;
    if q >= 2 {
      AtLeastTwice(c, q);
      assert false;
    }
  }

  lemma AtLeastTwice(c: nat, q: nat)
    requires q >= 2
    ensures c * q >= 2 * c
  {
  }

  lemma SlotIs(tail: nat, i: nat, c: nat)
    requires tail < c && i <= c
    ensures Slot(tail, i, c) == if tail + i < c then tail + i else tail + i - c
  {
    Wrapped(tail + i, c);
  }

  lemma SlotsDistinct(tail: nat, i: nat, j: nat, c: nat)
    requires tail < c && i < j < c
    ensures Slot(tail, i, c) != Slot(tail, j, c)
  {
    SlotIs(tail, i, c);
    SlotIs(tail, j, c);
  }

  lemma SlotNext(tail: nat, count: nat, c: nat)
    requires tail < c && count < c
    ensures (Slot(tail, count, c) + 1) % c == Slot(tail, count + 1, c)
  {
    SlotIs(tail, count, c);
    SlotIs(tail, count + 1, c);
    Wrapped(Slot(tail, count, c) + 1, c);
  }

  lemma SlotShift(tail: nat, i: nat, c: nat)
    requires tail < c && i < c
    ensures (tail + 1) % c < c
    ensures Slot((tail + 1) % c, i, c) == Slot(tail, i + 1, c)
  {
    Wrapped(tail + 1, c);
    SlotIs((tail + 1) % c, i, c);
    SlotIs(tail, i + 1, c);
  }

  class Ring<T(0)> {
    const capacity: nat
    const samples: array<T>
    var head: nat
    var tail: nat
    var count: nat
    var shutdown: bool
    var overflowCount: nat
    var pushCount: nat
    var popCount: nat
    ghost var model: Queue<T>

    ghost predicate Valid()
      reads this, samples
    {
      samples.Length == capacity > 0 && tail < capacity && count <= capacity &&
      head == Slot(tail, count, capacity) &&
      model.capacity == capacity && model.shutdown == shutdown &&
      pushCount == |model.accepted| && popCount == |model.popped| && overflowCount == |model.overwritten| &&
      |model.items| == count &&
      forall i :: 0 <= i < count ==> model.items[i] == samples[Slot(tail, i, capacity)]
    }

    constructor (capacity: nat)
      requires capacity > 0
      ensures Valid() && fresh(samples) && model == Empty(capacity)
    {
      this.capacity := capacity;
      samples := new T[capacity];
      head, tail, count := 0, 0, 0;
      shutdown := false;
      overflowCount, pushCount, popCount := 0, 0, 0;
      model := Empty(capacity);
    }

    method Push(sample: T) returns (ret: int)
      requires Valid()
      modifies this, samples
      ensures Valid() && model == Pushed(old(model), sample)
      ensures ret == if old(shutdown) then -1 else 0
      ensures shutdown == old(shutdown) && popCount == old(popCount)
      ensures old(shutdown) ==>
        model.items == old(model.items) && pushCount == old(pushCount) && overflowCount == old(overflowCount)
      ensures !old(shutdown) && old(count) < capacity ==>
        model.items == old(model.items) + [sample] && pushCount == old(pushCount) + 1 &&
        overflowCount == old(overflowCount)
      ensures !old(shutdown) && old(count) == capacity ==>
        model.items == old(model.items)[1..] + [sample] && pushCount == old(pushCount) + 1 &&
        overflowCount == old(overflowCount) + 1 && count == capacity
    {
      if shutdown {
        model := model.(rejected := model.rejected + [sample]);
        return -1;
      }
      if count >= capacity {
        DropOldest();
        overflowCount := overflowCount + 1;
        model := model.(overwritten := model.overwritten + [old(model.items[0])]);
      }
      forall i | 0 <= i < count
        ensures Slot(tail, i, capacity) != head
      {
        SlotsDistinct(tail, i, count, capacity);
      }
      samples[head] := sample;
      SlotNext(tail, count, capacity);
      head := (head + 1) % capacity;
      count := count + 1;
      pushCount := pushCount + 1;
      model := model.(items := model.items + [sample], accepted := model.accepted + [sample]);
      return 0;
    }

    /** Both overwriting and popping move the tail over the oldest entry. */
    method DropOldest()
      requires Valid() && count > 0
      modifies this`tail, this`count, this`model
      ensures Valid() && model == old(model).(items := old(model).items[1..])
      ensures count == old(count) - 1
    {
      var next := (tail + 1) % capacity;
      forall i | 0 <= i < count - 1
        ensures model.items[1..][i] == samples[Slot(next, i, capacity)]
      {
        SlotShift(tail, i, capacity);
        assert model.items[i + 1] == samples[Slot(tail, i + 1, capacity)];
      }
      SlotShift(tail, count - 1, capacity);
      tail := next;
      count := count - 1;
      model := model.(items := model.items[1..]);
    }

    /** expired says that a wait for an entry ended by its timeout: then the pop fails without
        looking at the count again, even if an entry has arrived in the meantime. */
    method Pop(expired: bool) returns (sample: Option<T>)
      requires Valid()
      modifies this
      ensures Valid() && model == if expired then old(model) else AfterPop(old(model))
      ensures sample == if expired || old(model).items == [] then None else Some(old(model).items[0])
      ensures sample.Some? ==> model.items == old(model).items[1..] && popCount == old(popCount) + 1
      ensures sample.None? ==> model == old(model) && popCount == old(popCount)
      ensures pushCount == old(pushCount) && overflowCount == old(overflowCount) && shutdown == old(shutdown)
    {
      if expired || count == 0 {
        return None;
      }
      SlotIs(tail, 0, capacity);
      sample := Some(samples[tail]);
      DropOldest();
      popCount := popCount + 1;
      model := model.(popped := model.popped + [old(model).items[0]]);
    }

    method Shutdown()
      requires Valid()
      modifies this
      ensures Valid() && model == Closed(old(model))
      ensures shutdown && model.items == old(model).items
      ensures pushCount == old(pushCount) && popCount == old(popCount) && overflowCount == old(overflowCount)
    {
      shutdown := true;
      model := model.(shutdown := true);
    }
  }

  // ---------------------------------------------------------------------------------------
  // Every run of the queue
  // ---------------------------------------------------------------------------------------

  /** w is p and o shuffled together, each in its own order. */
  predicate Interleaving<T(==)>(p: seq<T>, o: seq<T>, w: seq<T>)
    decreases |w|
  {
    if w == [] then p == [] && o == []
    else
      var x, v := w[|w| - 1], w[..|w| - 1];
      (p != [] && p[|p| - 1] == x && Interleaving(p[..|p| - 1], o, v)) ||
      (o != [] && o[|o| - 1] == x && Interleaving(p, o[..|o| - 1], v))
  }

  predicate Consistent<T(==)>(q: Queue<T>) {
    var removed := |q.popped| + |q.overwritten|;
    q.capacity > 0 && |q.items| <= q.capacity &&
    |q.accepted| == removed + |q.items| && q.items == q.accepted[removed..] &&
    Interleaving(q.popped, q.overwritten, q.accepted[..removed]) &&
    (q.rejected != [] ==> q.shutdown)
  }

  datatype Op<T> = DoPush(x: T) | DoPop | DoShutdown

  function Apply<T>(q: Queue<T>, op: Op<T>): (r: Queue<T>)
    requires q.capacity > 0
    ensures r.capacity == q.capacity
  {
    match op
    case DoPush(x) => Pushed(q, x)
    case DoPop => AfterPop(q)
    case DoShutdown => Closed(q)
  }

  function Run<T>(q: Queue<T>, ops: seq<Op<T>>): (r: Queue<T>)
    requires q.capacity > 0
    ensures r.capacity == q.capacity
    decreases |ops|
  {
    if ops == [] then q else Run(Apply(q, ops[0]), ops[1..])
  }

  lemma InterleavingSnoc<T>(p: seq<T>, o: seq<T>, w: seq<T>, x: T)
    requires Interleaving(p, o, w)
    ensures Interleaving(p + [x], o, w + [x])
    ensures Interleaving(p, o + [x], w + [x])
  {
    assert (w + [x])[..|w|] == w && (p + [x])[..|p|] == p && (o + [x])[..|o|] == o;
  }

  /** Taking the oldest entry out, through either exit. */
  lemma RemovalConsistent<T>(q: Queue<T>)
    requires Consistent(q) && q.items != []
    ensures Consistent(q.(items := q.items[1..], popped := q.popped + [q.items[0]]))
    ensures Consistent(q.(items := q.items[1..], overwritten := q.overwritten + [q.items[0]]))
  {
    var x := q.items[0];
    InterleavingSnoc(q.popped, q.overwritten, q.accepted[..|q.popped| + |q.overwritten|], x);
    Removed(q, q.(items := q.items[1..], popped := q.popped + [x]));
    Removed(q, q.(items := q.items[1..], overwritten := q.overwritten + [x]));
  }

  lemma Removed<T>(q: Queue<T>, r: Queue<T>)
    requires Consistent(q) && q.items != []
    requires r == q.(items := q.items[1..], popped := r.popped, overwritten := r.overwritten)
    requires |r.popped| + |r.overwritten| == |q.popped| + |q.overwritten| + 1
    requires Interleaving(r.popped, r.overwritten, q.accepted[..|q.popped| + |q.overwritten|] + [q.items[0]])
    ensures Consistent(r)
  {
    OldestNext(q.accepted, |q.popped| + |q.overwritten|);
  }

  lemma OldestNext<T>(accepted: seq<T>, n: nat)
    requires n < |accepted|
    ensures accepted[n..][0] == accepted[n]
    ensures accepted[..n + 1] == accepted[..n] + [accepted[n..][0]]
    ensures accepted[n..][1..] == accepted[n + 1..]
  {
  }

  lemma AdditionConsistent<T>(q: Queue<T>, x: T)
    requires Consistent(q) && |q.items| < q.capacity
    ensures Consistent(q.(items := q.items + [x], accepted := q.accepted + [x]))
  {
    var n := |q.popped| + |q.overwritten|;
    assert (q.accepted + [x])[..n] == q.accepted[..n];
    assert (q.accepted + [x])[n..] == q.items + [x];
  }

  lemma ApplyConsistent<T>(q: Queue<T>, op: Op<T>)
    requires Consistent(q)
    ensures Consistent(Apply(q, op))
  {
    match op
    case DoPush(x) =>
      if !q.shutdown {
        if |q.items| >= q.capacity {
          RemovalConsistent(q);
          AdditionConsistent(q.(items := q.items[1..], overwritten := q.overwritten + [q.items[0]]), x);
        } else {
          AdditionConsistent(q, x);
        }
      }
    case DoPop =>
      if q.items != [] {
        RemovalConsistent(q);
      }
    case DoShutdown =>
  }

  /** In every state any interleaving of pushes, pops and the shutdown can reach, the contents are
      the accepted pushes without their oldest pop_count + overflow_count entries, those went out
      in order through one of the two exits, and nothing is rejected before the shutdown. */
  lemma {:induction false} RunConsistent<T>(q: Queue<T>, ops: seq<Op<T>>)
    requires Consistent(q)
    ensures Consistent(Run(q, ops))
    decreases |ops|
  {
    if ops != [] {
      ApplyConsistent(q, ops[0]);
      RunConsistent(Apply(q, ops[0]), ops[1..]);
    }
  }

  /** A push overwrites if and only if it finds the queue open and full: then the oldest entry goes,
      and nothing else. Into an open queue with room it only adds its entry, and into a closed one it
      does not get. */
  lemma PushOverwrites<T>(q: Queue<T>, x: T)
    requires Consistent(q)
    ensures
      var r := Apply(q, DoPush(x));
      (r.overwritten != q.overwritten <==> !q.shutdown && |q.items| == q.capacity) &&
      (r.overwritten != q.overwritten ==>
        r.overwritten == q.overwritten + [q.items[0]] && r.items == q.items[1..] + [x] && |r.items| == q.capacity) &&
      (!q.shutdown && |q.items| < q.capacity ==> r.items == q.items + [x]) &&
      (q.shutdown ==> r.items == q.items) && r.popped == q.popped && r.shutdown == q.shutdown
  {
    assert |Pushed(q, x).overwritten| > |q.overwritten| || Pushed(q, x).overwritten == q.overwritten;
  }

  /** Of all operations only a push into an open, full queue overwrites. */
  lemma OnlyPushOverwrites<T>(q: Queue<T>, op: Op<T>)
    requires Consistent(q)
    ensures
      |Apply(q, op).overwritten| ==
      |q.overwritten| + if op.DoPush? && !q.shutdown && |q.items| == q.capacity then 1 else 0
  {
  }

  /** How many pushes of a run found the queue open and full. */
  function FullPushes<T>(q: Queue<T>, ops: seq<Op<T>>): nat
    requires q.capacity > 0
    decreases |ops|
  {
    if ops == [] then 0
    else
      (if ops[0].DoPush? && !q.shutdown && |q.items| == q.capacity then 1 else 0) +
      FullPushes(Apply(q, ops[0]), ops[1..])
  }

  /** A run overwrites exactly as many entries as there were pushes that found the queue open and
      full; in a queue that is never full nothing is lost. */
  lemma {:induction false} RunOverwrites<T>(q: Queue<T>, ops: seq<Op<T>>)
    requires Consistent(q)
    ensures |Run(q, ops).overwritten| == |q.overwritten| + FullPushes(q, ops)
    decreases |ops|
  {
    if ops != [] {
      ApplyConsistent(q, ops[0]);
      OnlyPushOverwrites(q, ops[0]);
      RunOverwrites(Apply(q, ops[0]), ops[1..]);
    }
  }

  function CountPops<T>(ops: seq<Op<T>>): nat
    decreases |ops|
  {
    if ops == [] then 0 else (if ops[0].DoPop? then 1 else 0) + CountPops(ops[1..])
  }

  /** How many of these pops find an entry, if nothing more comes in. */
  function Successes<T>(q: Queue<T>, ops: seq<Op<T>>): nat {
    if CountPops(ops) < |q.items| then CountPops(ops) else |q.items|
  }

  /** After the shutdown nothing enters, and pops hand out exactly what remained, in order, until
      they fail. */
  lemma {:induction false} DrainsAfterShutdown<T>(q: Queue<T>, ops: seq<Op<T>>)
    requires q.capacity > 0 && q.shutdown
    ensures
      var r := Run(q, ops);
      var n := Successes(q, ops);
      r.accepted == q.accepted && r.overwritten == q.overwritten &&
      r.popped == q.popped + q.items[..n] && r.items == q.items[n..]
    decreases |ops|
  {
    if ops != [] {
      var r := Apply(q, ops[0]);
      DrainsAfterShutdown(r, ops[1..]);
      if ops[0].DoPop? && q.items != [] {
        OneMore(q.popped, q.items, Successes(q, ops));
      }
    }
  }

  lemma OneMore<T>(p: seq<T>, items: seq<T>, n: nat)
    requires 0 < n <= |items|
    ensures p + items[..n] == (p + [items[0]]) + items[1..][..n - 1]
    ensures items[n..] == items[1..][n - 1..]
  {
  }
}
