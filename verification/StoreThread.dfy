/** The store thread's own loops (app/src/sqlite_store.c), run by themselves: one turn of the main
    loop, and the drain after shutdown. How they interleave with the other threads is the subject
    of Pipeline. */
module StoreThread {
  import opened Tables
  import opened Queues

  function InsertedAll<P>(t: Table<P>, ps: seq<P>): Table<P>
    decreases |ps|
  {
    if ps == [] then t else Inserted(InsertedAll(t, ps[..|ps| - 1]), ps[|ps| - 1])
  }

  lemma InsertedAllSnoc<P>(t: Table<P>, ps: seq<P>, p: P)
    ensures InsertedAll(t, ps + [p]) == Inserted(InsertedAll(t, ps), p)
  {
    assert (ps + [p])[..|ps|] == ps;
  }

  /** Ids go out in order, none twice, and rows already there stay. */
  lemma {:induction false} InsertedAllRows<P>(t: Table<P>, ps: seq<P>)
    requires Wellformed(t)
    ensures
      var r := InsertedAll(t, ps);
      Wellformed(r) && r.nextId == t.nextId + |ps| && |r.rows| == |t.rows| + |ps| &&
      (forall id :: id in t.rows ==> id in r.rows && r.rows[id] == t.rows[id])
    decreases |ps|
  {
    if ps != [] {
      InsertedAllRows(t, ps[..|ps| - 1]);
      InsertedOne(InsertedAll(t, ps[..|ps| - 1]), ps[|ps| - 1]);
    }
  }

  /** The i-th of the new rows carries the i-th sample written. */
  lemma {:induction false} InsertedAllAt<P>(t: Table<P>, ps: seq<P>, i: nat)
    requires Wellformed(t) && i < |ps|
    ensures
      var r := InsertedAll(t, ps);
      t.nextId + i in r.rows && r.rows[t.nextId + i] == Row(ps[i], false, 0)
    decreases |ps|
  {
    var init := ps[..|ps| - 1];
    InsertedAllRows(t, init);
    if i < |init| {
      InsertedAllAt(t, init, i);
    }
  }

  /** The queue, the table and the counters that the store thread works on. */
  datatype Books<T> = Books(queue: Queue<T>, db: Table<T>, counter: nat, written: nat, failed: nat)

  /** One turn of the main loop, from b to c: nothing if no sample came in time, else the oldest one
      is written, or counted as failed, and every hundredth turn trims. */
  predicate TurnDone<T(==)>(b: Books<T>, c: Books<T>, maxCount: int, expired: bool, accepted: bool, ran: Statements) {
    if expired || b.queue.items == [] then c == b
    else
      var t := if accepted then Inserted(b.db, b.queue.items[0]) else b.db;
      c.queue == AfterPop(b.queue) && c.counter == b.counter + 1 &&
      c.written == b.written + (if accepted then 1 else 0) && c.failed == b.failed + (if accepted then 0 else 1) &&
      c.db == if c.counter % 100 == 0 then TrimRan(t, maxCount, ran) else t
  }

  /** The drain, from b to c: every sample left is popped and written in order, unless its insert
      fails, and the table is trimmed once. */
  predicate DrainDone<T(==)>(b: Books<T>, c: Books<T>, maxCount: int, written: seq<T>, failed: seq<T>,
                             ran: Statements) {
    c.queue == b.queue.(items := [], popped := b.queue.popped + b.queue.items) &&
    Interleaving(written, failed, b.queue.items) && c.counter == b.counter + |b.queue.items| &&
    c.written == b.written + |written| && c.failed == b.failed + |failed| &&
    c.db == TrimRan(InsertedAll(b.db, written), maxCount, ran)
  }

  class Worker<T(0)> {
    const maxCacheCount: int
    var sampleCounter: nat
    var writeCount: nat
    var writeFailCount: nat

    constructor (maxCacheCount: int)
      ensures this.maxCacheCount == maxCacheCount && sampleCounter == 0 && writeCount == 0 && writeFailCount == 0
    {
      this.maxCacheCount := maxCacheCount;
      sampleCounter, writeCount, writeFailCount := 0, 0, 0;
    }

    ghost function BooksOf(queue: Ring<T>, db: Database<T>): Books<T>
      reads this, queue, db
    {
      Books(queue.model, db.Model(), sampleCounter, writeCount, writeFailCount)
    }

    /** Writes one sample; accepted says whether SQLite executes the insert. */
    method Write(sample: T, db: Database<T>, accepted: bool)
      modifies this, db
      ensures sampleCounter == old(sampleCounter) + 1
      ensures writeCount == old(writeCount) + (if accepted then 1 else 0)
      ensures writeFailCount == old(writeFailCount) + (if accepted then 0 else 1)
      ensures db.Model() == if accepted then Inserted(old(db.Model()), sample) else old(db.Model())
    {
      sampleCounter := sampleCounter + 1;
      var rc := db.Insert(sample, accepted);
      if rc == 0 {
        writeCount := writeCount + 1;
      } else {
        writeFailCount := writeFailCount + 1;
      }
    }

    method Turn(queue: Ring<T>, db: Database<T>, expired: bool, accepted: bool, ran: Statements)
      requires queue.Valid()
      modifies this, db, queue
      ensures queue.Valid()
      ensures TurnDone(old(BooksOf(queue, db)), BooksOf(queue, db), maxCacheCount, expired, accepted, ran)
    {
      var sample := queue.Pop(expired);
      if sample.None? {
        return;
      }
      Write(sample.value, db, accepted);
      if maxCacheCount > 0 && sampleCounter % 100 == 0 {
        var rc := db.TrimCache(maxCacheCount, ran);
      }
    }

    /** One turn of the drain. */
    method WriteNext(queue: Ring<T>, db: Database<T>) returns (accepted: bool)
      requires queue.Valid() && queue.count > 0
      modifies this, db, queue
      ensures queue.Valid() && old(queue.model).items != [] && queue.model == AfterPop(old(queue.model))
      ensures sampleCounter == old(sampleCounter) + 1
      ensures writeCount == old(writeCount) + (if accepted then 1 else 0)
      ensures writeFailCount == old(writeFailCount) + (if accepted then 0 else 1)
      ensures db.Model() == if accepted then Inserted(old(db.Model()), old(queue.model).items[0]) else old(db.Model())
    {
      var sample := queue.Pop(false);
      accepted := *;
      Write(sample.value, db, accepted);
    }

    /** The drain after shutdown, with no other thread at the queue. The count is seen positive by the
        only thread that pops, so the pop does not wait. */
    method Drain(queue: Ring<T>, db: Database<T>, ran: Statements)
      returns (ghost written: seq<T>, ghost failed: seq<T>)
      requires queue.Valid()
      modifies this, db, queue
      ensures queue.Valid()
      ensures DrainDone(old(BooksOf(queue, db)), BooksOf(queue, db), maxCacheCount, written, failed, ran)
    {
      written, failed := [], [];
      ghost var start, first := db.Model(), queue.model;
      ghost var done: seq<T> := [];
      while queue.count > 0
        invariant queue.Valid()
        invariant done + queue.model.items == first.items
        invariant queue.model == first.(items := queue.model.items, popped := first.popped + done)
        invariant Interleaving(written, failed, done) && sampleCounter == old(sampleCounter) + |done|
        invariant writeCount == old(writeCount) + |written| && writeFailCount == old(writeFailCount) + |failed|
        invariant db.Model() == InsertedAll(start, written)
        decreases queue.count
      {
        ghost var q := queue.model;
        var accepted := WriteNext(queue, db);
        ghost var x := q.items[0];
        OldestMoves(first.popped, done, q.items);
        InterleavingSnoc(written, failed, done, x);
        InsertedAllSnoc(start, written, x);
        done := done + [x];
        if accepted {
          written := written + [x];
        } else {
          failed := failed + [x];
        }
      }
      assert done == first.items;
      var rc := db.TrimCache(maxCacheCount, ran);
    }
  }

  lemma OldestMoves<T>(popped: seq<T>, done: seq<T>, items: seq<T>)
    requires items != []
    ensures (done + [items[0]]) + items[1..] == done + items
    ensures (popped + done) + [items[0]] == popped + (done + [items[0]])
  {
  }
}
