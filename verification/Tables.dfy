/** The samples table (app/src/sqlite_store.c) as what its SQL statements mean: rows by id, ids
    handed out once and never again (AUTOINCREMENT). Each statement is one atomic step. */
module Tables {

  datatype Row<P> = Row(payload: P, uploaded: bool, retry: nat)

  datatype Table<P> = Table(rows: map<nat, Row<P>>, nextId: nat)

  predicate Wellformed<P>(t: Table<P>) {
    t.nextId >= 1 && forall id :: id in t.rows ==> 1 <= id < t.nextId
  }

  function Inserted<P>(t: Table<P>, p: P): Table<P> {
    Table(t.rows[t.nextId := Row(p, false, 0)], t.nextId + 1)
  }

  lemma InsertedOne<P>(t: Table<P>, p: P)
    requires Wellformed(t)
    ensures
      var r := Inserted(t, p);
      Wellformed(r) && r.rows.Keys == t.rows.Keys + {t.nextId} && t.nextId !in t.rows && |r.rows| == |t.rows| + 1
  {
    var r := Inserted(t, p);
    assert r.rows.Keys == t.rows.Keys + {t.nextId};
    assert |r.rows| == |r.rows.Keys| && |t.rows| == |t.rows.Keys|;
  }

  function Marked<P>(t: Table<P>, id: nat): Table<P> {
    if id in t.rows then t.(rows := t.rows[id := t.rows[id].(uploaded := true)]) else t
  }

  function Retried<P>(t: Table<P>, id: nat): Table<P> {
    if id in t.rows then t.(rows := t.rows[id := t.rows[id].(retry := t.rows[id].retry + 1)]) else t
  }

  /** What the two updates change, and that they change nothing else. */
  lemma UpdatesOne<P>(t: Table<P>, id: nat, other: nat)
    ensures Marked(t, id).nextId == t.nextId && Retried(t, id).nextId == t.nextId
    ensures Marked(t, id).rows.Keys == t.rows.Keys && Retried(t, id).rows.Keys == t.rows.Keys
    ensures id in t.rows ==>
      Marked(t, id).rows[id] == Row(t.rows[id].payload, true, t.rows[id].retry) &&
      Retried(t, id).rows[id] == Row(t.rows[id].payload, t.rows[id].uploaded, t.rows[id].retry + 1)
    ensures other in t.rows && other != id ==>
      Marked(t, id).rows[other] == t.rows[other] && Retried(t, id).rows[other] == t.rows[other]
  {
    assert id in t.rows ==> Marked(t, id).rows.Keys == t.rows.Keys + {id};
  }

  function Uploaded<P>(rows: map<nat, Row<P>>): set<nat> {
    set id | id in rows && rows[id].uploaded
  }

  function Unuploaded<P>(rows: map<nat, Row<P>>): set<nat> {
    set id | id in rows && !rows[id].uploaded
  }

  /** The rows the uploader's query selects. */
  predicate IsPending<P>(r: Row<P>, retryMax: int) {
    !r.uploaded && r.retry < retryMax
  }

  /** No row up to mark is pending. */
  predicate Settled<P>(rows: map<nat, Row<P>>, mark: nat, retryMax: int) {
    forall id :: id in rows && id <= mark ==> !IsPending(rows[id], retryMax)
  }

  // ---------------------------------------------------------------------------------------
  // ORDER BY id ASC LIMIT k
  // ---------------------------------------------------------------------------------------

  lemma {:induction false} LeastExists(ids: set<nat>) returns (m: nat)
    requires ids != {}
    ensures m in ids && forall x :: x in ids ==> m <= x
    decreases |ids|
  {
    var e :| e in ids;
    var smaller := set x | x in ids && x < e;
    if smaller == {} {
      m := e;
      forall x | x in ids
        ensures m <= x
      {
        assert x !in smaller;
      }
    } else {
      Smaller(smaller, ids - {e});
      m := LeastExists(smaller);
      forall x | x in ids
        ensures m <= x
      {
        if x < e {
          assert x in smaller;
        }
      }
    }
  }

  lemma {:induction false} Smaller(a: set<nat>, b: set<nat>)
    requires a <= b
    ensures |a| <= |b|
  {
    assert b == a + (b - a);
  }

  function Least(ids: set<nat>): (m: nat)
    requires ids != {}
    ensures m in ids && forall x :: x in ids ==> m <= x
  {
    assert exists m :: m in ids && forall x :: x in ids ==> m <= x by {
      var w := LeastExists(ids);
    }
    var m :| m in ids && forall x :: x in ids ==> m <= x;
    m
  }

  function Lowest(ids: set<nat>, k: nat): set<nat>
    decreases k
  {
    if k == 0 || ids == {} then {}
    else
      var m := Least(ids);
      {m} + Lowest(ids - {m}, k - 1)
  }

  /** a lies entirely below what else there is in ids. */
  predicate Below(a: set<nat>, ids: set<nat>) {
    a <= ids && forall x, y :: x in a && y in ids && y !in a ==> x < y
  }

  lemma {:induction false} LowestAre(ids: set<nat>, k: nat)
    ensures Below(Lowest(ids, k), ids)
    ensures |Lowest(ids, k)| == if k < |ids| then k else |ids|
    decreases k
  {
    if k != 0 && ids != {} {
      var m := Least(ids);
      assert ids == (ids - {m}) + {m};
      LowestAre(ids - {m}, k - 1);
    }
  }

  function DeleteUploaded<P>(t: Table<P>, k: nat): Table<P> {
    t.(rows := t.rows - Lowest(Uploaded(t.rows), k))
  }

  function DeleteOldest<P>(t: Table<P>, k: nat): Table<P> {
    t.(rows := t.rows - Lowest(t.rows.Keys, k))
  }

  lemma Remaining<P>(rows: map<nat, Row<P>>, gone: set<nat>)
    requires gone <= rows.Keys
    ensures |rows - gone| == |rows| - |gone|
    ensures (rows - gone).Keys == rows.Keys - gone
  {
    assert (rows - gone).Keys == rows.Keys - gone;
    assert rows.Keys == (rows.Keys - gone) + gone;
    assert |rows - gone| == |(rows - gone).Keys| && |rows| == |rows.Keys|;
  }

  lemma TwoKinds<P>(rows: map<nat, Row<P>>)
    ensures |Uploaded(rows)| + |Unuploaded(rows)| == |rows|
    ensures Uploaded(rows) <= rows.Keys && Unuploaded(rows) <= rows.Keys
  {
    assert rows.Keys == Uploaded(rows) + Unuploaded(rows);
    assert |rows| == |rows.Keys|;
  }

  // ---------------------------------------------------------------------------------------
  // Trimming
  // ---------------------------------------------------------------------------------------

  /** sqlite_store_trim_cache run alone, with both deletes succeeding. */
  function Trim<P>(t: Table<P>, maxCount: int): Table<P> {
    if maxCount <= 0 || |t.rows| <= maxCount then t
    else
      var u := DeleteUploaded(t, |t.rows| - maxCount);
      if |u.rows| > maxCount then DeleteOldest(u, |u.rows| - maxCount) else u
  }

  /** Which statements of a trim succeed. */
  datatype Statements = Statements(count: bool, delete: bool, recount: bool, deleteOld: bool)

  const ALL_RUN := Statements(true, true, true, true)

  /** sqlite_store_trim_cache run alone, whichever of its statements succeed: it gives up before the
      first DELETE, after it, or goes through. */
  function TrimRan<P>(t: Table<P>, maxCount: int, ran: Statements): Table<P> {
    if maxCount <= 0 || !ran.count || |t.rows| <= maxCount || !ran.delete then t
    else
      var u := DeleteUploaded(t, |t.rows| - maxCount);
      if ran.recount && ran.deleteOld && |u.rows| > maxCount then DeleteOldest(u, |u.rows| - maxCount) else u
  }

  /** A statement that fails costs trimming, never a row that a complete trim would have kept. */
  lemma TrimRanKeeps<P>(t: Table<P>, maxCount: int, ran: Statements)
    ensures TrimRan(t, maxCount, ALL_RUN) == Trim(t, maxCount)
    ensures Trim(t, maxCount).rows.Keys <= TrimRan(t, maxCount, ran).rows.Keys <= t.rows.Keys
  {
  }

  /** kept holds the newest of ids. */
  predicate Newest(kept: set<nat>, ids: set<nat>) {
    kept <= ids && Below(ids - kept, ids)
  }

  /** What other threads may do to the table while the store thread holds it between statements:
      the uploader marks rows and counts retries, and nothing else. */
  ghost predicate Evolves<P>(t: Table<P>, u: Table<P>) {
    u.nextId == t.nextId && u.rows.Keys == t.rows.Keys &&
    forall id :: id in t.rows ==>
      u.rows[id].payload == t.rows[id].payload && u.rows[id].retry >= t.rows[id].retry &&
      (t.rows[id].uploaded ==> u.rows[id].uploaded)
  }

  /** The first DELETE: it takes uploaded rows only, and leaves too many rows exactly when more
      than maxCount rows were waiting for upload. */
  lemma FirstDelete<P>(t: Table<P>, maxCount: nat)
    requires |t.rows| > maxCount
    ensures
      var u := DeleteUploaded(t, |t.rows| - maxCount);
      Unuploaded(u.rows) == Unuploaded(t.rows) &&
      (if |Unuploaded(t.rows)| <= maxCount then |u.rows| == maxCount && Newest(Uploaded(u.rows), Uploaded(t.rows))
       else |u.rows| == |Unuploaded(t.rows)| && Uploaded(u.rows) == {})
  {
    var k := |t.rows| - maxCount;
    var gone := Lowest(Uploaded(t.rows), k);
    LowestAre(Uploaded(t.rows), k);
    TwoKinds(t.rows);
    Remaining(t.rows, gone);
    var u := DeleteUploaded(t, k);
    TwoKinds(u.rows);
    assert Unuploaded(u.rows) == Unuploaded(t.rows);
    assert Uploaded(u.rows) == Uploaded(t.rows) - gone;
    assert Uploaded(t.rows) - Uploaded(u.rows) == gone;
  }

  /** The second COUNT on t2 decides whether the second DELETE runs, on t3. */
  function SecondHalf<P>(t2: Table<P>, t3: Table<P>, maxCount: nat): Table<P> {
    if |t2.rows| > maxCount then DeleteOldest(t3, |t2.rows| - maxCount) else t3
  }

  /** Exactly maxCount rows are left, and of those that were waiting for upload at the first DELETE
      none is gone unless more than maxCount of them were waiting. */
  ghost predicate TrimmedTo<P>(first: Table<P>, last: Table<P>, maxCount: nat) {
    |last.rows| == maxCount && (|Unuploaded(first.rows)| <= maxCount ==> Unuploaded(first.rows) <= last.rows.Keys)
  }

  /** However the uploader interferes between the statements, a trim that starts with too many
      rows leaves what TrimmedTo says. The tables are those seen by the first COUNT, the first
      DELETE, the second COUNT and the second DELETE. */
  lemma TrimInterleaved<P>(t0: Table<P>, t1: Table<P>, t2: Table<P>, t3: Table<P>, maxCount: nat)
    requires maxCount > 0 && |t0.rows| > maxCount
    requires Evolves(t0, t1)
    requires Evolves(DeleteUploaded(t1, |t0.rows| - maxCount), t2)
    requires Evolves(t2, t3)
    ensures TrimmedTo(t1, SecondHalf(t2, t3, maxCount), maxCount)
  {
    FirstDeleteSize(t0, t1, maxCount);
    var u := DeleteUploaded(t1, |t0.rows| - maxCount);
    assert t2.rows.Keys == u.rows.Keys && t3.rows.Keys == u.rows.Keys;
    LastDelete(u, t2, t3, maxCount);
  }

  /** Only the sets of ids matter: marking rows in between does not change them. */
  lemma LastDelete<P>(u: Table<P>, t2: Table<P>, t3: Table<P>, maxCount: nat)
    requires t2.rows.Keys == u.rows.Keys && t3.rows.Keys == u.rows.Keys && |u.rows| >= maxCount
    ensures
      var last := SecondHalf(t2, t3, maxCount);
      |last.rows| == maxCount && (|u.rows| == maxCount ==> Unuploaded(u.rows) <= last.rows.Keys)
  {
    SameSize(u, t2);
    SameSize(u, t3);
    var last := SecondHalf(t2, t3, maxCount);
    if |u.rows| > maxCount {
      assert last == DeleteOldest(t3, |t3.rows| - maxCount);
      SecondDeleteSize(t3, maxCount);
    } else {
      assert last == t3;
      WaitingAreRows(u.rows);
    }
  }

  lemma WaitingAreRows<P>(rows: map<nat, Row<P>>)
    ensures Unuploaded(rows) <= rows.Keys
  {
  }

  lemma SecondDeleteSize<P>(u: Table<P>, maxCount: nat)
    requires |u.rows| > maxCount
    ensures |DeleteOldest(u, |u.rows| - maxCount).rows| == maxCount
  {
    SecondDelete(u, maxCount);
  }

  lemma FirstDeleteSize<P>(t0: Table<P>, t: Table<P>, maxCount: nat)
    requires t.rows.Keys == t0.rows.Keys && |t0.rows| > maxCount
    ensures
      var u := DeleteUploaded(t, |t0.rows| - maxCount);
      Unuploaded(u.rows) == Unuploaded(t.rows) &&
      |u.rows| == if |Unuploaded(t.rows)| <= maxCount then maxCount else |Unuploaded(t.rows)|
  {
    SameSize(t0, t);
    FirstDelete(t, maxCount);
  }

  lemma SameSize<P>(t: Table<P>, u: Table<P>)
    requires u.rows.Keys == t.rows.Keys
    ensures |u.rows| == |t.rows|
  {
    assert |u.rows| == |u.rows.Keys| && |t.rows| == |t.rows.Keys|;
  }

  /** u's rows are some of t's, unchanged. */
  ghost predicate SubTable<P>(u: Table<P>, t: Table<P>) {
    u.nextId == t.nextId && u.rows.Keys <= t.rows.Keys && forall id :: id in u.rows ==> u.rows[id] == t.rows[id]
  }

  /** Run alone, a trim that finds room for every row still waiting for upload keeps all of those
      and the newest uploaded ones ... */
  lemma TrimKeepsWaiting<P>(t: Table<P>, maxCount: nat)
    requires maxCount > 0 && |t.rows| > maxCount && |Unuploaded(t.rows)| <= maxCount
    ensures
      var r := Trim(t, maxCount);
      |r.rows| == maxCount && SubTable(r, t) &&
      Unuploaded(r.rows) == Unuploaded(t.rows) && Newest(Uploaded(r.rows), Uploaded(t.rows))
  {
    FirstDelete(t, maxCount);
    assert Trim(t, maxCount) == DeleteUploaded(t, |t.rows| - maxCount);
  }

  /** ... and one that does not keeps the newest waiting ones and nothing else. Together with the
      size this determines the survivors. */
  lemma TrimKeepsNewestWaiting<P>(t: Table<P>, maxCount: nat)
    requires maxCount > 0 && |Unuploaded(t.rows)| > maxCount
    ensures
      var r := Trim(t, maxCount);
      |r.rows| == maxCount && SubTable(r, t) && Newest(r.rows.Keys, Unuploaded(t.rows))
  {
    TrimIsSub(t, maxCount);
    var u := DeletesBoth(t, maxCount);
    NewestOf(u, Unuploaded(t.rows), maxCount);
  }

  /** What is left of t after a trim to maxCount rows in which these statements succeed. */
  ghost predicate Remains<P>(t: Table<P>, maxCount: int, ran: Statements, r: Table<P>) {
    SubTable(r, t) &&
    if maxCount <= 0 || |t.rows| <= maxCount || !ran.count || !ran.delete then r == t
    else if |Unuploaded(t.rows)| <= maxCount then
      |r.rows| == maxCount && Unuploaded(r.rows) == Unuploaded(t.rows) &&
      Newest(Uploaded(r.rows), Uploaded(t.rows))
    else if ran.recount && ran.deleteOld then |r.rows| == maxCount && Newest(r.rows.Keys, Unuploaded(t.rows))
    else r.rows.Keys == Unuploaded(t.rows)
  }

  /** The first DELETE is enough, so the second does not matter. */
  lemma OneDelete<P>(t: Table<P>, maxCount: nat, ran: Statements)
    requires maxCount > 0 && |t.rows| > maxCount && |Unuploaded(t.rows)| <= maxCount && ran.count && ran.delete
    ensures TrimRan(t, maxCount, ran) == Trim(t, maxCount)
  {
    FirstDelete(t, maxCount);
  }

  /** The survivors of a trim, whichever of its statements succeed: all rows if it gives up at once or
      there are not too many; else those waiting for upload and the newest uploaded ones, if there is
      room for those waiting; if not, the newest waiting ones, or all of them if the second half fails. */
  lemma TrimRanExactly<P>(t: Table<P>, maxCount: int, ran: Statements)
    ensures Remains(t, maxCount, ran, TrimRan(t, maxCount, ran))
  {
    if maxCount > 0 && |t.rows| > maxCount && ran.count && ran.delete {
      if |Unuploaded(t.rows)| <= maxCount {
        OneDelete(t, maxCount, ran);
        TrimKeepsWaiting(t, maxCount);
      } else if ran.recount && ran.deleteOld {
        assert TrimRan(t, maxCount, ran) == Trim(t, maxCount);
        TrimKeepsNewestWaiting(t, maxCount);
      } else {
        assert TrimRan(t, maxCount, ran) == DeleteUploaded(t, |t.rows| - maxCount);
        OnlyWaiting(t, maxCount);
      }
    }
  }

  lemma DeletesBoth<P>(t: Table<P>, maxCount: nat) returns (u: Table<P>)
    requires maxCount > 0 && |Unuploaded(t.rows)| > maxCount
    ensures u.rows.Keys == Unuploaded(t.rows) && |u.rows| > maxCount
    ensures Trim(t, maxCount) == DeleteOldest(u, |u.rows| - maxCount)
  {
    TwoKinds(t.rows);
    OnlyWaiting(t, maxCount);
    u := DeleteUploaded(t, |t.rows| - maxCount);
  }

  lemma NewestOf<P>(u: Table<P>, ids: set<nat>, maxCount: nat)
    requires u.rows.Keys == ids && |u.rows| > maxCount
    ensures
      var r := DeleteOldest(u, |u.rows| - maxCount);
      |r.rows| == maxCount && Newest(r.rows.Keys, ids)
  {
    SecondDelete(u, maxCount);
  }

  lemma TrimIsSub<P>(t: Table<P>, maxCount: nat)
    ensures SubTable(Trim(t, maxCount), t)
  {
  }

  lemma OnlyWaiting<P>(t: Table<P>, maxCount: nat)
    requires |t.rows| > maxCount && |Unuploaded(t.rows)| > maxCount
    ensures
      var u := DeleteUploaded(t, |t.rows| - maxCount);
      u.rows.Keys == Unuploaded(t.rows) && |u.rows| == |Unuploaded(t.rows)|
  {
    FirstDelete(t, maxCount);
    AllWaiting(DeleteUploaded(t, |t.rows| - maxCount).rows);
  }

  lemma AllWaiting<P>(rows: map<nat, Row<P>>)
    requires Uploaded(rows) == {}
    ensures Unuploaded(rows) == rows.Keys
  {
    assert rows.Keys == Uploaded(rows) + Unuploaded(rows);
  }

  lemma SecondDelete<P>(u: Table<P>, maxCount: nat)
    requires |u.rows| > maxCount
    ensures
      var r := DeleteOldest(u, |u.rows| - maxCount);
      |r.rows| == maxCount && Newest(r.rows.Keys, u.rows.Keys)
  {
    var k := |u.rows| - maxCount;
    var gone := Lowest(u.rows.Keys, k);
    LowestAre(u.rows.Keys, k);
    Remaining(u.rows, gone);
    assert u.rows.Keys - (u.rows.Keys - gone) == gone;
  }

  // ---------------------------------------------------------------------------------------
  // The store's database handle
  // ---------------------------------------------------------------------------------------

  class Database<P> {
    var rows: map<nat, Row<P>>
    var nextId: nat

    function Model(): Table<P>
      reads this
    {
      Table(rows, nextId)
    }

    constructor ()
      ensures Model() == Table(map[], 1)
    {
      rows, nextId := map[], 1;
    }

    /** accepted says whether SQLite executes the statement. */
    method Insert(p: P, accepted: bool) returns (rc: int)
      modifies this
      ensures rc == if accepted then 0 else -1
      ensures Model() == if accepted then Inserted(old(Model()), p) else old(Model())
    {
      if !accepted {
        return -1;
      }
      rows := rows[nextId := Row(p, false, 0)];
      nextId := nextId + 1;
      return 0;
    }

    method MarkUploaded(id: nat)
      modifies this
      ensures Model() == Marked(old(Model()), id)
    {
      if id in rows {
        rows := rows[id := rows[id].(uploaded := true)];
      }
    }

    method IncRetry(id: nat)
      modifies this
      ensures Model() == Retried(old(Model()), id)
    {
      if id in rows {
        rows := rows[id := rows[id].(retry := rows[id].retry + 1)];
      }
    }

    /** ran says which of the four statements SQLite executes; the result of the last one is ignored. */
    method TrimCache(maxCount: int, ran: Statements) returns (rc: int)
      modifies this
      ensures rc == if maxCount <= 0 || (ran.count && |old(rows)| > maxCount && !ran.delete) then -1 else 0
      ensures Model() == TrimRan(old(Model()), maxCount, ran)
    {
      if maxCount <= 0 {
        return -1;
      }
      ghost var t := Model();
      var total := if ran.count then |rows| else -1;
      if total < 0 || total <= maxCount {
        return 0;
      }
      var toDelete := total - maxCount;
      if !ran.delete {
        return -1;
      }
      rows := rows - Lowest(Uploaded(rows), toDelete);
      ghost var u := DeleteUploaded(t, toDelete);
      assert Model() == u;
      total := if ran.recount then |rows| else -1;
      if total > maxCount {
        toDelete := total - maxCount;
        if ran.deleteOld {
          rows := rows - Lowest(rows.Keys, toDelete);
          assert Model() == DeleteOldest(u, toDelete);
        }
      }
      return 0;
    }
  }
}
